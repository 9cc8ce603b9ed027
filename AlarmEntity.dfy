/**
 * The alarm record and the clock arithmetic the scheduler needs.
 *
 * Instants are whole seconds on the local wall clock, so an instant that is a
 * multiple of SecondsPerDay is a local midnight.
 */
module AlarmEntity {
  import opened Wrappers

  const SecondsPerDay: int := 86400

  /** One alarm, with exactly the fields that are persisted. */
  datatype Alarm = Alarm(uuid: string, name: string, fireTimeFromMidnight: int, enabled: bool)

  /** The alarm created by addAlarm: a fresh identifier and enabled. */
  function NewAlarm(uuid: string, fireTimeFromMidnight: int, name: string): Alarm
  {
    Alarm(uuid, name, fireTimeFromMidnight, true)
  }

  /**
   * The alarm's fire date today: midnight of today plus its offset, or
   * nothing when this morning's midnight cannot be computed.
   */
  function FireDate(alarm: Alarm, thisMorningAtMidnight: Option<int>): Option<int>
  {
    match thisMorningAtMidnight
    case None => None
    case Some(midnight) => Some(midnight + alarm.fireTimeFromMidnight)
  }

  /** The hour, minute and second components a calendar trigger matches. */
  datatype TimeOfDay = TimeOfDay(hour: int, minute: int, second: int)

  function SecondsOf(t: TimeOfDay): int
  {
    t.hour * 3600 + t.minute * 60 + t.second
  }

  /** The clock time of an instant: in range, and it names the instant's offset in its day. */
  function ClockTime(instant: int): (t: TimeOfDay)
    ensures 0 <= t.hour < 24 && 0 <= t.minute < 60 && 0 <= t.second < 60
    ensures SecondsOf(t) == instant % SecondsPerDay
  {
    var d := instant % SecondsPerDay;
    TimeOfDay(d / 3600, d % 3600 / 60, d % 60)
  }

  /** Reading back the clock time of an in-range offset gives that offset. */
  lemma ClockTimeRoundTrip(t: TimeOfDay)
    requires 0 <= t.hour < 24 && 0 <= t.minute < 60 && 0 <= t.second < 60
    ensures ClockTime(SecondsOf(t)) == t
  {
    var s := SecondsOf(t);
    assert 0 <= s < SecondsPerDay;
    assert s % SecondsPerDay == s;
    assert s / 3600 == t.hour;
    assert s % 3600 == t.minute * 60 + t.second;
  }

  /**
   * When midnight really is a midnight and the offset lies within one day,
   * the fire date is that offset into the day, so the trigger fires at the
   * configured time of day.
   */
  lemma FireDateTimeOfDay(alarm: Alarm, midnight: int)
    requires midnight % SecondsPerDay == 0
    requires 0 <= alarm.fireTimeFromMidnight < SecondsPerDay
    ensures FireDate(alarm, Some(midnight)) == Some(midnight + alarm.fireTimeFromMidnight)
    ensures SecondsOf(ClockTime(midnight + alarm.fireTimeFromMidnight)) == alarm.fireTimeFromMidnight
  {
  }
}
