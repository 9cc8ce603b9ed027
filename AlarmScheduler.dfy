/**
 * The notification registrations the alarm scheduler keeps in step with the
 * alarms: a table keyed by alarm identifier, where adding a request under an
 * identifier that is already present replaces the earlier one.
 */
module AlarmScheduler {
  import opened Wrappers
  import opened AlarmEntity

  const NotificationTitle: string := "Alarm"

  /** A pending repeating notification: its content and calendar trigger. */
  datatype Registration = Registration(title: string, body: string, trigger: TimeOfDay, repeats: bool)

  type Registrations = map<string, Registration>

  /** The request built for an alarm that fires at the given instant. */
  function RequestFor(alarm: Alarm, fireDate: int): Registration
  {
    Registration(NotificationTitle, alarm.name, ClockTime(fireDate), true)
  }

  /**
   * scheduleUserNotifications(for:): registers a daily repeating request
   * under the alarm's identifier, replacing any earlier one; does nothing when
   * the fire date cannot be computed.
   */
  function Scheduled(regs: Registrations, alarm: Alarm, thisMorningAtMidnight: Option<int>): (r: Registrations)
    ensures thisMorningAtMidnight.None? ==> r == regs
    ensures thisMorningAtMidnight.Some? ==>
      && alarm.uuid in r
      && r[alarm.uuid].title == "Alarm"
      && r[alarm.uuid].body == alarm.name
      && r[alarm.uuid].repeats
      && r[alarm.uuid].trigger == ClockTime(thisMorningAtMidnight.value + alarm.fireTimeFromMidnight)
      && SecondsOf(r[alarm.uuid].trigger)
         == (thisMorningAtMidnight.value + alarm.fireTimeFromMidnight) % SecondsPerDay
    ensures r.Keys == if thisMorningAtMidnight.Some? then regs.Keys + {alarm.uuid} else regs.Keys
    ensures forall u :: u in regs && u != alarm.uuid ==> r[u] == regs[u]
  {
    match FireDate(alarm, thisMorningAtMidnight)
    case None => regs
    case Some(fireDate) => regs[alarm.uuid := RequestFor(alarm, fireDate)]
  }

  /** cancelUserNotifications(for:): removes the request under the identifier, if any. */
  function Cancelled(regs: Registrations, uuid: string): (r: Registrations)
    ensures uuid !in r
    ensures r.Keys == regs.Keys - {uuid}
    ensures forall u :: u in r ==> r[u] == regs[u]
  {
    regs - {uuid}
  }

  /** Scheduling twice under one identifier leaves one registration: the same as scheduling once. */
  lemma ScheduleReplaces(regs: Registrations, alarm: Alarm, thisMorningAtMidnight: Option<int>)
    ensures Scheduled(Scheduled(regs, alarm, thisMorningAtMidnight), alarm, thisMorningAtMidnight)
            == Scheduled(regs, alarm, thisMorningAtMidnight)
  {
  }

  /** Cancelling what was just scheduled removes it, and nothing else. */
  lemma CancelUndoesSchedule(regs: Registrations, alarm: Alarm, thisMorningAtMidnight: Option<int>)
    ensures Cancelled(Scheduled(regs, alarm, thisMorningAtMidnight), alarm.uuid) == Cancelled(regs, alarm.uuid)
  {
  }
}
