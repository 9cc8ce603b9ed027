/**
 * What each controller operation does to the alarm list, the registration
 * table and the stored snapshot, as functions of the state before it, and
 * the properties of those effects: in particular whether "an alarm is
 * registered exactly when it is enabled" survives each operation.
 */
module ControllerSpec {
  import opened Wrappers
  import opened AlarmEntity
  import opened AlarmScheduler
  import opened AlarmList

  /**
   * The registrations mirror the list: identifiers are unique, an alarm is
   * registered exactly when it is enabled, and nothing else is registered.
   */
  ghost predicate Synchronized(alarms: seq<Alarm>, regs: Registrations)
  {
    && UniqueIds(alarms)
    && (forall i :: 0 <= i < |alarms| ==> (alarms[i].uuid in regs <==> alarms[i].enabled))
    && regs.Keys <= Ids(alarms)
  }

  // ---- update(alarm:fireTimeFromMidnight:name:)

  /** The alarm with its name and fire time replaced; identifier and flag kept. */
  function Edited(alarm: Alarm, fireTimeFromMidnight: int, name: string): Alarm
  {
    alarm.(name := name, fireTimeFromMidnight := fireTimeFromMidnight)
  }

  function UpdatedList(s: seq<Alarm>, alarm: Alarm, fireTimeFromMidnight: int, name: string): seq<Alarm>
  {
    ReplaceFirst(s, alarm.uuid, Edited(Live(s, alarm), fireTimeFromMidnight, name))
  }

  /** Cancel under the unchanged identifier, then schedule the edited alarm, whatever its flag. */
  function UpdatedRegistrations(s: seq<Alarm>, regs: Registrations, alarm: Alarm, fireTimeFromMidnight: int,
                                name: string, thisMorningAtMidnight: Option<int>): Registrations
  {
    Scheduled(Cancelled(regs, alarm.uuid), Edited(Live(s, alarm), fireTimeFromMidnight, name), thisMorningAtMidnight)
  }

  // ---- toggledEnabled(for:)

  function Flipped(alarm: Alarm): Alarm
  {
    alarm.(enabled := !alarm.enabled)
  }

  function ToggledList(s: seq<Alarm>, alarm: Alarm): seq<Alarm>
  {
    ReplaceFirst(s, alarm.uuid, Flipped(Live(s, alarm)))
  }

  /** The scheduler call follows the flag as it was before the flip. */
  function ToggledRegistrations(s: seq<Alarm>, regs: Registrations, alarm: Alarm,
                                thisMorningAtMidnight: Option<int>): Registrations
  {
    var live := Live(s, alarm);
    if live.enabled then Cancelled(regs, live.uuid) else Scheduled(regs, live, thisMorningAtMidnight)
  }

  // ---- saveToPersistentStorage() / loadFromPersistentStorage()

  /** The stored snapshot after a save: the whole list, or the old snapshot when the write fails. */
  function Saved(stored: Option<seq<Alarm>>, alarms: seq<Alarm>, writeOk: bool): Option<seq<Alarm>>
  {
    if writeOk then Some(alarms) else stored
  }

  /** The list after a load: the stored one, or the old list when there is nothing readable. */
  function Loaded(alarms: seq<Alarm>, stored: Option<seq<Alarm>>, readOk: bool): seq<Alarm>
  {
    if readOk && stored.Some? then stored.value else alarms
  }

  // ---- properties

  /** Helper: the identifiers after appending one alarm. */
  lemma IdsAppend(s: seq<Alarm>, a: Alarm)
    ensures Ids(s + [a]) == Ids(s) + {a.uuid}
  {
    var t := s + [a];
    forall u | u in Ids(s) ensures u in Ids(t) {
      var k :| 0 <= k < |s| && s[k].uuid == u;
      assert t[k].uuid == u;
    }
    assert t[|s|].uuid == a.uuid;
  }

  /** addAlarm with a fresh identifier and a computable midnight keeps the registrations in step. */
  lemma AddKeepsSynchronized(s: seq<Alarm>, regs: Registrations, uuid: string, fireTimeFromMidnight: int,
                             name: string, thisMorningAtMidnight: Option<int>)
    requires Synchronized(s, regs)
    requires uuid !in Ids(s)
    requires thisMorningAtMidnight.Some?
    ensures Synchronized(s + [NewAlarm(uuid, fireTimeFromMidnight, name)],
                         Scheduled(regs, NewAlarm(uuid, fireTimeFromMidnight, name), thisMorningAtMidnight))
  {
    var a := NewAlarm(uuid, fireTimeFromMidnight, name);
    IdsAppend(s, a);
    forall i | 0 <= i < |s| ensures s[i].uuid != uuid {
      assert s[i].uuid in Ids(s);
    }
  }

  /**
   * The scenario of adding "Wake up" at 07:00 to an empty controller: one
   * enabled alarm, and exactly one registration, under its identifier.
   */
  lemma AddToEmptyScenario(uuid: string, midnight: int)
    requires midnight % SecondsPerDay == 0
    ensures var s := [] + [NewAlarm(uuid, 25200, "Wake up")];
            var r := Scheduled(map[], NewAlarm(uuid, 25200, "Wake up"), Some(midnight));
            && |s| == 1 && s[0].enabled && s[0].name == "Wake up"
            && r.Keys == {uuid}
            && r[uuid] == Registration("Alarm", "Wake up", TimeOfDay(7, 0, 0), true)
  {
    var a := NewAlarm(uuid, 25200, "Wake up");
    FireDateTimeOfDay(a, midnight);
    assert SecondsOf(TimeOfDay(7, 0, 0)) == 25200;
    ClockTimeRoundTrip(TimeOfDay(7, 0, 0));
  }

  /**
   * update sets name and fire time of the alarm in the list and nothing else:
   * identifier, flag, the other alarms and the order are kept; an alarm that
   * is not in the list leaves the list alone.
   */
  lemma UpdateEditsInPlace(s: seq<Alarm>, alarm: Alarm, fireTimeFromMidnight: int, name: string)
    ensures var r := UpdatedList(s, alarm, fireTimeFromMidnight, name);
            match FirstIndex(s, alarm.uuid)
            case None => r == s
            case Some(i) =>
              && |r| == |s|
              && r[i] == Alarm(s[i].uuid, name, fireTimeFromMidnight, s[i].enabled)
              && forall j :: 0 <= j < |s| && j != i ==> r[j] == s[j]
  {
  }

  /**
   * Afterwards the table holds one registration for the alarm, carrying the
   * new name and time, when the fire date resolves, and none otherwise; the
   * flag plays no part in it. Other registrations are kept.
   */
  lemma UpdateReplacesRegistration(s: seq<Alarm>, regs: Registrations, alarm: Alarm, fireTimeFromMidnight: int,
                                   name: string, thisMorningAtMidnight: Option<int>)
    ensures var r := UpdatedRegistrations(s, regs, alarm, fireTimeFromMidnight, name, thisMorningAtMidnight);
            && (thisMorningAtMidnight.None? ==> alarm.uuid !in r)
            && (thisMorningAtMidnight.Some? ==>
                  alarm.uuid in r
                  && r[alarm.uuid] == Registration("Alarm", name,
                       ClockTime(thisMorningAtMidnight.value + fireTimeFromMidnight), true))
            && forall u :: u != alarm.uuid ==> (u in r <==> u in regs) && (u in r ==> r[u] == regs[u])
  {
    var e := Edited(Live(s, alarm), fireTimeFromMidnight, name);
    assert e.uuid == alarm.uuid by {
      match FirstIndex(s, alarm.uuid)
      case None =>
      case Some(i) =>
    }
  }

  /** Helper: in a list with unique identifiers only the first match carries the identifier. */
  lemma OthersDiffer(s: seq<Alarm>, uuid: string, i: nat)
    requires UniqueIds(s)
    requires FirstIndex(s, uuid) == Some(i)
    ensures forall j :: 0 <= j < |s| && j != i ==> s[j].uuid != uuid
  {
  }

  /**
   * Helper: writing back an alarm with the same identifier into a synchronized
   * list, with a table that differs at most in that identifier and agrees
   * with the new flag, stays synchronized.
   */
  lemma WriteBackKeepsSynchronized(s: seq<Alarm>, regs: Registrations, regs': Registrations, i: nat, b: Alarm)
    requires Synchronized(s, regs)
    requires FirstIndex(s, b.uuid) == Some(i)
    requires regs'.Keys - {b.uuid} == regs.Keys - {b.uuid}
    requires b.uuid in regs' <==> b.enabled
    ensures Synchronized(s[i := b], regs')
  {
    var t := s[i := b];
    WriteBackIds(s, i, b);
    OthersDiffer(s, b.uuid, i);
    forall j | 0 <= j < |t| ensures t[j].uuid in regs' <==> t[j].enabled {
      if j != i {
        assert t[j] == s[j];
        assert s[j].uuid in regs'.Keys - {b.uuid} <==> s[j].uuid in regs.Keys - {b.uuid};
      }
    }
    forall u | u in regs' ensures u in Ids(t) {
      if u != b.uuid { assert u in regs'.Keys - {b.uuid}; } else { assert s[i].uuid == u; }
    }
  }

  /** Helper: writing back under the same identifier keeps the identifiers and their uniqueness. */
  lemma WriteBackIds(s: seq<Alarm>, i: nat, b: Alarm)
    requires UniqueIds(s)
    requires i < |s| && s[i].uuid == b.uuid
    ensures Ids(s[i := b]) == Ids(s)
    ensures UniqueIds(s[i := b])
  {
    var t := s[i := b];
    IdsUpdate(s, i, b);
    forall j, k | 0 <= j < k < |t| ensures t[j].uuid != t[k].uuid {
      assert t[j].uuid == s[j].uuid && t[k].uuid == s[k].uuid;
    }
  }

  /**
   * From a synchronized state, update of an alarm in the list with a
   * computable midnight stays synchronized exactly when that alarm is
   * enabled: editing a disabled alarm registers a notification for it.
   */
  lemma UpdateSynchronizedIffEnabled(s: seq<Alarm>, regs: Registrations, alarm: Alarm, fireTimeFromMidnight: int,
                                     name: string, thisMorningAtMidnight: Option<int>)
    requires Synchronized(s, regs)
    requires alarm.uuid in Ids(s)
    requires thisMorningAtMidnight.Some?
    ensures Synchronized(UpdatedList(s, alarm, fireTimeFromMidnight, name),
                         UpdatedRegistrations(s, regs, alarm, fireTimeFromMidnight, name, thisMorningAtMidnight))
            <==> Live(s, alarm).enabled
  {
    var i := FirstIndex(s, alarm.uuid).value;
    var e := Edited(s[i], fireTimeFromMidnight, name);
    var r := UpdatedRegistrations(s, regs, alarm, fireTimeFromMidnight, name, thisMorningAtMidnight);
    assert UpdatedList(s, alarm, fireTimeFromMidnight, name) == s[i := e];
    assert e.uuid in r;
    if s[i].enabled {
      WriteBackKeepsSynchronized(s, regs, r, i, e);
    } else {
      assert !(s[i := e][i].uuid in r <==> s[i := e][i].enabled);
    }
  }

  /** A concrete instance: one disabled alarm, nothing registered, then edited. */
  lemma UpdateOfDisabledAlarmScenario(midnight: int)
    ensures var s := [Alarm("A", "Wake up", 25200, false)];
            && Synchronized(s, map[])
            && "A" in UpdatedRegistrations(s, map[], s[0], 21600, "Wake up early", Some(midnight))
            && !UpdatedList(s, s[0], 21600, "Wake up early")[0].enabled
            && !Synchronized(UpdatedList(s, s[0], 21600, "Wake up early"),
                             UpdatedRegistrations(s, map[], s[0], 21600, "Wake up early", Some(midnight)))
  {
  }

  /**
   * delete removes exactly the first alarm with the identifier (none when no
   * alarm has it), keeps the others in order, and leaves no registration for
   * the identifier.
   */
  lemma DeleteEffect(s: seq<Alarm>, regs: Registrations, alarm: Alarm)
    ensures var r := RemoveFirst(s, alarm.uuid);
            && (alarm.uuid !in Ids(s) ==> r == s)
            && (alarm.uuid in Ids(s) ==> |r| == |s| - 1)
            && alarm.uuid !in Cancelled(regs, alarm.uuid)
  {
  }

  /** Helper: removing position i keeps identifiers unique and every other identifier present. */
  lemma RemoveAtIds(s: seq<Alarm>, i: nat)
    requires UniqueIds(s)
    requires i < |s|
    ensures UniqueIds(s[..i] + s[i + 1..])
    ensures Ids(s) - {s[i].uuid} <= Ids(s[..i] + s[i + 1..])
  {
    var r := s[..i] + s[i + 1..];
    assert forall j :: 0 <= j < |r| ==> r[j] == if j < i then s[j] else s[j + 1];
    forall j, k | 0 <= j < k < |r| ensures r[j].uuid != r[k].uuid {
      var j' := if j < i then j else j + 1;
      var k' := if k < i then k else k + 1;
      assert r[j] == s[j'] && r[k] == s[k'];
    }
    forall u | u in Ids(s) - {s[i].uuid} ensures u in Ids(r) {
      var k :| 0 <= k < |s| && s[k].uuid == u;
      if k < i { assert r[k].uuid == u; } else { assert r[k - 1].uuid == u; }
    }
  }

  /** Helper: removing the alarm at the first match of a synchronized list. */
  lemma RemoveAtKeepsSynchronized(s: seq<Alarm>, regs: Registrations, uuid: string, i: nat)
    requires Synchronized(s, regs)
    requires FirstIndex(s, uuid) == Some(i)
    ensures Synchronized(s[..i] + s[i + 1..], Cancelled(regs, uuid))
  {
    var r := s[..i] + s[i + 1..];
    var c := Cancelled(regs, uuid);
    OthersDiffer(s, uuid, i);
    RemoveAtIds(s, i);
    forall j | 0 <= j < |r| ensures r[j].uuid in c <==> r[j].enabled {
      var j' := if j < i then j else j + 1;
      assert r[j] == s[j'] && j' != i;
    }
    assert c.Keys <= Ids(s) - {uuid};
  }

  /** delete keeps the registrations in step, whether or not the alarm was in the list. */
  lemma DeleteKeepsSynchronized(s: seq<Alarm>, regs: Registrations, uuid: string)
    requires Synchronized(s, regs)
    ensures Synchronized(RemoveFirst(s, uuid), Cancelled(regs, uuid))
  {
    match FirstIndex(s, uuid)
    case None =>
      var c := Cancelled(regs, uuid);
      forall j | 0 <= j < |s| ensures s[j].uuid in c <==> s[j].enabled {
        assert s[j].uuid in Ids(s);
      }
    case Some(i) =>
      RemoveAtKeepsSynchronized(s, regs, uuid, i);
  }

  /**
   * toggledEnabled cancels when the alarm was enabled and schedules when it
   * was disabled, then negates the flag of the alarm in the list; nothing
   * else in the list changes.
   */
  lemma ToggleEffect(s: seq<Alarm>, regs: Registrations, alarm: Alarm, thisMorningAtMidnight: Option<int>)
    requires alarm.uuid in Ids(s)
    ensures var i := FirstIndex(s, alarm.uuid).value;
            var t := ToggledList(s, alarm);
            var r := ToggledRegistrations(s, regs, alarm, thisMorningAtMidnight);
            && |t| == |s|
            && t[i] == s[i].(enabled := !s[i].enabled)
            && (forall j :: 0 <= j < |s| && j != i ==> t[j] == s[j])
            && (s[i].enabled ==> alarm.uuid !in r)
            && (!s[i].enabled && thisMorningAtMidnight.Some? ==> alarm.uuid in r)
            && (forall u :: u != alarm.uuid ==> (u in r <==> u in regs) && (u in r ==> r[u] == regs[u]))
  {
  }

  /** toggledEnabled on an alarm in the list with a computable midnight keeps the registrations in step. */
  lemma ToggleKeepsSynchronized(s: seq<Alarm>, regs: Registrations, alarm: Alarm, thisMorningAtMidnight: Option<int>)
    requires Synchronized(s, regs)
    requires alarm.uuid in Ids(s)
    requires thisMorningAtMidnight.Some?
    ensures Synchronized(ToggledList(s, alarm), ToggledRegistrations(s, regs, alarm, thisMorningAtMidnight))
  {
    var i := FirstIndex(s, alarm.uuid).value;
    var b := Flipped(s[i]);
    var r := ToggledRegistrations(s, regs, alarm, thisMorningAtMidnight);
    assert ToggledList(s, alarm) == s[i := b];
    assert s[i].uuid in regs <==> s[i].enabled;
    WriteBackKeepsSynchronized(s, regs, r, i, b);
  }

  /**
   * Toggling the same alarm twice restores the list, and afterwards the alarm
   * is registered exactly when it was enabled to begin with.
   */
  lemma ToggleTwice(s: seq<Alarm>, regs: Registrations, alarm: Alarm, thisMorningAtMidnight: Option<int>)
    requires alarm.uuid in Ids(s)
    requires thisMorningAtMidnight.Some?
    ensures var s1 := ToggledList(s, alarm);
            var r1 := ToggledRegistrations(s, regs, alarm, thisMorningAtMidnight);
            var r2 := ToggledRegistrations(s1, r1, alarm, thisMorningAtMidnight);
            && ToggledList(s1, alarm) == s
            && (alarm.uuid in r2 <==> Live(s, alarm).enabled)
            && (forall u :: u != alarm.uuid ==> (u in r2 <==> u in regs) && (u in r2 ==> r2[u] == regs[u]))
  {
    var i := FirstIndex(s, alarm.uuid).value;
    var b := Flipped(s[i]);
    var s1 := ToggledList(s, alarm);
    assert s1 == s[i := b];
    ReplaceFirstKeepsIndex(s, alarm.uuid, b);
    assert Live(s1, alarm) == b;
    assert ToggledList(s1, alarm) == s1[i := Flipped(b)];
    assert s1[i := Flipped(b)] == s;
  }

  /** Loading right after a successful save gives back the saved list. */
  lemma LoadAfterSave(alarms: seq<Alarm>, stored: Option<seq<Alarm>>, other: seq<Alarm>)
    ensures Loaded(other, Saved(stored, alarms, true), true) == alarms
  {
  }
}
