/**
 * The alarm controller: the ordered alarm list, the notification
 * registrations it keeps in step with that list, and the stored snapshot it
 * rewrites after every change.
 *
 * Inputs the controller takes from its surroundings are parameters: the
 * fresh identifier of a new alarm, this morning's midnight (absent when the
 * calendar cannot compute it), and whether a file write or read succeeds.
 */
module Controllers {
  import opened Wrappers
  import opened AlarmEntity
  import opened AlarmScheduler
  import opened AlarmList
  import opened ControllerSpec

  class AlarmController {
    var alarms: seq<Alarm>
    /** The pending notification requests, by alarm identifier. */
    var registrations: Registrations
    /** The contents of the alarms file: absent when there is no readable file. */
    var persisted: Option<seq<Alarm>>

    ghost predicate Synced()
      reads this
    {
      Synchronized(alarms, registrations)
    }

    /** An empty list; the requests and the file are whatever is already there. */
    constructor (pending: Registrations, stored: Option<seq<Alarm>>)
      ensures alarms == [] && registrations == pending && persisted == stored
    {
      alarms := [];
      registrations := pending;
      persisted := stored;
    }

    method ScheduleUserNotifications(alarm: Alarm, thisMorningAtMidnight: Option<int>)
      modifies this`registrations
      ensures registrations == Scheduled(old(registrations), alarm, thisMorningAtMidnight)
    {
      match FireDate(alarm, thisMorningAtMidnight)
      case None =>
      case Some(fireDate) =>
        registrations := registrations[alarm.uuid := RequestFor(alarm, fireDate)];
    }

    method CancelUserNotifications(alarm: Alarm)
      modifies this`registrations
      ensures registrations == Cancelled(old(registrations), alarm.uuid)
    {
      registrations := registrations - {alarm.uuid};
    }

    /** Rewrites the whole file from the list; a failed write changes nothing. */
    method SaveToPersistentStorage(writeOk: bool)
      modifies this`persisted
      ensures persisted == Saved(old(persisted), alarms, writeOk)
      ensures writeOk ==> persisted == Some(alarms)
      ensures !writeOk ==> persisted == old(persisted)
    {
      if writeOk {
        persisted := Some(alarms);
      }
    }

    /** Replaces the list by the stored one; without a readable file the list is kept. */
    method LoadFromPersistentStorage(readOk: bool)
      modifies this`alarms
      ensures alarms == Loaded(old(alarms), persisted, readOk)
      ensures readOk && persisted.Some? ==> alarms == persisted.value
      ensures !(readOk && persisted.Some?) ==> alarms == old(alarms)
    {
      if readOk && persisted.Some? {
        alarms := persisted.value;
      }
    }

    /** Appends a new enabled alarm, schedules it, saves. */
    method AddAlarm(fireTimeFromMidnight: int, name: string, uuid: string,
                    thisMorningAtMidnight: Option<int>, writeOk: bool)
      requires uuid !in Ids(alarms)
      modifies this
      ensures alarms == old(alarms) + [NewAlarm(uuid, fireTimeFromMidnight, name)]
      ensures |alarms| == |old(alarms)| + 1
      ensures alarms[|alarms| - 1] == Alarm(uuid, name, fireTimeFromMidnight, true)
      ensures registrations == Scheduled(old(registrations), NewAlarm(uuid, fireTimeFromMidnight, name), thisMorningAtMidnight)
      ensures thisMorningAtMidnight.Some? ==>
                uuid in registrations
                && registrations[uuid] == RequestFor(NewAlarm(uuid, fireTimeFromMidnight, name),
                                                     thisMorningAtMidnight.value + fireTimeFromMidnight)
      ensures thisMorningAtMidnight.None? ==> registrations == old(registrations)
      ensures persisted == Saved(old(persisted), alarms, writeOk)
      ensures old(Synced()) && thisMorningAtMidnight.Some? ==> Synced()
    {
      ghost var s0, r0 := alarms, registrations;
      var newAlarm := NewAlarm(uuid, fireTimeFromMidnight, name);
      alarms := alarms + [newAlarm];
      ScheduleUserNotifications(newAlarm, thisMorningAtMidnight);
      SaveToPersistentStorage(writeOk);
      if Synchronized(s0, r0) && thisMorningAtMidnight.Some? {
        AddKeepsSynchronized(s0, r0, uuid, fireTimeFromMidnight, name, thisMorningAtMidnight);
      }
    }

    /**
     * Cancels the alarm's request, sets its name and fire time, schedules it
     * again (whether or not it is enabled), saves.
     */
    method Update(alarm: Alarm, fireTimeFromMidnight: int, name: string,
                  thisMorningAtMidnight: Option<int>, writeOk: bool)
      modifies this
      ensures alarms == UpdatedList(old(alarms), alarm, fireTimeFromMidnight, name)
      ensures registrations
              == UpdatedRegistrations(old(alarms), old(registrations), alarm, fireTimeFromMidnight, name, thisMorningAtMidnight)
      ensures persisted == Saved(old(persisted), alarms, writeOk)
      ensures old(Synced()) && alarm.uuid in old(Ids(alarms)) && thisMorningAtMidnight.Some? ==>
                (Synced() <==> Live(old(alarms), alarm).enabled)
    {
      ghost var s0, r0 := alarms, registrations;
      var i := IndexOf(alarms, alarm.uuid);
      var live := if i.Some? then alarms[i.value] else alarm;
      CancelUserNotifications(live);
      var edited := Edited(live, fireTimeFromMidnight, name);
      if i.Some? {
        alarms := alarms[i.value := edited];
      }
      ScheduleUserNotifications(edited, thisMorningAtMidnight);
      SaveToPersistentStorage(writeOk);
      if Synchronized(s0, r0) && alarm.uuid in Ids(s0) && thisMorningAtMidnight.Some? {
        UpdateSynchronizedIffEnabled(s0, r0, alarm, fireTimeFromMidnight, name, thisMorningAtMidnight);
      }
    }

    /**
     * Removes the first alarm with the same identifier, if any, cancels its
     * request either way, saves.
     */
    method Delete(alarm: Alarm, writeOk: bool)
      modifies this
      ensures alarms == RemoveFirst(old(alarms), alarm.uuid)
      ensures registrations == Cancelled(old(registrations), alarm.uuid)
      ensures alarm.uuid !in registrations
      ensures persisted == Saved(old(persisted), alarms, writeOk)
      ensures old(Synced()) ==> Synced()
    {
      ghost var s0, r0 := alarms, registrations;
      var i := IndexOf(alarms, alarm.uuid);
      if i.Some? {
        alarms := alarms[..i.value] + alarms[i.value + 1..];
      }
      CancelUserNotifications(alarm);
      SaveToPersistentStorage(writeOk);
      if Synchronized(s0, r0) {
        DeleteKeepsSynchronized(s0, r0, alarm.uuid);
      }
    }

    /**
     * Cancels the alarm's request if it was enabled, schedules it if it was
     * disabled, then negates its flag, saves.
     */
    method ToggledEnabled(alarm: Alarm, thisMorningAtMidnight: Option<int>, writeOk: bool)
      modifies this
      ensures alarms == ToggledList(old(alarms), alarm)
      ensures registrations == ToggledRegistrations(old(alarms), old(registrations), alarm, thisMorningAtMidnight)
      ensures persisted == Saved(old(persisted), alarms, writeOk)
      ensures old(Synced()) && alarm.uuid in old(Ids(alarms)) && thisMorningAtMidnight.Some? ==> Synced()
    {
      ghost var s0, r0 := alarms, registrations;
      var i := IndexOf(alarms, alarm.uuid);
      var live := if i.Some? then alarms[i.value] else alarm;
      if live.enabled {
        CancelUserNotifications(live);
      } else {
        ScheduleUserNotifications(live, thisMorningAtMidnight);
      }
      if i.Some? {
        alarms := alarms[i.value := Flipped(live)];
      }
      SaveToPersistentStorage(writeOk);
      if Synchronized(s0, r0) && alarm.uuid in Ids(s0) && thisMorningAtMidnight.Some? {
        ToggleKeepsSynchronized(s0, r0, alarm, thisMorningAtMidnight);
      }
    }
  }
}
