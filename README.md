# Alarm controller model

A Dafny model of the alarm bookkeeping in `AlarmController` of a personal
alarm app. The controller owns an ordered list of alarms. Four operations
change it: `addAlarm`, `update`, `delete` and `toggledEnabled`. Each one also
updates a table of pending notification requests keyed by the alarm's
identifier, and then rewrites the whole list to a file. A second pair of
operations saves the list to that file and loads it back.

Modules, one per concern of `Alarm/Controllers/AlarmController.swift`:

- `AlarmEntity`: the alarm record `{uuid, name, fireTimeFromMidnight, enabled}`. Also the fire date (this morning's midnight plus the offset) and the hour/minute/second clock time of an instant, which is what the calendar trigger matches.
- `AlarmScheduler`: the registration table. `Scheduled` models `scheduleUserNotifications(for:)`: it adds the request under the alarm's identifier, replacing any earlier one, and does nothing when the fire date cannot be computed. `Cancelled` models `cancelUserNotifications(for:)`.
- `AlarmList`: finding an alarm in the list by identifier (the search behind `alarms.index(of:)`), removing the first match, and writing an edited alarm back in place.
- `ControllerSpec`: what each operation does to the list and to the table, as functions of the state before it. Also the invariant `Synchronized`: identifiers are unique, an alarm is registered exactly when it is enabled, and nothing else is registered. The lemmas here say which operations keep that invariant.
- `Controllers`: the class `AlarmController` with the fields `alarms`, `registrations` and `persisted`. It has one method per source operation. Each method states its whole new state in terms of the old one, and says when `Synchronized` is preserved.

Modelling choices:

- In the source, `Alarm` is a class, so callers hold a reference to the very object in the list. Here an alarm is a value. The object a caller passes in is found by its identifier: `Live` gives the list element with that identifier, or the caller's own copy when the alarm is not in the list. `update` and `toggledEnabled` work on that live value and write the result back at the same position. Identifiers are unique, because each new alarm gets a fresh one, so the element with the same identifier is the caller's object.
- `alarms.index(of:)` compares alarms by identifier.
- Instants are whole seconds on the local wall clock. `thisMorningAtMidnight` is a parameter; `None` means the calendar could not compute it.
- The file is `persisted: Option<seq<Alarm>>`. `None` means there is no readable file. Whether a write or a read succeeds is a boolean parameter.
- The fresh identifier of a new alarm is a parameter. `AddAlarm` requires that the identifier is not already in the list.

Two behaviours of the source are worth knowing. The model keeps both as written:

- `update` cancels and then schedules again unconditionally (`AlarmController.swift:67-73`), even when the alarm is disabled. So editing a disabled alarm registers a notification for it. `UpdateSynchronizedIffEnabled` proves this for a listed alarm, when this morning's midnight is known: starting from a synchronized state, the state after `update` is synchronized exactly when the alarm is enabled. `UpdateOfDisabledAlarmScenario` gives a concrete disabled alarm for which it fails. The other operations keep the invariant. `addAlarm` keeps it when midnight is known (`AddKeepsSynchronized`). `toggledEnabled` keeps it for a listed alarm when midnight is known (`ToggleKeepsSynchronized`). `delete` keeps it with no condition (`DeleteKeepsSynchronized`).
- A failed load leaves the list exactly as it was (`AlarmController.swift:117-119`). After construction that list is empty.

## Model

| member | source | states |
|---|---|---|
| AlarmEntity.ClockTime | Alarm/Controllers/AlarmController.swift:29-30 | the hour, minute and second components are in range, and together they name the instant's offset within its day |
| AlarmEntity.ClockTimeRoundTrip | Alarm/Controllers/AlarmController.swift:29-30 | taking the components of an in-range time of day gives back that time of day |
| AlarmEntity.FireDateTimeOfDay | Alarm/Controllers/AlarmController.swift:28-30 | when midnight is a real midnight and the offset lies within a day, the fire date is midnight plus the offset, and the trigger time of day is the offset |
| AlarmScheduler.Scheduled | Alarm/Controllers/AlarmController.swift:21-37 | scheduling with an unresolved fire date changes nothing; otherwise the alarm's identifier is registered with title "Alarm", body = name, repeating, with the trigger equal to the hour, minute and second of the fire date, replacing any earlier request; all other registrations are kept |
| AlarmScheduler.Cancelled | Alarm/Controllers/AlarmController.swift:39-41 | no registration remains under the identifier; all others are kept |
| AlarmScheduler.ScheduleReplaces | Alarm/Controllers/AlarmController.swift:31-32 | scheduling the same alarm twice has the same effect as once: one registration per identifier |
| AlarmScheduler.CancelUndoesSchedule | Alarm/Controllers/AlarmController.swift:21-41 | cancelling right after scheduling gives the same table as cancelling alone |
| AlarmList.FirstIndex | Alarm/Controllers/AlarmController.swift:79 | the result is the position of the first alarm with the identifier, or none exactly when no alarm has it |
| AlarmList.IndexOf | Alarm/Controllers/AlarmController.swift:79 | the left-to-right scan returns the first position whose identifier matches, or none |
| AlarmList.RemoveFirst | Alarm/Controllers/AlarmController.swift:79-81 | the list is unchanged when no alarm has the identifier; otherwise it is the list without the element at the first match, the others in their order |
| AlarmList.ReplaceFirst | Alarm/Controllers/AlarmController.swift:69-70 | the length is kept; the element at the first match is replaced and nothing else changes; no match leaves the list unchanged |
| AlarmList.RemoveFirstLength | Alarm/Controllers/AlarmController.swift:79-81 | removal shortens the list by exactly one when the identifier is present, and by none otherwise |
| AlarmList.RemoveFirstAt | Alarm/Controllers/AlarmController.swift:80 | after removing position i, the elements before i are unchanged and the later ones move down by one |
| AlarmList.ReplaceFirstKeepsIndex | Alarm/Controllers/AlarmController.swift:69-70 | writing back an alarm with the same identifier keeps its position and the list's identifiers |
| ControllerSpec.AddKeepsSynchronized | Alarm/Controllers/AlarmController.swift:58-62 | from a synchronized state, adding an alarm with a fresh identifier and a computable midnight gives a synchronized state |
| ControllerSpec.AddToEmptyScenario | Alarm/Controllers/AlarmController.swift:58-61 | adding "Wake up" at 25200 s to an empty controller gives one enabled alarm and exactly one registration under its identifier, firing at 07:00:00 |
| ControllerSpec.UpdateEditsInPlace | Alarm/Controllers/AlarmController.swift:69-70 | update sets the name and fire time of the alarm in the list and keeps its identifier, its flag, every other alarm and the order; an alarm not in the list leaves the list alone |
| ControllerSpec.UpdateReplacesRegistration | Alarm/Controllers/AlarmController.swift:67-73 | afterwards there is exactly one registration for the alarm, with the new name and time, when midnight is computable, and none otherwise, whatever the flag; others are kept |
| ControllerSpec.UpdateSynchronizedIffEnabled | Alarm/Controllers/AlarmController.swift:65-76 | for a listed alarm, when this morning's midnight is known: from a synchronized state, the state after update is synchronized if and only if that alarm is enabled |
| ControllerSpec.UpdateOfDisabledAlarmScenario | Alarm/Controllers/AlarmController.swift:73 | a synchronized state with one disabled alarm is no longer synchronized after that alarm is edited: it stays disabled but becomes registered |
| ControllerSpec.DeleteEffect | Alarm/Controllers/AlarmController.swift:78-83 | delete leaves the list unchanged when no alarm matches, shortens it by one otherwise, and leaves no registration for the identifier |
| ControllerSpec.DeleteKeepsSynchronized | Alarm/Controllers/AlarmController.swift:78-85 | from a synchronized state, delete gives a synchronized state, whether or not the alarm was in the list |
| ControllerSpec.RemoveAtKeepsSynchronized | Alarm/Controllers/AlarmController.swift:80-83 | removing the first match and cancelling its identifier keeps a synchronized state synchronized |
| ControllerSpec.ToggleEffect | Alarm/Controllers/AlarmController.swift:88-96 | toggling removes the registration of an alarm that was enabled, adds one for an alarm that was disabled when midnight is computable, then negates that alarm's flag; the rest of the list and every other registration are unchanged |
| ControllerSpec.ToggleKeepsSynchronized | Alarm/Controllers/AlarmController.swift:88-98 | from a synchronized state, toggling a listed alarm with a computable midnight gives a synchronized state |
| ControllerSpec.ToggleTwice | Alarm/Controllers/AlarmController.swift:88-96 | toggling twice restores the list, and the alarm is registered afterwards exactly when it was enabled before; every other registration is as it was |
| ControllerSpec.LoadAfterSave | Alarm/Controllers/AlarmController.swift:111-129 | loading right after a successful save gives back the saved list |
| Controllers.AlarmController.constructor | Alarm/Controllers/AlarmController.swift:56 | a new controller has an empty list; pending requests and the file are whatever existed before |
| Controllers.AlarmController.ScheduleUserNotifications | Alarm/Controllers/AlarmController.swift:21-37 | the registration table becomes `Scheduled` of the old one; nothing else changes |
| Controllers.AlarmController.CancelUserNotifications | Alarm/Controllers/AlarmController.swift:39-41 | the registration table becomes `Cancelled` of the old one; nothing else changes |
| Controllers.AlarmController.SaveToPersistentStorage | Alarm/Controllers/AlarmController.swift:122-130 | a successful write stores the whole list; a failed write leaves the file, the list and the registrations untouched |
| Controllers.AlarmController.LoadFromPersistentStorage | Alarm/Controllers/AlarmController.swift:111-120 | a successful read replaces the list by the stored one; otherwise the list is kept exactly |
| Controllers.AlarmController.AddAlarm | Alarm/Controllers/AlarmController.swift:58-63 | the list grows by one new, enabled alarm at the end with the given name and time, earlier alarms unchanged; its request is scheduled, or the table is unchanged when midnight is unknown; the list is saved; synchronization is kept when midnight is known |
| Controllers.AlarmController.Update | Alarm/Controllers/AlarmController.swift:65-76 | cancel, edit in place, and schedule again regardless of the flag; then save; for a listed alarm, when this morning's midnight is known, a synchronized state stays synchronized exactly when the alarm is enabled |
| Controllers.AlarmController.Delete | Alarm/Controllers/AlarmController.swift:78-86 | the first alarm with the identifier is removed, if any; no registration for it remains; the list is saved; synchronization is kept |
| Controllers.AlarmController.ToggledEnabled | Alarm/Controllers/AlarmController.swift:88-99 | the scheduler call follows the flag before the flip; the flag is then negated; the list is saved; synchronization is kept for a listed alarm when midnight is known |

## Left out

- The no-argument `scheduleUserNotifications()` and `cancelUserNotifications()` (`AlarmController.swift:46-52`): each calls itself without end, and nothing calls them; they only satisfy the protocol.
- The notification center calls, the notification sound, and the asynchronous error logging of a failed request: these are platform services, reduced here to inserting into and removing from the registration table.
- `fileURL()` and the JSON encoding and decoding: these are file-system and codec library calls, replaced by the stored snapshot and the success flags.
- Time zones and daylight-saving changes: the calendar's conversion of an instant to hour, minute and second is modelled as the offset within a day on the local wall clock. `TimeInterval` is a floating-point number in the source; here it is whole seconds.
- `Alarm.swift` and `DateHelper` are not part of this model. The alarm record and this morning's midnight are defined minimally here, as described above.
- `Alarm` as a shared reference: aliasing is modelled by looking alarms up by identifier. An alarm changed while it is not in the list changes only the registrations, because the controller keeps no copy of it.
- The `shared` singleton (`AlarmController.swift:54`): the model uses one explicitly constructed controller.
- The table and detail screens and the switch cell: these only read `alarms` and forward user actions to the controller.
