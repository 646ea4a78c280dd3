# Alarm clock registry in Dafny

A model of the alarm registry of a small command-line alarm clock written in
TypeScript (`index.ts`). An `Alarm` holds a time-of-day string (`HH:mm:ss`),
a weekday name and two flags, `isActive` and `isSnoozed`. An `AlarmClock`
keeps its alarms in insertion order and offers three operations:

- `createAlarm(time, day)` appends a new, active, unsnoozed alarm and prints
  `Alarm set for <time> on <day>`;
- `snoozeAlarm(time, day)` snoozes the first alarm with that time and day, or
  prints `No active alarm found at the specified time.`;
- `checkAlarms()` runs a per-alarm test at the current instant: an active,
  unsnoozed alarm set for this second and weekday rings; a snoozed alarm is
  tested for a five-minute wake-up.

Files:

- `time_of_day.dfy` (module `TimeOfDay`): seconds since midnight, the seven
  weekdays and their names, the `HH:mm:ss` rendering `Format`, its strict
  inverse `Parse`, and the five-minutes-later time `SnoozeTarget`.
- `alarm.dfy` (modules `Output` and `Alarms`): the console as an append-only
  log of lines, and the `Alarm` class with its constructor, `TriggerAlarm` and
  `Snooze`.
- `registry.dfy` (module `Registry`): the `AlarmClock` class, the functions
  that say on values what each operation does to the sequence of alarm
  states and which lines it prints, and the lemmas about them.
- `optional.dfy` (module `Optional`): the `Option` type.

The alarm objects are updated in place, as in the source, so `Alarm` and
`AlarmClock` are classes. `AlarmClock.Snapshot()` is the value of the
registry, a sequence of `AlarmState` records. Each method is proved to change
that value exactly as a function of the old value says. `Valid()` is kept by
every method. It says that no alarm object appears twice and that every alarm
is active.

The three strings a check compares against are `currentTime`, `currentDay`
and `snoozedTime`. They are gathered in a `Reading`, and `ReadingAt(now)`
computes them from the instant. The per-alarm test (`CheckAlarm`) follows the
source branch by branch.

**The snooze wake-up never fires.** The wake-up branch (index.ts:49-55)
compares `snoozedTime` with `currentTime`. It does not compare it with the
alarm's own time. `snoozedTime` renders five minutes from now, and a time of
day is never equal to the time five minutes later. So the branch is dead:
`NeverWakes` proves this. It follows that a check changes no state
(`CheckKeepsState`). A check prints exactly one ringing line per due alarm,
in order (`CheckRingsDue`). A snoozed alarm stays snoozed and silent for
good (`SnoozedStaysSilent`, `SnoozeSilences`). One might expect a snoozed
alarm to wake when "now + 5 minutes", with weekday rollover, equals the
alarm's time and day. The code does not do that, and this model follows the
code. `SnoozedSilentFiveMinutesBefore` shows the
difference on a concrete case: an alarm for 08:00:00 Monday is snoozed and
then checked at 07:55:00 Monday, and it stays silent.

The clock is an explicit parameter. `CheckAlarms(now, out)` takes the instant
as a time of day and a weekday. The two readings of the clock in the source
(index.ts:42 and 50) are one instant here. Console output is the `lines` field
of a `Console` object that the methods append to.

## Model

| member | source | states |
|---|---|---|
| `Alarms.Alarm.constructor` | index.ts:10-15 | a new alarm keeps the given time and day, is active and is not snoozed |
| `Alarms.Alarm.TriggerAlarm` | index.ts:17-19 | prints exactly `Alarm ringing! It's <time> on <day>` and changes no field of any alarm |
| `Alarms.Alarm.Snooze` | index.ts:21-24 | sets `isSnoozed`, keeps time, day and `isActive`, and prints `Alarm snoozed for 5 minutes.` |
| `Registry.AlarmClock.constructor` | index.ts:28 | the registry starts empty and valid |
| `Registry.AlarmClock.CreateAlarm` | index.ts:35-39 | the registry grows by exactly one freshly allocated, active, unsnoozed alarm placed last; the earlier alarm objects stay in place with unchanged states; prints `Alarm set for <time> on <day>`; keeps `Valid()` |
| `Registry.FindFirst` | index.ts:61 | returns the smallest index whose alarm has the given time and day, and returns none exactly when no alarm has them |
| `Registry.AlarmClock.SnoozeAlarm` | index.ts:60-67 | the lookup loop finds the first alarm with the key; the new registry is `Snoozed(old, time, day)`; prints the snooze confirmation on a hit and the not-found message on a miss; keeps `Valid()` |
| `Registry.SnoozeHit` | index.ts:60-63 | on a hit, only the first matching alarm changes, only its `isSnoozed` becomes true, and the confirmation is printed |
| `Registry.SnoozeMiss` | index.ts:64-66 | on a miss, every alarm and flag is unchanged and `No active alarm found at the specified time.` is printed |
| `Registry.FindFirstByKeys` | index.ts:61 | the lookup depends only on each alarm's time and day, never on its flags |
| `Registry.SnoozeIdempotent` | index.ts:21-24 | snoozing the same key twice leaves the same registry as snoozing it once, and prints the same reply |
| `Registry.CheckAlarm` | index.ts:47-56 | the per-alarm test: the new alarm state is `AfterCheck` of the old one, and the lines printed are `CheckLines` of the old one |
| `Registry.CheckEach` | index.ts:46-57 | the `forEach` pass over distinct alarms, in order: each alarm's new state is the per-alarm result, and the output is the per-alarm lines concatenated in sequence order |
| `Registry.AlarmClock.CheckAlarms` | index.ts:41-58 | the new registry is `Checked(old, ReadingAt(now))`, which is the old registry unchanged; the lines printed are one ringing line per due alarm, in sequence order; keeps `Valid()` |
| `Registry.NeverWakes` | index.ts:49-55 | the wake-up condition, as written, is false at every instant for every alarm |
| `Registry.CheckKeepsState` | index.ts:41-58 | a check leaves every alarm state and flag identical, whatever the registry |
| `Registry.CheckRingsDue` | index.ts:46-48 | a check prints `Alarm ringing! …` for exactly the alarms that are active, unsnoozed and set for this second and weekday, in sequence order, and prints nothing else |
| `Registry.CheckRepeats` | index.ts:17-19 | a second check at the same instant rings the same alarms again and still changes nothing |
| `Registry.SnoozedStaysSilent` | index.ts:49-55 | a snoozed alarm prints nothing during a check and is still snoozed afterwards |
| `Registry.SnoozeSilences` | index.ts:47-63 | after a snooze hit, the snoozed alarm prints nothing at any check and stays snoozed |
| `Registry.RingsAtItsTime` | index.ts:47 | an active, unsnoozed alarm rings if and only if its time string reads as the current time of day and its day is today's name |
| `Registry.NonCanonicalNeverRings` | index.ts:47 | an alarm whose time string is not a strict `HH:mm:ss` time never rings |
| `Registry.CreateThenCheck` | index.ts:35-48 | setting an alarm adds a ringing line to a later check if and only if that check happens at the alarm's time and day |
| `Registry.RingsOnMondayMorning` | index.ts:35-48 | an alarm for 08:00:00 Monday, checked at Monday 08:00:00, prints `Alarm ringing! It's 08:00:00 on Monday` |
| `Registry.SnoozedSilentFiveMinutesBefore` | index.ts:49-55 | an alarm for 08:00:00 Monday, once snoozed, prints nothing when checked at Monday 07:55:00 |
| `Registry.MondayMorning` | index.ts:35-67 | a session driven through the objects (set 08:00:00 Monday, check at that second, snooze, check at 08:05:00) prints exactly the set line, one ringing line and the snooze confirmation, and nothing at the second check |
| `Registry.ActivePreserved` | index.ts:13 | creating, snoozing and checking never clear an alarm's active flag |
| `TimeOfDay.ParseFormat` | index.ts:43 | reading back the `HH:mm:ss` rendering of a time gives that time |
| `TimeOfDay.FormatParse` | index.ts:43 | every string accepted as strict `HH:mm:ss` is the rendering of the time it reads as |
| `TimeOfDay.FormatInjective` | index.ts:47 | two times render to the same `HH:mm:ss` string if and only if they are equal, so string equality of rendered times is equality of times |
| `TimeOfDay.CanonicalMatch` | index.ts:47 | a string equals the rendering of a time if and only if it reads as that time |
| `TimeOfDay.SnoozeTargetDiffers` | index.ts:50-52 | five minutes after a time of day, on a 24-hour clock, is a different time and renders differently |

## Left out

- `displayCurrentTime` (index.ts:30-33): it only reads the wall clock and prints.
- The interactive menu and its one-second re-scheduling (index.ts:72-104): this is prompt I/O through an external library. So is the `Exit` choice calling `process.exit` (index.ts:100).
- The prompt wrappers `setAlarm` and `snoozeAlarm` (index.ts:106-142) are left out as I/O glue.
  - Their time check is a date library's strict `HH:mm:ss` validation (index.ts:112, 131). Its exact set of accepted strings is not visible, so it is not modelled.
  - `CreateAlarm` and `SnoozeAlarm` accept any string, as the class methods do.
  - `Parse` is this model's own strict reading, used to state what the string comparisons mean. `NonCanonicalNeverRings` says an alarm whose string `Parse` rejects can never ring.
  - `Parse` is not the prompt's validator. In particular it rejects `24:00:00`, a string the prompt's strict check may accept. Such an alarm is stored, but since `Format` never renders it, it never rings (`NonCanonicalNeverRings`).
- The weekday list of the prompts (index.ts:118, 137) comes from locale data. It is replaced by the fixed English names `Sunday` … `Saturday`.
- The one-second `setInterval` ticker and the startup calls (index.ts:146-154) are timers. The model does not run a check on its own; a caller invokes `CheckAlarms` with some instant.
- Reading the clock:
  - `now` is a parameter.
  - The two clock readings in `checkAlarms` are taken to be the same instant.
  - Time zones and daylight-saving jumps are not modelled. Five minutes later is `(t + 300) mod 86400` seconds of the day.
- Console output is an abstract append-only list of lines. Nothing is written to a terminal.
- Aliasing of alarm objects from outside the registry is not modelled. The source never hands an alarm out. `Valid()` requires the registry's alarm objects to be pairwise distinct, which `CreateAlarm` keeps by allocating each one fresh.
