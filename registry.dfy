/**
 * The alarm registry: an ordered collection of alarms, in insertion order,
 * with the three operations of the alarm clock (set, snooze, check).
 *
 * The functions before the class say, on values, what each operation does
 * to the sequence of alarm states and which lines it writes; the class's
 * methods are proved to do exactly that to the objects, and the lemmas state
 * what follows: checking alarms rings exactly the due alarms and changes no
 * state, a snoozed alarm is never woken, snoozing touches only the first
 * alarm with the given key, and every alarm stays active.
 */
module Registry {
  import opened Optional
  import opened TimeOfDay
  import opened Output
  import opened Alarms

  function SetMessage(time: string, dayOfWeek: string): string
  {
    "Alarm set for " + time + " on " + dayOfWeek
  }

  const NotFoundMessage := "No active alarm found at the specified time."

  /** Every alarm in `s` is active. */
  predicate AllActive(s: seq<AlarmState>)
  {
    forall i :: 0 <= i < |s| ==> s[i].isActive
  }

  // ---- snooze: lookup by (time, dayOfWeek) --------------------------------

  /** The lookup key of the snooze operation. */
  predicate HasKey(a: AlarmState, time: string, dayOfWeek: string)
  {
    a.time == time && a.dayOfWeek == dayOfWeek
  }

  /** The index of the first alarm, in insertion order, with the given key. */
  function FindFirst(s: seq<AlarmState>, time: string, dayOfWeek: string): (r: Option<nat>)
    ensures r.Some? ==> r.value < |s| && HasKey(s[r.value], time, dayOfWeek)
    ensures r.Some? ==> forall j :: 0 <= j < r.value ==> !HasKey(s[j], time, dayOfWeek)
    ensures r.None? <==> forall j :: 0 <= j < |s| ==> !HasKey(s[j], time, dayOfWeek)
  {
    if s == [] then None
    else if HasKey(s[0], time, dayOfWeek) then Some(0)
    else match FindFirst(s[1..], time, dayOfWeek)
      case None => None
      case Some(k) => Some(k + 1)
  }

  /** The alarm states after snoozing by key. */
  function Snoozed(s: seq<AlarmState>, time: string, dayOfWeek: string): seq<AlarmState>
  {
    match FindFirst(s, time, dayOfWeek)
    case None => s
    case Some(i) => s[i := s[i].(isSnoozed := true)]
  }

  /** The line the snooze operation writes. */
  function SnoozeReply(s: seq<AlarmState>, time: string, dayOfWeek: string): string
  {
    if FindFirst(s, time, dayOfWeek).Some? then SnoozedMessage else NotFoundMessage
  }

  // ---- check: one pass over the alarms at one instant ---------------------

  /**
   * The three strings a check compares alarms against: the current time as
   * `HH:mm:ss`, the current weekday name, and five minutes from now as
   * `HH:mm:ss`.
   */
  datatype Reading = Reading(currentTime: string, currentDay: string, snoozedTime: string)

  /** What the clock reads at `now`. */
  function ReadingAt(now: Instant): Reading
  {
    Reading(Format(now.time), DayName(now.day), Format(SnoozeTarget(now.time)))
  }

  /** The first branch of the per-alarm test: an active, unsnoozed alarm set for now. */
  predicate RingsNow(a: AlarmState, r: Reading)
  {
    a.isActive && !a.isSnoozed && a.time == r.currentTime && a.dayOfWeek == r.currentDay
  }

  /**
   * The second branch, the snooze wake-up, as it is written: the rendering of
   * five minutes from now is compared with the rendering of now (not with the
   * alarm's time), and the alarm's day with today's.
   */
  predicate WakesNow(a: AlarmState, r: Reading)
  {
    !RingsNow(a, r) && a.isSnoozed && r.snoozedTime == r.currentTime && a.dayOfWeek == r.currentDay
  }

  /** An alarm's state after the per-alarm test. */
  function AfterCheck(a: AlarmState, r: Reading): AlarmState
  {
    if WakesNow(a, r) then a.(isSnoozed := false) else a
  }

  /** The lines the per-alarm test writes. */
  function CheckLines(a: AlarmState, r: Reading): seq<string>
  {
    if RingsNow(a, r) || WakesNow(a, r) then [RingingMessage(a.time, a.dayOfWeek)] else []
  }

  /** The alarm states after one check against `r`. */
  function Checked(s: seq<AlarmState>, r: Reading): (c: seq<AlarmState>)
    ensures |c| == |s|
    ensures forall i :: 0 <= i < |s| ==> c[i] == AfterCheck(s[i], r)
  {
    seq(|s|, i requires 0 <= i < |s| => AfterCheck(s[i], r))
  }

  /** The lines one check against `r` writes, alarm by alarm in sequence order. */
  function CheckOutput(s: seq<AlarmState>, r: Reading): seq<string>
  {
    if s == [] then [] else CheckOutput(s[..|s| - 1], r) + CheckLines(s[|s| - 1], r)
  }

  // ---- reference definitions --------------------------------------------

  /** An alarm is due at `now` when it is active, not snoozed, and set for this second and weekday. */
  predicate IsDue(a: AlarmState, now: Instant)
  {
    a.isActive && !a.isSnoozed && a.time == Format(now.time) && a.dayOfWeek == DayName(now.day)
  }

  /** The alarms of `s` that are due at `now`, in sequence order. */
  function Due(s: seq<AlarmState>, now: Instant): (d: seq<AlarmState>)
    ensures |d| <= |s|
    ensures forall a :: a in d ==> a in s && IsDue(a, now)
    ensures forall a :: a in s && IsDue(a, now) ==> a in d
  {
    if s == [] then []
    else
      var rest := Due(s[..|s| - 1], now);
      var last := s[|s| - 1];
      assert s == s[..|s| - 1] + [last];
      if IsDue(last, now) then rest + [last] else rest
  }

  /** The ringing notification for each alarm of `s`, in order. */
  function RingingLines(s: seq<AlarmState>): (lines: seq<string>)
    ensures |lines| == |s|
    ensures forall i :: 0 <= i < |s| ==> lines[i] == RingingMessage(s[i].time, s[i].dayOfWeek)
  {
    if s == [] then [] else RingingLines(s[..|s| - 1]) + [RingingMessage(s[|s| - 1].time, s[|s| - 1].dayOfWeek)]
  }

  // ---- what checking does -------------------------------------------------

  /** The snooze wake-up condition never holds: no instant is five minutes after itself. */
  lemma NeverWakes(a: AlarmState, now: Instant)
    ensures !WakesNow(a, ReadingAt(now))
  {
    SnoozeTargetDiffers(now.time);
  }

  /** A check leaves every alarm's state as it was. */
  lemma CheckKeepsState(s: seq<AlarmState>, now: Instant)
    ensures Checked(s, ReadingAt(now)) == s
  {
    forall i | 0 <= i < |s|
      ensures Checked(s, ReadingAt(now))[i] == s[i]
    {
      NeverWakes(s[i], now);
    }
  }

  /** A check writes one ringing line for each due alarm, in order, and nothing else. */
  lemma {:induction false} CheckRingsDue(s: seq<AlarmState>, now: Instant)
    ensures CheckOutput(s, ReadingAt(now)) == RingingLines(Due(s, now))
  {
    if s != [] {
      var init, last := s[..|s| - 1], s[|s| - 1];
      CheckRingsDue(init, now);
      NeverWakes(last, now);
      if IsDue(last, now) {
        assert Due(s, now) == Due(init, now) + [last];
        assert Due(s, now)[..|Due(s, now)| - 1] == Due(init, now);
      }
    }
  }

  /** Checking twice at the same instant rings the same alarms again and still changes nothing. */
  lemma CheckRepeats(s: seq<AlarmState>, now: Instant)
    ensures Checked(Checked(s, ReadingAt(now)), ReadingAt(now)) == s
    ensures CheckOutput(Checked(s, ReadingAt(now)), ReadingAt(now)) == CheckOutput(s, ReadingAt(now))
  {
    CheckKeepsState(s, now);
    CheckKeepsState(Checked(s, ReadingAt(now)), now);
  }

  /** A snoozed alarm writes nothing during a check and stays snoozed. */
  lemma SnoozedStaysSilent(a: AlarmState, now: Instant)
    requires a.isSnoozed
    ensures CheckLines(a, ReadingAt(now)) == []
    ensures AfterCheck(a, ReadingAt(now)).isSnoozed
  {
    NeverWakes(a, now);
  }

  /**
   * An unsnoozed active alarm rings exactly when its time string reads as
   * the current time of day and its day is today's name.
   */
  lemma RingsAtItsTime(a: AlarmState, now: Instant)
    requires a.isActive && !a.isSnoozed
    ensures CheckLines(a, ReadingAt(now)) != []
        <==> Parse(a.time) == Some(now.time) && a.dayOfWeek == DayName(now.day)
  {
    CanonicalMatch(a.time, now.time);
    NeverWakes(a, now);
  }

  /** An alarm whose time string is not a strict `HH:mm:ss` time never rings. */
  lemma NonCanonicalNeverRings(a: AlarmState, now: Instant)
    requires Parse(a.time).None?
    ensures CheckLines(a, ReadingAt(now)) == []
  {
    CanonicalMatch(a.time, now.time);
    NeverWakes(a, now);
  }

  /**
   * Setting an alarm and then checking adds one ringing line exactly when
   * the check happens at the alarm's time and day.
   */
  lemma CreateThenCheck(s: seq<AlarmState>, time: string, dayOfWeek: string, now: Instant)
    ensures CheckOutput(s + [NewAlarmState(time, dayOfWeek)], ReadingAt(now))
         == CheckOutput(s, ReadingAt(now))
            + (if time == Format(now.time) && dayOfWeek == DayName(now.day)
               then [RingingMessage(time, dayOfWeek)] else [])
  {
    var s' := s + [NewAlarmState(time, dayOfWeek)];
    assert s'[..|s'| - 1] == s;
  }

  /** An alarm set for 08:00:00 on Monday rings when checked at that second. */
  lemma RingsOnMondayMorning()
    ensures CheckOutput([NewAlarmState("08:00:00", "Monday")], ReadingAt(Instant(8 * SecondsPerHour, Monday)))
         == ["Alarm ringing! It's 08:00:00 on Monday"]
  {
    var s := [NewAlarmState("08:00:00", "Monday")];
    assert Format(8 * SecondsPerHour) == "08:00:00" by {
      FieldsOf(8, 0, 0);
      assert TwoDigits(8) == "08" && TwoDigits(0) == "00";
    }
    assert RingsNow(s[0], ReadingAt(Instant(8 * SecondsPerHour, Monday)));
    assert s[..0] == [];
    assert RingingMessage("08:00:00", "Monday") == "Alarm ringing! It's 08:00:00 on Monday";
  }

  /**
   * Once snoozed, the 08:00:00 Monday alarm stays silent five minutes before
   * its time, at 07:55:00 on Monday, where a wake-up against the alarm's own
   * time would have fired.
   */
  lemma SnoozedSilentFiveMinutesBefore()
    ensures CheckOutput(Snoozed([NewAlarmState("08:00:00", "Monday")], "08:00:00", "Monday"),
                        ReadingAt(Instant(7 * SecondsPerHour + 55 * SecondsPerMinute, Monday)))
         == []
  {
    var s := Snoozed([NewAlarmState("08:00:00", "Monday")], "08:00:00", "Monday");
    assert |s| == 1 && s[0].isSnoozed;
    SnoozedStaysSilent(s[0], Instant(7 * SecondsPerHour + 55 * SecondsPerMinute, Monday));
    assert s[..0] == [];
  }

  // ---- what snoozing does -------------------------------------------------

  /** When some alarm has the key, only the first such alarm changes, and only its snoozed flag. */
  lemma SnoozeHit(s: seq<AlarmState>, time: string, dayOfWeek: string, i: nat)
    requires i < |s| && HasKey(s[i], time, dayOfWeek)
    requires forall j :: 0 <= j < i ==> !HasKey(s[j], time, dayOfWeek)
    ensures |Snoozed(s, time, dayOfWeek)| == |s|
    ensures Snoozed(s, time, dayOfWeek)[i] == s[i].(isSnoozed := true)
    ensures forall j :: 0 <= j < |s| && j != i ==> Snoozed(s, time, dayOfWeek)[j] == s[j]
    ensures SnoozeReply(s, time, dayOfWeek) == SnoozedMessage
  {
  }

  /** When no alarm has the key, nothing changes and the miss is reported. */
  lemma SnoozeMiss(s: seq<AlarmState>, time: string, dayOfWeek: string)
    requires forall j :: 0 <= j < |s| ==> !HasKey(s[j], time, dayOfWeek)
    ensures Snoozed(s, time, dayOfWeek) == s
    ensures SnoozeReply(s, time, dayOfWeek) == NotFoundMessage
  {
  }

  /** The lookup depends only on the alarms' keys, not on their flags. */
  lemma {:induction false} FindFirstByKeys(s: seq<AlarmState>, t: seq<AlarmState>, time: string, dayOfWeek: string)
    requires |s| == |t|
    requires forall j :: 0 <= j < |s| ==> s[j].time == t[j].time && s[j].dayOfWeek == t[j].dayOfWeek
    ensures FindFirst(s, time, dayOfWeek) == FindFirst(t, time, dayOfWeek)
  {
    if s != [] {
      FindFirstByKeys(s[1..], t[1..], time, dayOfWeek);
    }
  }

  /** Snoozing the same key twice is the same as snoozing it once. */
  lemma SnoozeIdempotent(s: seq<AlarmState>, time: string, dayOfWeek: string)
    ensures Snoozed(Snoozed(s, time, dayOfWeek), time, dayOfWeek) == Snoozed(s, time, dayOfWeek)
    ensures SnoozeReply(Snoozed(s, time, dayOfWeek), time, dayOfWeek) == SnoozeReply(s, time, dayOfWeek)
  {
    FindFirstByKeys(s, Snoozed(s, time, dayOfWeek), time, dayOfWeek);
  }

  /** A snoozed alarm is silenced: after snoozing, the check writes nothing for it. */
  lemma SnoozeSilences(s: seq<AlarmState>, time: string, dayOfWeek: string, now: Instant)
    requires FindFirst(s, time, dayOfWeek).Some?
    ensures var i := FindFirst(s, time, dayOfWeek).value;
      CheckLines(Snoozed(s, time, dayOfWeek)[i], ReadingAt(now)) == []
      && Checked(Snoozed(s, time, dayOfWeek), ReadingAt(now))[i].isSnoozed
  {
    var i := FindFirst(s, time, dayOfWeek).value;
    SnoozedStaysSilent(Snoozed(s, time, dayOfWeek)[i], now);
  }

  // ---- the invariant ------------------------------------------------------

  /** No operation ever clears an alarm's active flag. */
  lemma ActivePreserved(s: seq<AlarmState>, time: string, dayOfWeek: string, now: Instant)
    requires AllActive(s)
    ensures AllActive(s + [NewAlarmState(time, dayOfWeek)])
    ensures AllActive(Snoozed(s, time, dayOfWeek))
    ensures AllActive(Checked(s, ReadingAt(now)))
  {
  }

  // ---- the registry object ------------------------------------------------

  /** The current state of each alarm of `list`, in order. */
  function States(list: seq<Alarm>): (r: seq<AlarmState>)
    reads list
    ensures |r| == |list|
    ensures forall i :: 0 <= i < |list| ==> r[i] == list[i].State()
  {
    seq(|list|, i reads list requires 0 <= i < |list| => list[i].State())
  }

  /** No alarm object appears twice. */
  ghost predicate Distinct(alarms: seq<Alarm>)
  {
    forall i, j :: 0 <= i < j < |alarms| ==> alarms[i] != alarms[j]
  }

  /**
   * The per-alarm test of a check against the reading `r`: ring an active,
   * unsnoozed alarm set for the current time and day; otherwise, if the
   * alarm is snoozed, wake and ring it when the five-minutes-later time
   * equals the current time and its day is the current day.
   */
  method CheckAlarm(alarm: Alarm, r: Reading, out: Console)
    modifies alarm`isSnoozed, out
    ensures alarm.State() == AfterCheck(old(alarm.State()), r)
    ensures out.lines == old(out.lines) + CheckLines(old(alarm.State()), r)
  {
    if alarm.isActive && !alarm.isSnoozed && alarm.time == r.currentTime && alarm.dayOfWeek == r.currentDay {
      alarm.TriggerAlarm(out);
    } else if alarm.isSnoozed {
      if r.snoozedTime == r.currentTime && alarm.dayOfWeek == r.currentDay {
        alarm.isSnoozed := false;
        alarm.TriggerAlarm(out);
      }
    }
  }

  /**
   * One pass of a check over `list`, in order: the per-alarm test on each
   * alarm against the reading `r`.
   */
  method CheckEach(list: seq<Alarm>, r: Reading, out: Console)
    requires Distinct(list)
    modifies list, out
    ensures States(list) == Checked(old(States(list)), r)
    ensures out.lines == old(out.lines) + CheckOutput(old(States(list)), r)
  {
    ghost var before := States(list);
    ghost var after := Checked(before, r);
    var i := 0;
    while i < |list|
      invariant 0 <= i <= |list|
      invariant forall j :: 0 <= j < |list| ==> list[j].State() == if j < i then after[j] else before[j]
      invariant out.lines == old(out.lines) + CheckOutput(before[..i], r)
    {
      CheckAlarm(list[i], r, out);
      assert before[..i + 1][..i] == before[..i];
      i := i + 1;
    }
    assert before[..i] == before;
  }

  class AlarmClock {
    var alarms: seq<Alarm>

    /** The alarms are distinct objects, and all of them are active. */
    ghost predicate Valid()
      reads this, alarms
    {
      Distinct(alarms) && AllActive(Snapshot())
    }

    /** The current state of every alarm, in insertion order. */
    function Snapshot(): seq<AlarmState>
      reads this, alarms
    {
      States(alarms)
    }

    constructor ()
      ensures Valid() && Snapshot() == []
    {
      alarms := [];
    }

    /** Appends a new active, unsnoozed alarm and confirms it. */
    method CreateAlarm(time: string, dayOfWeek: string, out: Console)
      requires Valid()
      modifies this, out
      ensures Valid()
      ensures Snapshot() == old(Snapshot()) + [NewAlarmState(time, dayOfWeek)]
      ensures out.lines == old(out.lines) + [SetMessage(time, dayOfWeek)]
      ensures |alarms| == |old(alarms)| + 1 && alarms[..|old(alarms)|] == old(alarms)
      ensures fresh(alarms[|alarms| - 1])
    {
      var newAlarm := new Alarm(time, dayOfWeek);
      alarms := alarms + [newAlarm];
      out.Log(SetMessage(time, dayOfWeek));
    }

    /**
     * Snoozes the first alarm, in insertion order, set for `time` on
     * `dayOfWeek`, or reports that there is none.
     */
    method SnoozeAlarm(time: string, dayOfWeek: string, out: Console)
      requires Valid()
      modifies alarms, out
      ensures Valid()
      ensures Snapshot() == Snoozed(old(Snapshot()), time, dayOfWeek)
      ensures out.lines == old(out.lines) + [SnoozeReply(old(Snapshot()), time, dayOfWeek)]
    {
      ghost var before := Snapshot();
      var i := 0;
      while i < |alarms| && !(alarms[i].time == time && alarms[i].dayOfWeek == dayOfWeek)
        invariant 0 <= i <= |alarms|
        invariant forall j :: 0 <= j < i ==> !HasKey(before[j], time, dayOfWeek)
      {
        i := i + 1;
      }
      if i < |alarms| {
        SnoozeHit(before, time, dayOfWeek, i);
        alarms[i].Snooze(out);
      } else {
        out.Log(NotFoundMessage);
      }
    }

    /**
     * Runs the per-alarm test on every alarm in insertion order at the
     * instant `now`: ring the due alarms, and test each snoozed alarm for
     * the five-minute wake-up.
     */
    method CheckAlarms(now: Instant, out: Console)
      requires Valid()
      modifies alarms, out
      ensures Valid()
      ensures Snapshot() == Checked(old(Snapshot()), ReadingAt(now))
      ensures out.lines == old(out.lines) + CheckOutput(old(Snapshot()), ReadingAt(now))
      ensures Snapshot() == old(Snapshot())
      ensures out.lines == old(out.lines) + RingingLines(Due(old(Snapshot()), now))
    {
      var reading := ReadingAt(now);
      CheckEach(alarms, reading, out);
      CheckKeepsState(old(Snapshot()), now);
      CheckRingsDue(old(Snapshot()), now);
    }
  }

  // ---- a session driven through the objects -------------------------------

  /**
   * Sets an alarm for 08:00:00 on Monday, checks at that second, snoozes it,
   * and checks again five minutes later: the alarm rings once, the snooze is
   * confirmed, and the second check prints nothing.
   */
  method MondayMorning() returns (lines: seq<string>)
    ensures lines == [SetMessage("08:00:00", "Monday"),
                      RingingMessage("08:00:00", "Monday"),
                      SnoozedMessage]
  {
    var first := Instant(8 * SecondsPerHour, Monday);
    var out := new Console();
    var clock := new AlarmClock();
    SetAndCheck(clock, "08:00:00", "Monday", first, out);
    assert CheckOutput([NewAlarmState("08:00:00", "Monday")], ReadingAt(first))
        == [RingingMessage("08:00:00", "Monday")] by {
      RingsOnMondayMorning();
    }
    SnoozeThenCheck(clock, Instant(8 * SecondsPerHour + 5 * SecondsPerMinute, Monday), out);
    lines := out.lines;
  }

  /** Sets one alarm on an empty clock, then checks at `now`. */
  method SetAndCheck(clock: AlarmClock, time: string, dayOfWeek: string, now: Instant, out: Console)
    requires clock.Valid() && clock.alarms == []
    modifies clock, out
    ensures clock.Valid() && clock.Snapshot() == [NewAlarmState(time, dayOfWeek)]
    ensures |clock.alarms| == 1 && fresh(clock.alarms[0])
    ensures out.lines == old(out.lines) + [SetMessage(time, dayOfWeek)]
                         + CheckOutput([NewAlarmState(time, dayOfWeek)], ReadingAt(now))
  {
    clock.CreateAlarm(time, dayOfWeek, out);
    assert clock.Snapshot() == [NewAlarmState(time, dayOfWeek)];
    clock.CheckAlarms(now, out);
  }

  /** Snoozes the 08:00:00 Monday alarm of a one-alarm clock, then checks at `now`. */
  method SnoozeThenCheck(clock: AlarmClock, now: Instant, out: Console)
    requires clock.Valid() && clock.Snapshot() == [NewAlarmState("08:00:00", "Monday")]
    modifies clock.alarms, out
    ensures out.lines == old(out.lines) + [SnoozedMessage]
  {
    SnoozeHit(clock.Snapshot(), "08:00:00", "Monday", 0);
    clock.SnoozeAlarm("08:00:00", "Monday", out);
    MondayMorningSnoozed(now);
    clock.CheckAlarms(now, out);
  }

  /** The 08:00:00 Monday alarm, once snoozed, writes nothing at any check. */
  lemma MondayMorningSnoozed(now: Instant)
    ensures CheckOutput(Snoozed([NewAlarmState("08:00:00", "Monday")], "08:00:00", "Monday"), ReadingAt(now)) == []
  {
    var s := Snoozed([NewAlarmState("08:00:00", "Monday")], "08:00:00", "Monday");
    assert |s| == 1 && s[0].isSnoozed;
    SnoozedStaysSilent(s[0], now);
    assert s[..0] == [];
  }
}
