/**
 * Line-oriented console output, modelled as an append-only log of the lines
 * written so far.
 */
module Output {

  class Console {
    var lines: seq<string>

    constructor ()
      ensures lines == []
    {
      lines := [];
    }

    /** Writes one line. */
    method Log(line: string)
      modifies this
      ensures lines == old(lines) + [line]
    {
      lines := lines + [line];
    }
  }
}

/**
 * One alarm: the time-of-day string and weekday name it was set for, and its
 * two flags. The alarm's fields are updated in place, so it is a class; its
 * value at a moment is an `AlarmState`.
 */
module Alarms {
  import opened Output

  /** The fields of an alarm at one moment. */
  datatype AlarmState = AlarmState(time: string, dayOfWeek: string, isActive: bool, isSnoozed: bool)

  /** The state of an alarm that has just been set for `time` on `dayOfWeek`. */
  function NewAlarmState(time: string, dayOfWeek: string): (a: AlarmState)
    ensures a.time == time && a.dayOfWeek == dayOfWeek
    ensures a.isActive && !a.isSnoozed
  {
    AlarmState(time, dayOfWeek, true, false)
  }

  function RingingMessage(time: string, dayOfWeek: string): string
  {
    "Alarm ringing! It's " + time + " on " + dayOfWeek
  }

  const SnoozedMessage := "Alarm snoozed for 5 minutes."

  class Alarm {
    var time: string
    var dayOfWeek: string
    var isActive: bool
    var isSnoozed: bool

    /** A new alarm is active and not snoozed. */
    constructor (time: string, dayOfWeek: string)
      ensures State() == NewAlarmState(time, dayOfWeek)
    {
      this.time := time;
      this.dayOfWeek := dayOfWeek;
      this.isActive := true;
      this.isSnoozed := false;
    }

    function State(): AlarmState
      reads this
    {
      AlarmState(time, dayOfWeek, isActive, isSnoozed)
    }

    /** Announces the alarm; changes nothing about it. */
    method TriggerAlarm(out: Console)
      modifies out
      ensures out.lines == old(out.lines) + [RingingMessage(time, dayOfWeek)]
    {
      out.Log(RingingMessage(time, dayOfWeek));
    }

    /** Marks the alarm snoozed, keeping its time, day and active flag, and confirms. */
    method Snooze(out: Console)
      modifies this, out
      ensures State() == old(State()).(isSnoozed := true)
      ensures out.lines == old(out.lines) + [SnoozedMessage]
    {
      isSnoozed := true;
      out.Log(SnoozedMessage);
    }
  }
}
