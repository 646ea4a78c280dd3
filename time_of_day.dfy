/**
 * Wall-clock time of day at second precision, the seven weekday names, and
 * the canonical `HH:mm:ss` text form in which the alarm clock writes and
 * compares times.
 *
 * A time of day is the number of seconds since midnight. `Format` is the
 * `HH:mm:ss` rendering of a moment; `Parse` reads that strict form back and
 * is its inverse, so equality of canonical strings is equality of times.
 */
module TimeOfDay {
  import opened Optional

  const SecondsPerMinute := 60
  const SecondsPerHour := 3600
  const SecondsPerDay := 86400

  /** The snooze length, five minutes, in seconds. */
  const SnoozeSeconds := 5 * SecondsPerMinute

  /** Seconds since midnight. */
  type Time = t: int | 0 <= t < SecondsPerDay

  /** The weekdays in the order and with the names of the default English locale. */
  datatype Weekday = Sunday | Monday | Tuesday | Wednesday | Thursday | Friday | Saturday

  /** The `dddd` rendering of a weekday. */
  function DayName(d: Weekday): string
  {
    match d
    case Sunday => "Sunday"
    case Monday => "Monday"
    case Tuesday => "Tuesday"
    case Wednesday => "Wednesday"
    case Thursday => "Thursday"
    case Friday => "Friday"
    case Saturday => "Saturday"
  }

  /** One instant as the alarm clock sees it: a time of day and a weekday. */
  datatype Instant = Instant(time: Time, day: Weekday)

  /** The time of day five minutes after `t`, on a 24-hour clock. */
  function SnoozeTarget(t: Time): Time
  {
    (t + SnoozeSeconds) % SecondsPerDay
  }

  // ---- digits -------------------------------------------------------------

  predicate IsDigit(c: char)
  {
    '0' <= c <= '9'
  }

  function DigitChar(d: nat): (c: char)
    requires d < 10
    ensures IsDigit(c) && DigitValue(c) == d
  {
    (('0' as int) + d) as char
  }

  function DigitValue(c: char): int
  {
    (c as int) - ('0' as int)
  }

  /** A number below 100 as exactly two decimal digits, with a leading zero. */
  function TwoDigits(n: nat): (s: string)
    requires n < 100
    ensures |s| == 2 && IsDigit(s[0]) && IsDigit(s[1])
    ensures 10 * DigitValue(s[0]) + DigitValue(s[1]) == n
  {
    [DigitChar(n / 10), DigitChar(n % 10)]
  }

  /** The value of two decimal digit characters. */
  function PairValue(hi: char, lo: char): int
  {
    10 * DigitValue(hi) + DigitValue(lo)
  }

  // ---- the HH:mm:ss form --------------------------------------------------

  function Hours(t: Time): nat { t / SecondsPerHour }
  function Minutes(t: Time): nat { (t % SecondsPerHour) / SecondsPerMinute }
  function Seconds(t: Time): nat { (t % SecondsPerHour) % SecondsPerMinute }

  /** The `HH:mm:ss` rendering of a time of day. */
  function Format(t: Time): (s: string)
    ensures |s| == 8 && s[2] == ':' && s[5] == ':'
  {
    TwoDigits(Hours(t)) + ":" + TwoDigits(Minutes(t)) + ":" + TwoDigits(Seconds(t))
  }

  /**
   * Strict reading of `HH:mm:ss`: exactly two digits per field, colons as
   * separators, hours below 24, minutes and seconds below 60.
   */
  function Parse(s: string): (r: Option<Time>)
    ensures r.Some? ==> |s| == 8 && s[2] == ':' && s[5] == ':'
  {
    if |s| == 8 && s[2] == ':' && s[5] == ':'
       && IsDigit(s[0]) && IsDigit(s[1]) && IsDigit(s[3])
       && IsDigit(s[4]) && IsDigit(s[6]) && IsDigit(s[7])
    then
      var h, m, sec := PairValue(s[0], s[1]), PairValue(s[3], s[4]), PairValue(s[6], s[7]);
      if h < 24 && m < 60 && sec < 60
      then Some(SecondsPerHour * h + SecondsPerMinute * m + sec)
      else None
    else None
  }

  /** Splitting a time into hours, minutes and seconds loses nothing. */
  lemma FieldsRecompose(t: Time)
    ensures Hours(t) < 24 && Minutes(t) < 60 && Seconds(t) < 60
    ensures SecondsPerHour * Hours(t) + SecondsPerMinute * Minutes(t) + Seconds(t) == t
  {
    var r := t % SecondsPerHour;
    assert t == SecondsPerHour * (t / SecondsPerHour) + r;
    assert r == SecondsPerMinute * (r / SecondsPerMinute) + r % SecondsPerMinute;
  }

  /** The fields of a time built from in-range fields are those fields. */
  lemma FieldsOf(h: int, m: int, sec: int)
    requires 0 <= h < 24 && 0 <= m < 60 && 0 <= sec < 60
    ensures 0 <= SecondsPerHour * h + SecondsPerMinute * m + sec < SecondsPerDay
    ensures var t: Time := SecondsPerHour * h + SecondsPerMinute * m + sec;
      Hours(t) == h && Minutes(t) == m && Seconds(t) == sec
  {
    var r := SecondsPerMinute * m + sec;
    var t := SecondsPerHour * h + r;
    assert 0 <= r < SecondsPerHour;
    assert t / SecondsPerHour == h && t % SecondsPerHour == r;
    assert r / SecondsPerMinute == m && r % SecondsPerMinute == sec;
  }

  /** Reading back a formatted time gives that time. */
  lemma ParseFormat(t: Time)
    ensures Parse(Format(t)) == Some(t)
  {
    FieldsRecompose(t);
    var s := Format(t);
    assert s[0..2] == TwoDigits(Hours(t));
    assert s[3..5] == TwoDigits(Minutes(t));
    assert s[6..8] == TwoDigits(Seconds(t));
    assert PairValue(s[0], s[1]) == Hours(t);
    assert PairValue(s[3], s[4]) == Minutes(t);
    assert PairValue(s[6], s[7]) == Seconds(t);
  }

  /** Two digit characters are the two-digit rendering of their value. */
  lemma TwoDigitsOfPair(hi: char, lo: char)
    requires IsDigit(hi) && IsDigit(lo)
    ensures 0 <= PairValue(hi, lo) < 100 && TwoDigits(PairValue(hi, lo)) == [hi, lo]
  {
    var n := PairValue(hi, lo);
    assert n / 10 == DigitValue(hi) && n % 10 == DigitValue(lo);
  }

  /** A time built from in-range fields renders as those fields. */
  lemma FormatOfFields(h: int, m: int, sec: int)
    requires 0 <= h < 24 && 0 <= m < 60 && 0 <= sec < 60
    ensures 0 <= SecondsPerHour * h + SecondsPerMinute * m + sec < SecondsPerDay
    ensures Format(SecondsPerHour * h + SecondsPerMinute * m + sec)
         == TwoDigits(h) + ":" + TwoDigits(m) + ":" + TwoDigits(sec)
  {
    FieldsOf(h, m, sec);
  }

  /** Every string `Parse` accepts is the canonical rendering of what it reads. */
  lemma FormatParse(s: string)
    requires Parse(s).Some?
    ensures Format(Parse(s).value) == s
  {
    FormatOfFields(PairValue(s[0], s[1]), PairValue(s[3], s[4]), PairValue(s[6], s[7]));
    TwoDigitsOfPair(s[0], s[1]);
    TwoDigitsOfPair(s[3], s[4]);
    TwoDigitsOfPair(s[6], s[7]);
    assert s == [s[0], s[1]] + ":" + [s[3], s[4]] + ":" + [s[6], s[7]];
  }

  /** Two times have the same `HH:mm:ss` rendering only if they are the same time. */
  lemma FormatInjective(a: Time, b: Time)
    ensures Format(a) == Format(b) <==> a == b
  {
    ParseFormat(a);
    ParseFormat(b);
  }

  /** A valid time string equals the rendering of `t` exactly when it reads as `t`. */
  lemma CanonicalMatch(s: string, t: Time)
    ensures s == Format(t) <==> Parse(s) == Some(t)
  {
    ParseFormat(t);
    if Parse(s).Some? {
      FormatParse(s);
    }
  }

  /** Five minutes later is never the same second of the day. */
  lemma SnoozeTargetDiffers(t: Time)
    ensures SnoozeTarget(t) != t
    ensures Format(SnoozeTarget(t)) != Format(t)
  {
    FormatInjective(SnoozeTarget(t), t);
  }
}
