/** Times of day at minute precision and their "HH:MM" text form
    (`strftime("%H:%M")` and `strptime(..., "%H:%M")`). */
module Clock {
  import opened Digits

  type Hour = h: int | 0 <= h < 24
  type Minute = m: int | 0 <= m < 60

  datatype Time = Time(hour: Hour, minute: Minute)

  /** Minutes since midnight; a bijection between times and 0..1439. */
  function MinuteOfDay(t: Time): (m: nat)
    ensures m < 24 * 60
    ensures m / 60 == t.hour && m % 60 == t.minute
  {
    t.hour * 60 + t.minute
  }

  lemma MinuteOfDayInjective(a: Time, b: Time)
    requires MinuteOfDay(a) == MinuteOfDay(b)
    ensures a == b
  {
  }

  /** `a < b` on Python `time` values read at minute precision; it is the
      lexicographic order on (hour, minute). */
  function Before(a: Time, b: Time): (r: bool)
    ensures r <==> a.hour < b.hour || (a.hour == b.hour && a.minute < b.minute)
  {
    MinuteOfDay(a) < MinuteOfDay(b)
  }

  /** A well-formed "HH:MM" string: two digits, a colon, two digits, hour
      below 24 and minute below 60. */
  predicate IsTimeString(s: string) {
    && |s| == 5
    && IsDigit(s[0]) && IsDigit(s[1]) && s[2] == ':' && IsDigit(s[3]) && IsDigit(s[4])
    && TwoDigitValue(s[0], s[1]) < 24
    && TwoDigitValue(s[3], s[4]) < 60
  }

  /** `t.strftime("%H:%M")`: zero-padded hour and minute. */
  function FormatTime(t: Time): (s: string)
    ensures IsTimeString(s)
    ensures s[..2] == ZeroPad2(t.hour) && s[2] == ':' && s[3..] == ZeroPad2(t.minute)
  {
    ZeroPad2RoundTrip(t.hour);
    ZeroPad2RoundTrip(t.minute);
    ZeroPad2(t.hour) + ":" + ZeroPad2(t.minute)
  }

  /** `datetime.strptime(s, "%H:%M").time()` on a well-formed string. */
  function ParseTime(s: string): (t: Time)
    requires IsTimeString(s)
    ensures FormatTime(t) == s
  {
    var t := Time(TwoDigitValue(s[0], s[1]), TwoDigitValue(s[3], s[4]));
    var f := FormatTime(t);
    assert f[0] == s[0] && f[1] == s[1] && f[3] == s[3] && f[4] == s[4];
    t
  }

  lemma FormatParseRoundTrip(t: Time)
    ensures ParseTime(FormatTime(t)) == t
  {
    ZeroPad2RoundTrip(t.hour);
    ZeroPad2RoundTrip(t.minute);
  }
}
