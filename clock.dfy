/** time_from_string (serato2cue.py:48-50): a Serato time field such as
    "20:10:29 GMT-4" read against the session date.  A time is modelled as its
    second of the day; every track of a run shares the one session date, so the
    date itself only decides whether parsing succeeds. */
module Clock {
  import opened Errors
  import opened Numerals

  const SecondsPerDay := 86400

  /** The "%d/%m/%Y" part of the format: DD/MM/YYYY with day 1..31, month
      1..12 and a year of at least 1. */
  predicate WellFormedDate(date: string)
  {
    && |date| == 10
    && AllDigits(date[..2]) && date[2] == '/'
    && AllDigits(date[3..5]) && date[5] == '/'
    && AllDigits(date[6..])
    && 1 <= Value(date[..2]) <= 31
    && 1 <= Value(date[3..5]) <= 12
    && 1 <= Value(date[6..])
  }

  /** The "%H:%M:%S" part of the format: exactly HH:MM:SS, hour below 24,
      minute and second below 60. */
  predicate WellFormedClock(p: string)
  {
    && |p| == 8
    && DigitPair(p, 0) && p[2] == ':'
    && DigitPair(p, 3) && p[5] == ':'
    && DigitPair(p, 6)
    && TwoDigits(p, 0) < 24 && TwoDigits(p, 3) < 60 && TwoDigits(p, 6) < 60
  }

  /** Python's data[:8]. */
  function ClockPrefix(data: string): string
  {
    if |data| <= 8 then data else data[..8]
  }

  /** time_from_string: the session date followed by the first eight
      characters of the field, read as day/month/year then hour, minute and
      second. */
  function TimeFromString(data: string, date: string): (r: Result<int>)
    ensures r.Ok? ==> 0 <= r.value < SecondsPerDay
  {
    var p := ClockPrefix(data);
    if !WellFormedDate(date) || !WellFormedClock(p) then Err(ValueError)
    else Ok(TwoDigits(p, 0) * 3600 + TwoDigits(p, 3) * 60 + TwoDigits(p, 6))
  }

  /** The HH:MM:SS text of a second of the day (the inverse of the parser). */
  function ClockText(t: int): string
    requires 0 <= t < SecondsPerDay
  {
    Pad2(t / 3600) + ":" + Pad2(t % 3600 / 60) + ":" + Pad2(t % 60)
  }

  lemma SplitSeconds(h: nat, m: nat, s: nat)
    requires h < 24 && m < 60 && s < 60
    ensures var t := h * 3600 + m * 60 + s;
      0 <= t < SecondsPerDay && t / 3600 == h && t % 3600 / 60 == m && t % 60 == s
  {
    var t := h * 3600 + m * 60 + s;
    assert t % 3600 == m * 60 + s;
  }

  lemma JoinSeconds(t: int)
    requires 0 <= t < SecondsPerDay
    ensures t / 3600 < 24 && t % 3600 / 60 < 60
    ensures (t / 3600) * 3600 + (t % 3600 / 60) * 60 + t % 60 == t
  {
    assert t % 3600 % 60 == t % 60;
  }

  /** Only the first eight characters of the field count: anything after
      HH:MM:SS, such as a time-zone label, is ignored. */
  lemma TimeFromStringIgnoresSuffix(data: string, suffix: string, date: string)
    requires |data| >= 8
    ensures TimeFromString(data[..8] + suffix, date) == TimeFromString(data, date)
  {
    assert ClockPrefix(data[..8] + suffix) == data[..8] == ClockPrefix(data);
  }

  /** Parsing a printed clock time, followed by any text, gives the time back,
      whatever well-formed date it is read against. */
  lemma TimeFromStringRoundTrip(t: int, suffix: string, date: string)
    requires 0 <= t < SecondsPerDay
    requires WellFormedDate(date)
    ensures TimeFromString(ClockText(t) + suffix, date) == Ok(t)
  {
    JoinSeconds(t);
    var h, m, s := t / 3600, t % 3600 / 60, t % 60;
    TwoDigitsOfPad2(h);
    TwoDigitsOfPad2(m);
    TwoDigitsOfPad2(s);
    var c := ClockText(t);
    var p := ClockPrefix(c + suffix);
    assert p == c;
    assert p[0] == Pad2(h)[0] && p[1] == Pad2(h)[1];
    assert p[3] == Pad2(m)[0] && p[4] == Pad2(m)[1];
    assert p[6] == Pad2(s)[0] && p[7] == Pad2(s)[1];
  }

  /** A field that parses starts with the printed form of the parsed time:
      together with the round trip, parsing is a bijection between HH:MM:SS
      prefixes and seconds of the day. */
  lemma TimeFromStringInverse(data: string, date: string)
    requires TimeFromString(data, date).Ok?
    ensures |data| >= 8 && data[..8] == ClockText(TimeFromString(data, date).value)
  {
    var p := ClockPrefix(data);
    var h, m, s := TwoDigits(p, 0), TwoDigits(p, 3), TwoDigits(p, 6);
    SplitSeconds(h, m, s);
    Pad2OfTwoDigits(p, 0);
    Pad2OfTwoDigits(p, 3);
    Pad2OfTwoDigits(p, 6);
    assert p == p[0..2] + ":" + p[3..5] + ":" + p[6..8];
  }

  /** A malformed date makes every time fail, and so does a field too short
      to hold HH:MM:SS. */
  lemma TimeFromStringFailures(data: string, date: string)
    ensures !WellFormedDate(date) ==> TimeFromString(data, date) == Err(ValueError)
    ensures |data| < 8 ==> TimeFromString(data, date) == Err(ValueError)
  {
  }
}
