/** Rendering of a playback position as the time-of-day part of an ISO-8601
    timestamp, `HH:MM:SS`, and a parser that inverts it.

    The list item builds a date from the position in milliseconds and keeps
    the eight characters after the `T` of its ISO string, so the rendering
    shows whole seconds only and the hours wrap around every 24 hours. */
module Clock {
  import opened Types

  predicate IsDigit(c: char)
  {
    '0' <= c <= '9'
  }

  function Digit(n: nat): (c: char)
    requires n < 10
    ensures IsDigit(c) && DigitValue(c) == n
  {
    (48 + n) as char
  }

  function DigitValue(c: char): nat
    requires IsDigit(c)
  {
    c as int - 48
  }

  /** `n` zero-padded to two decimal digits. */
  function TwoDigits(n: nat): (s: string)
    requires n < 100
    ensures |s| == 2 && IsDigit(s[0]) && IsDigit(s[1])
    ensures DigitValue(s[0]) * 10 + DigitValue(s[1]) == n
  {
    [Digit(n / 10), Digit(n % 10)]
  }

  /** The hour, minute and second fields of the UTC time of day. */
  function Hours(ms: nat): nat { ms / 3600000 % 24 }
  function Minutes(ms: nat): nat { ms / 60000 % 60 }
  function Seconds(ms: nat): nat { ms / 1000 % 60 }

  /** The whole second of the UTC day that `ms` falls in. */
  function SecondOfDay(ms: nat): (s: nat)
    ensures s < 86400
  {
    ms / 1000 % 86400
  }

  /** The `HH:MM:SS` text the annotation list shows for a position of `ms`
      milliseconds. */
  function FormatTimestamp(ms: nat): (s: string)
    ensures |s| == 8 && s[2] == ':' && s[5] == ':'
    ensures forall i | 0 <= i < 8 && i != 2 && i != 5 :: IsDigit(s[i])
  {
    TwoDigits(Hours(ms)) + ":" + TwoDigits(Minutes(ms)) + ":" + TwoDigits(Seconds(ms))
  }

  /** The value of the two digits of `s` at `i` and `i + 1`. */
  function FieldValue(s: string, i: nat): nat
    requires i + 1 < |s| && IsDigit(s[i]) && IsDigit(s[i + 1])
  {
    DigitValue(s[i]) * 10 + DigitValue(s[i + 1])
  }

  /** Reads an `HH:MM:SS` clock back as a second of the day; None for any
      text that is not a well-formed clock. */
  function ParseClock(s: string): (r: Option<nat>)
    ensures r.Some? ==> r.value < 86400
  {
    if |s| == 8 && s[2] == ':' && s[5] == ':'
       && IsDigit(s[0]) && IsDigit(s[1]) && IsDigit(s[3])
       && IsDigit(s[4]) && IsDigit(s[6]) && IsDigit(s[7])
    then
      var h, m, sec := FieldValue(s, 0), FieldValue(s, 3), FieldValue(s, 6);
      if h < 24 && m < 60 && sec < 60 then Some(h * 3600 + m * 60 + sec) else None
    else
      None
  }

  /** Dividing milliseconds by a minute or an hour is dividing whole
      seconds by 60 or 3600. */
  lemma DivideThroughSeconds(ms: nat)
    ensures ms / 60000 == ms / 1000 / 60
    ensures ms / 3600000 == ms / 1000 / 3600
  {
    var sec := ms / 1000;
    assert ms == sec * 1000 + ms % 1000;
    assert sec == sec / 60 * 60 + sec % 60;
    assert sec == sec / 3600 * 3600 + sec % 3600;
  }

  /** The hour, minute and second of a count of seconds are those of its
      remainder within the day. */
  lemma DayFields(sec: nat)
    ensures sec / 3600 % 24 == sec % 86400 / 3600
    ensures sec / 60 % 60 == sec % 86400 / 60 % 60
    ensures sec % 60 == sec % 86400 % 60
    ensures sec % 86400 == sec / 3600 % 24 * 3600 + sec / 60 % 60 * 60 + sec % 60
  {
    var k, r := sec / 86400, sec % 86400;
    assert sec == k * 86400 + r;
    assert sec / 3600 == k * 24 + r / 3600;
    assert sec / 60 == k * 1440 + r / 60;
    assert r == r / 3600 * 3600 + r % 3600;
    assert r % 3600 == r / 60 % 60 * 60 + r % 60;
  }

  /** The three clock fields are the hour, minute and second of the second
      of the day, and together they make it up. */
  lemma ClockFields(ms: nat)
    ensures Hours(ms) == SecondOfDay(ms) / 3600
    ensures Minutes(ms) == SecondOfDay(ms) / 60 % 60
    ensures Seconds(ms) == SecondOfDay(ms) % 60
    ensures SecondOfDay(ms) == Hours(ms) * 3600 + Minutes(ms) * 60 + Seconds(ms)
  {
    DivideThroughSeconds(ms);
    DayFields(ms / 1000);
  }

  /** Parsing the rendered clock gives back the second of the day: the
      rendering loses exactly the milliseconds and the whole days. */
  lemma ParseFormatted(ms: nat)
    ensures ParseClock(FormatTimestamp(ms)) == Some(SecondOfDay(ms))
  {
    var s := FormatTimestamp(ms);
    ClockFields(ms);
    assert FieldValue(s, 0) == Hours(ms);
    assert FieldValue(s, 3) == Minutes(ms);
    assert FieldValue(s, 6) == Seconds(ms);
  }

  /** Two positions render alike exactly when they fall in the same second
      of the day. */
  lemma FormatSameIff(a: nat, b: nat)
    ensures FormatTimestamp(a) == FormatTimestamp(b) <==> SecondOfDay(a) == SecondOfDay(b)
  {
    ParseFormatted(a);
    ParseFormatted(b);
    ClockFields(a);
    ClockFields(b);
  }

  /** Hours wrap at 24: a position one day later renders the same. */
  lemma FormatWrapsDaily(ms: nat)
    ensures FormatTimestamp(ms + 86400000) == FormatTimestamp(ms)
  {
    assert SecondOfDay(ms + 86400000) == SecondOfDay(ms);
    FormatSameIff(ms + 86400000, ms);
  }

  /** Milliseconds are dropped: a position renders as its whole second. */
  lemma FormatFloorsToSeconds(ms: nat)
    ensures FormatTimestamp(ms) == FormatTimestamp(ms / 1000 * 1000)
  {
    FormatSameIff(ms, ms / 1000 * 1000);
  }

  /** 3725 seconds render as one hour, two minutes and five seconds. */
  lemma FormatExamples()
    ensures FormatTimestamp(3725000) == "01:02:05"
    ensures FormatTimestamp(0) == "00:00:00"
  {
  }
}
