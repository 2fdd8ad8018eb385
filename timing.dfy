/**
 * `TimingUtils.toNaturalTime`: an elapsed time in nanoseconds, rendered as `123ms`,
 * `4s:037ms`, `2m:04s:015ms` or `1h:02m:09s` depending on its magnitude.
 */
module Timing {
  import opened Text

  /** Java's `/` on `long` for a positive divisor: the quotient truncated toward zero. */
  function JavaDiv(a: int, b: int): (q: int)
    requires b > 0
    ensures a >= 0 ==> q >= 0 && q * b <= a < (q + 1) * b
    ensures a < 0 ==> q <= 0 && (-q) * b <= -a < (-q + 1) * b
  {
    if a >= 0 then
      DivBounds(a, b);
      a / b
    else
      DivBounds(-a, b);
      -((-a) / b)
  }

  /** Euclidean division of a non-negative number by a positive one brackets it between multiples. */
  lemma DivBounds(a: int, b: int)
    requires a >= 0 && b > 0
    ensures a / b >= 0 && (a / b) * b <= a < (a / b + 1) * b
  {
    var q, r := a / b, a % b;
    assert a == q * b + r && 0 <= r < b;
    assert (q + 1) * b == q * b + b;
  }

  /** A count of seconds from an hour up splits into hours, minutes below an hour and seconds below a minute. */
  lemma HourSplit(s: int)
    requires s >= 3600
    ensures s / 3600 >= 1 && (s % 3600) / 60 < 60
    ensures (s / 3600) * 3600 + ((s % 3600) / 60) * 60 + s % 60 == s
  {
    var h, r := s / 3600, s % 3600;
    var m, sec := r / 60, r % 60;
    assert s == h * 3600 + r && 0 <= r < 3600;
    assert r == m * 60 + sec && 0 <= sec < 60;
    assert m < 60;
    assert s == (h * 60 + m) * 60 + sec;
    assert s % 60 == sec;
  }

  /** `TimeUnit.NANOSECONDS.toMillis`: whole milliseconds, truncated toward zero. */
  function ToMillis(ns: int): int
  {
    JavaDiv(ns, 1_000_000)
  }

  /** The fields `toNaturalTime` prints, one constructor per output format. */
  datatype NaturalTime =
    | Millis(total: int)
    | SecondsMillis(seconds: nat, millis: nat)
    | MinutesSecondsMillis(minutes: nat, seconds: nat, millis: nat)
    | HoursMinutesSeconds(hours: nat, minutes: nat, seconds: nat)

  /**
   * The split of a millisecond total into the printed fields. Each format is chosen by
   * the magnitude of the total, its fields recompose the total (down to whole seconds in
   * the hour format, which drops the milliseconds) and every field below the leading one
   * stays inside its unit.
   */
  function Breakdown(totalMillis: int): (t: NaturalTime)
    ensures t.Millis? <==> totalMillis < 1000
    ensures t.SecondsMillis? <==> 1000 <= totalMillis < 60_000
    ensures t.MinutesSecondsMillis? <==> 60_000 <= totalMillis < 3_600_000
    ensures t.HoursMinutesSeconds? <==> 3_600_000 <= totalMillis
    ensures t.Millis? ==> t.total == totalMillis
    ensures t.SecondsMillis? ==>
      t.seconds * 1000 + t.millis == totalMillis && 1 <= t.seconds < 60 && t.millis < 1000
    ensures t.MinutesSecondsMillis? ==>
      (t.minutes * 60 + t.seconds) * 1000 + t.millis == totalMillis
      && 1 <= t.minutes < 60 && t.seconds < 60 && t.millis < 1000
    ensures t.HoursMinutesSeconds? ==>
      t.hours * 3600 + t.minutes * 60 + t.seconds == totalMillis / 1000
      && t.hours >= 1 && t.minutes < 60 && t.seconds < 60
  {
    if totalMillis < 1000 then
      Millis(totalMillis)
    else
      var totalSeconds := totalMillis / 1000;
      var millisPart := totalMillis % 1000;
      if totalSeconds < 60 then
        SecondsMillis(totalSeconds, millisPart)
      else
        var minutes := totalSeconds / 60;
        var secondsPart := totalSeconds % 60;
        if totalSeconds < 3600 then
          MinutesSecondsMillis(minutes, secondsPart, millisPart)
        else
          HourSplit(totalSeconds);
          HoursMinutesSeconds(totalSeconds / 3600, (totalSeconds % 3600) / 60, totalSeconds % 60)
  }

  /** The `String.format` patterns `%dms`, `%ds:%03dms`, `%dm:%02ds:%03dms` and `%dh:%02dm:%02ds`. */
  function Render(t: NaturalTime): string {
    match t
    case Millis(ms) => IntToDecimal(ms) + "ms"
    case SecondsMillis(s, ms) => IntToDecimal(s) + "s:" + PadDecimal(ms, 3) + "ms"
    case MinutesSecondsMillis(m, s, ms) => IntToDecimal(m) + "m:" + PadDecimal(s, 2) + "s:" + PadDecimal(ms, 3) + "ms"
    case HoursMinutesSeconds(h, m, s) => IntToDecimal(h) + "h:" + PadDecimal(m, 2) + "m:" + PadDecimal(s, 2) + "s"
  }

  /** `toNaturalTime`. */
  function ToNaturalTime(ns: int): string {
    Render(Breakdown(ToMillis(ns)))
  }

  /**
   * Every field after the leading one is printed in a fixed width (three digits for
   * milliseconds, two for seconds and minutes) and reads back as its value, so each
   * printed string has a unique reading.
   */
  lemma RenderedFieldsReadBack(totalMillis: int)
    ensures match Breakdown(totalMillis)
      case Millis(_) => true
      case SecondsMillis(_, ms) =>
        |PadDecimal(ms, 3)| == 3 && DecimalValue(PadDecimal(ms, 3)) == ms
      case MinutesSecondsMillis(_, s, ms) =>
        |PadDecimal(s, 2)| == 2 && DecimalValue(PadDecimal(s, 2)) == s
        && |PadDecimal(ms, 3)| == 3 && DecimalValue(PadDecimal(ms, 3)) == ms
      case HoursMinutesSeconds(_, m, s) =>
        |PadDecimal(m, 2)| == 2 && DecimalValue(PadDecimal(m, 2)) == m
        && |PadDecimal(s, 2)| == 2 && DecimalValue(PadDecimal(s, 2)) == s
  {
    assert Pow10(2) == 100 && Pow10(3) == 1000;
  }

  /** Whole milliseconds only: every nanosecond count within the same millisecond prints alike. */
  lemma SameMillisecondSameText(ns: int, extra: int)
    requires ns >= 0 && 0 <= extra < 1_000_000 && ns % 1_000_000 == 0
    ensures ToNaturalTime(ns + extra) == ToNaturalTime(ns)
  {
    assert ToMillis(ns + extra) == ToMillis(ns);
  }

  /** A negative duration of at least a millisecond prints as a negative millisecond count. */
  lemma NegativeElapsedPrintsMillis(ns: int)
    requires ns <= -1_000_000
    ensures var r := ToNaturalTime(ns); |r| >= 3 && r[0] == '-' && r[|r| - 2..] == "ms"
  {
    var ms := ToMillis(ns);
    assert ms < 0;
    assert Breakdown(ms) == Millis(ms);
  }

  // The tested formats, one per magnitude; each input is a millisecond count given as nanoseconds.

  lemma TestedMillis()
    ensures ToNaturalTime(999 * 1_000_000) == "999ms"
  {
    assert ToMillis(999 * 1_000_000) == 999;
    assert NatToDecimal(99) == "99";
    assert NatToDecimal(999) == "999";
  }

  lemma TestedSeconds()
    ensures ToNaturalTime(1037 * 1_000_000) == "1s:037ms"
  {
    assert ToMillis(1037 * 1_000_000) == 1037;
    assert Breakdown(1037) == SecondsMillis(1, 37);
    assert NatToDecimal(37) == "37";
    assert PadDecimal(37, 3) == "037";
  }

  lemma TestedMinutes()
    ensures ToNaturalTime(61015 * 1_000_000) == "1m:01s:015ms"
  {
    assert ToMillis(61015 * 1_000_000) == 61015;
    assert Breakdown(61015) == MinutesSecondsMillis(1, 1, 15);
    assert NatToDecimal(15) == "15";
    assert PadDecimal(1, 2) == "01";
    assert PadDecimal(15, 3) == "015";
  }

  lemma TestedHours()
    ensures ToNaturalTime(3661000 * 1_000_000) == "1h:01m:01s"
  {
    assert ToMillis(3661000 * 1_000_000) == 3661000;
    assert Breakdown(3661000) == HoursMinutesSeconds(1, 1, 1);
    assert PadDecimal(1, 2) == "01";
  }
}
