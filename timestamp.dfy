/**
 * `format_timestamp` (main.py): seconds as a non-negative number, rendered as
 * the SubRip timestamp `HH:MM:SS,mmm` with milliseconds truncated. Python's
 * float operators are modelled on exact reals: `int(x)` and `x // d` are
 * `.Floor` (they agree for `x >= 0`), `x % d` is `x - d * (x // d)`.
 */
module Timestamp {
  import opened Wrappers
  import opened Decimal

  /** Python's `x // d` on floats with a positive divisor. */
  function FloorDiv(x: real, d: real): int
    requires d > 0.0
  {
    (x / d).Floor
  }

  /** Python's `x % d` on floats with a positive divisor. */
  function FloatMod(x: real, d: real): real
    requires d > 0.0
  {
    x - d * FloorDiv(x, d) as real
  }

  /** A time offset in seconds; offsets are never negative. */
  type Seconds = r: real | 0.0 <= r

  /** The four numeric fields of a timestamp line. */
  datatype Fields = Fields(hours: nat, minutes: nat, seconds: nat, millis: nat)

  function TotalMillis(f: Fields): int {
    3_600_000 * f.hours + 60_000 * f.minutes + 1_000 * f.seconds + f.millis
  }

  /** Flooring `x // 3600` only looks at the whole seconds of `x`. */
  lemma FloorHours(x: real)
    requires x >= 0.0
    ensures FloorDiv(x, 3600.0) == x.Floor / 3600
  {
    var t := x.Floor;
    var q := t / 3600;
    assert (3600 * q) as real <= x < (3600 * q + 3600) as real;
  }

  /** Flooring `x // 60` only looks at the whole seconds of `x`. */
  lemma FloorMinutes(x: real)
    requires x >= 0.0
    ensures FloorDiv(x, 60.0) == x.Floor / 60
  {
    var t := x.Floor;
    var q := t / 60;
    assert (60 * q) as real <= x < (60 * q + 60) as real;
  }

  /** Shifting by a whole number shifts the floor by it. */
  lemma FloorShift(x: real, n: int)
    ensures (x + n as real).Floor == x.Floor + n
  {
  }

  /** `seconds % 3600` keeps the whole seconds modulo 3600 and the fraction. */
  lemma FloorOfMod3600(x: real)
    requires x >= 0.0
    ensures FloatMod(x, 3600.0) >= 0.0
    ensures FloatMod(x, 3600.0).Floor == x.Floor % 3600
  {
    FloorHours(x);
    FloorShift(x, -3600 * (x.Floor / 3600));
    assert FloatMod(x, 3600.0) == x + (-3600 * (x.Floor / 3600)) as real;
  }

  /** `seconds % 60` keeps the whole seconds modulo 60 and the fraction. */
  lemma FloorOfMod60(x: real)
    requires x >= 0.0
    ensures FloatMod(x, 60.0).Floor == x.Floor % 60
  {
    FloorMinutes(x);
    FloorShift(x, -60 * (x.Floor / 60));
    assert FloatMod(x, 60.0) == x + (-60 * (x.Floor / 60)) as real;
  }

  /** The truncated fraction is what whole milliseconds remain after the whole seconds. */
  lemma FloorOfFraction(x: real)
    requires x >= 0.0
    ensures ((x - x.Floor as real) * 1000.0).Floor == (x * 1000.0).Floor - 1000 * x.Floor
    ensures 0 <= ((x - x.Floor as real) * 1000.0).Floor < 1000
  {
    var t := x.Floor;
    FloorShift((x - t as real) * 1000.0, 1000 * t);
    assert x * 1000.0 == (x - t as real) * 1000.0 + (1000 * t) as real;
  }

  /** Whole seconds split into hours, minutes of the hour and seconds of the minute. */
  lemma ClockFields(t: int)
    requires t >= 0
    ensures 0 <= (t % 3600) / 60 < 60 && 0 <= t % 60 < 60
    ensures 3600 * (t / 3600) + 60 * ((t % 3600) / 60) + t % 60 == t
  {
    assert (t % 3600) % 60 == t % 60;
  }

  /** The fields `format_timestamp` computes, line by line. */
  function Split(seconds: Seconds): Fields
  {
    var t := seconds.Floor;
    var millis := ((seconds - seconds.Floor as real) * 1000.0).Floor;
    var h := FloorDiv(seconds, 3600.0);
    var m := FloorDiv(FloatMod(seconds, 3600.0), 60.0);
    var s := FloatMod(seconds, 60.0).Floor;
    FloorHours(seconds);
    FloorOfMod3600(seconds);
    FloorMinutes(FloatMod(seconds, 3600.0));
    FloorOfMod60(seconds);
    FloorOfFraction(seconds);
    ClockFields(t);
    Fields(h, m, s, millis)
  }

  /**
   * What the fields mean: minutes and seconds stay below 60 and
   * milliseconds below 1000, hours, minutes and seconds add up to the whole
   * seconds, and all four add up to the whole milliseconds `floor(seconds * 1000)`.
   */
  lemma SplitFields(seconds: Seconds)
    ensures var f := Split(seconds);
      f.minutes < 60 && f.seconds < 60 && f.millis < 1000
      && 3600 * f.hours + 60 * f.minutes + f.seconds == seconds.Floor
      && TotalMillis(f) == (seconds * 1000.0).Floor
  {
    var t := seconds.Floor;
    FloorHours(seconds);
    FloorOfMod3600(seconds);
    FloorMinutes(FloatMod(seconds, 3600.0));
    FloorOfMod60(seconds);
    FloorOfFraction(seconds);
    ClockFields(t);
  }

  /**
   * The fields are determined by what they mean: any minutes and seconds
   * below 60 and milliseconds below 1000 that add up to the whole seconds and
   * the whole milliseconds of `seconds` are the ones `Split` computes.
   */
  lemma SplitUnique(seconds: Seconds, h: nat, m: nat, s: nat, ms: nat)
    requires m < 60 && s < 60 && ms < 1000
    requires 3600 * h + 60 * m + s == seconds.Floor
    requires 1000 * seconds.Floor + ms == (seconds * 1000.0).Floor
    ensures Split(seconds) == Fields(h, m, s, ms)
    ensures Format(seconds) == Render(Fields(h, m, s, ms))
  {
    var f := Split(seconds);
    SplitFields(seconds);
    assert f.millis == ms;
    assert f.hours == h;
  }

  /** `f"{h:02}:{m:02}:{s:02},{millis:03}"`. */
  function Render(f: Fields): string {
    ZeroPad(f.hours, 2) + ":" + ZeroPad(f.minutes, 2) + ":" + ZeroPad(f.seconds, 2) + "," + ZeroPad(f.millis, 3)
  }

  /** `format_timestamp(seconds)`. */
  function Format(seconds: Seconds): string
  {
    Render(Split(seconds))
  }

  /**
   * Reads `H..H:MM:SS,mmm` back into its fields: at least two hour digits,
   * then exactly two, two and three digits behind fixed separators.
   */
  function Parse(t: string): Option<Fields> {
    if |t| < 12 then None
    else
      var k := |t| - 10;
      var hh, mm, ss, ms := t[..k], t[k + 1..k + 3], t[k + 4..k + 6], t[k + 7..];
      if t[k] == ':' && t[k + 3] == ':' && t[k + 6] == ','
         && AllDigits(hh) && AllDigits(mm) && AllDigits(ss) && AllDigits(ms)
      then Some(Fields(Value(hh), Value(mm), Value(ss), Value(ms)))
      else None
  }

  /** A timestamp character: a digit or one of the separators ':' and ','. */
  predicate IsStampChar(c: char) {
    IsDigit(c) || c == ':' || c == ','
  }

  /**
   * The layout of the formatted timestamp: hours take at least two digits,
   * minutes and seconds exactly two, milliseconds exactly three, and the
   * fields are separated by ':', ':' and ','.
   */
  lemma FormatShape(seconds: Seconds)
    ensures var t, k := Format(seconds), |Format(seconds)| - 10;
      |t| >= 12 && AllDigits(t[..k]) && |t[..k]| >= 2
      && t[k] == ':' && t[k + 3] == ':' && t[k + 6] == ','
      && AllDigits(t[k + 1..k + 3]) && AllDigits(t[k + 4..k + 6]) && AllDigits(t[k + 7..])
      && t[..k] == ZeroPad(Split(seconds).hours, 2)
      && t[k + 1..k + 3] == ZeroPad(Split(seconds).minutes, 2)
      && t[k + 4..k + 6] == ZeroPad(Split(seconds).seconds, 2)
      && t[k + 7..] == ZeroPad(Split(seconds).millis, 3)
      && forall i :: 0 <= i < |t| ==> IsStampChar(t[i])
  {
    var f := Split(seconds);
    var hh, mm, ss, ms := ZeroPad(f.hours, 2), ZeroPad(f.minutes, 2), ZeroPad(f.seconds, 2), ZeroPad(f.millis, 3);
    var t := Format(seconds);
    assert t == hh + ":" + mm + ":" + ss + "," + ms;
    var k := |hh|;
    assert |t| - 10 == k;
    assert t[..k] == hh;
    assert t[k + 1..k + 3] == mm;
    assert t[k + 4..k + 6] == ss;
    assert t[k + 7..] == ms;
    forall i | 0 <= i < |t|
      ensures IsStampChar(t[i])
    {
      if i < k {
        assert t[i] == hh[i];
      } else if k + 1 <= i < k + 3 {
        assert t[i] == mm[i - k - 1];
      } else if k + 4 <= i < k + 6 {
        assert t[i] == ss[i - k - 4];
      } else if k + 7 <= i {
        assert t[i] == ms[i - k - 7];
      }
    }
  }

  /**
   * Round trip: reparsing the formatted timestamp gives back the fields, and
   * so the whole number of milliseconds `floor(seconds * 1000)` — truncated,
   * never rounded.
   */
  lemma ParseFormat(seconds: Seconds)
    ensures Parse(Format(seconds)) == Some(Split(seconds))
    ensures TotalMillis(Parse(Format(seconds)).value) == (seconds * 1000.0).Floor
  {
    var f := Split(seconds);
    SplitFields(seconds);
    FormatShape(seconds);
    PaddedValue(f.hours, 2);
    PaddedValue(f.minutes, 2);
    PaddedValue(f.seconds, 2);
    PaddedValue(f.millis, 3);
  }
}
