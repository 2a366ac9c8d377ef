/**
 * The remaining-time text (TimeView.SetTime): the time in seconds split
 * into whole minutes and whole seconds and shown as two zero-padded
 * numbers separated by ':'. Floats are read as exact reals.
 */
module TimeView {

  /** C#'s cast toward zero: the integer part, dropping the fraction toward 0. */
  function Trunc(x: real): (r: int)
    ensures x >= 0.0 ==> r as real <= x < r as real + 1.0
    ensures x < 0.0 ==> r as real - 1.0 < x <= r as real
  {
    if x >= 0.0 then x.Floor else -((-x).Floor)
  }

  /** C#'s float `%`: the remainder takes the sign of the dividend. */
  function FMod(x: real, m: real): real
    requires m != 0.0
  {
    x - m * (Trunc(x / m) as real)
  }

  /** Mathf.FloorToInt(time / 60): the whole minutes, rounded down. */
  function Minutes(time: real): (m: int)
    ensures m as real * 60.0 <= time < (m + 1) as real * 60.0
  {
    (time / 60.0).Floor
  }

  /**
   * Mathf.FloorToInt(time % 60): the whole seconds past the minute; the
   * remainder keeps the sign of the time.
   */
  function Seconds(time: real): (s: int)
    ensures time >= 0.0 ==> 0 <= s <= 59
    ensures time < 0.0 ==> -60 <= s <= 0
  {
    var q := Trunc(time / 60.0);
    assert time >= 0.0 ==> 0.0 <= time - 60.0 * q as real < 60.0;
    assert time < 0.0 ==> -60.0 < time - 60.0 * q as real <= 0.0;
    FMod(time, 60.0).Floor
  }

  /** For a non-negative time the split is exact: seconds in [0, 59], and nothing lost. */
  lemma SplitIsExact(time: real)
    requires time >= 0.0
    ensures 0 <= Seconds(time) <= 59
    ensures 0 <= Minutes(time)
    ensures Minutes(time) * 60 + Seconds(time) == time.Floor
  {
    var q := Minutes(time);
    var f := time / 60.0 - q as real;
    assert 0.0 <= f < 1.0;
    assert Trunc(time / 60.0) == q;
    var y := FMod(time, 60.0);
    assert y == 60.0 * f;
    assert time == (60 * q) as real + y;
    var s := y.Floor;
    assert (s + 60 * q) as real <= time < (s + 60 * q + 1) as real;
  }

  function DigitChar(d: int): (c: char)
    requires 0 <= d <= 9
    ensures '0' <= c <= '9'
  {
    ['0', '1', '2', '3', '4', '5', '6', '7', '8', '9'][d]
  }

  /** The value of a decimal digit character. */
  function DigitValue(c: char): (d: int)
    requires '0' <= c <= '9'
    ensures 0 <= d <= 9
  {
    (c as int) - ('0' as int)
  }

  lemma DigitRoundTrip(d: int)
    requires 0 <= d <= 9
    ensures DigitValue(DigitChar(d)) == d
  {
  }

  predicate AllDigits(s: string)
  {
    forall i :: 0 <= i < |s| ==> '0' <= s[i] <= '9'
  }

  /** The decimal digits of `n`, without leading zeros ("0" for zero). */
  function Digits(n: nat): (s: string)
    ensures |s| >= 1 && AllDigits(s)
    ensures n < 10 <==> |s| == 1
    ensures 10 <= n < 100 <==> |s| == 2
  {
    if n < 10 then [DigitChar(n)] else Digits(n / 10) + [DigitChar(n % 10)]
  }

  /** The number a string of decimal digits stands for. */
  function Value(s: string): nat
    requires AllDigits(s)
  {
    if s == [] then 0 else Value(s[..|s| - 1]) * 10 + DigitValue(s[|s| - 1])
  }

  /** Reading back the digits of `n` gives `n`. */
  lemma {:induction false} DigitsRoundTrip(n: nat)
    ensures Value(Digits(n)) == n
  {
    if n < 10 {
      assert Digits(n)[..0] == [];
      DigitRoundTrip(n);
    } else {
      var s := Digits(n);
      DigitsRoundTrip(n / 10);
      assert s[..|s| - 1] == Digits(n / 10);
      DigitRoundTrip(n % 10);
    }
  }

  /** A leading zero does not change the value. */
  lemma {:induction false} LeadingZero(s: string)
    requires AllDigits(s)
    ensures AllDigits("0" + s) && Value("0" + s) == Value(s)
    decreases |s|
  {
    if s != [] {
      LeadingZero(s[..|s| - 1]);
      assert ("0" + s)[..|s|] == "0" + s[..|s| - 1];
    } else {
      assert ("0" + s)[..0] == [];
    }
  }

  /** The "00" custom format of a non-negative number: at least two digits. */
  function PadNat(n: nat): (s: string)
    ensures AllDigits(s) && Value(s) == n
    ensures n < 100 ==> |s| == 2
    ensures |s| >= 2
  {
    DigitsRoundTrip(n);
    if n < 10 then
      LeadingZero(Digits(n));
      "0" + Digits(n)
    else Digits(n)
  }

  /** The "00" custom format of any integer: a minus sign before a negative one. */
  function Pad2(n: int): (s: string)
    ensures n >= 0 ==> AllDigits(s) && |s| >= 2 && Value(s) == n
    ensures n < 0 ==> |s| >= 3 && s[0] == '-' && AllDigits(s[1..]) && Value(s[1..]) == -n
  {
    if n < 0 then "-" + PadNat(-n) else PadNat(n)
  }

  /** The text SetTime shows: "mm:ss". */
  function FormatTime(time: real): (t: string)
    ensures time >= 0.0 ==> |t| >= 5 && t[|t| - 3] == ':'
  {
    Pad2(Minutes(time)) + ":" + Pad2(Seconds(time))
  }

  /**
   * For a non-negative time the text reads back: the seconds are the last
   * two digits, the minutes everything before the ':', and the text is 5
   * characters while the minutes are below 100.
   */
  lemma FormatTimeReadsBack(time: real)
    requires time >= 0.0
    ensures var t := FormatTime(time);
      && |t| >= 5 && t[|t| - 3] == ':'
      && AllDigits(t[..|t| - 3]) && Value(t[..|t| - 3]) == Minutes(time)
      && AllDigits(t[|t| - 2..]) && Value(t[|t| - 2..]) == Seconds(time)
      && Minutes(time) * 60 + Seconds(time) == time.Floor
    ensures Minutes(time) < 100 <==> |FormatTime(time)| == 5
  {
    SplitIsExact(time);
    var m := PadNat(Minutes(time));
    var s := PadNat(Seconds(time));
    var t := FormatTime(time);
    assert t == m + ":" + s;
    assert t[..|t| - 3] == m;
    assert t[|t| - 2..] == s;
    if Minutes(time) >= 100 {
      DigitsRoundTrip(Minutes(time));
      assert |m| == |Digits(Minutes(time))|;
      assert |Digits(Minutes(time))| >= 3;
    }
  }
}
