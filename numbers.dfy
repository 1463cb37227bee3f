/**
 * The JavaScript number built-ins the parsers call: `parseFloat`,
 * `Math.round`, `Number.prototype.toFixed(3)` and `Number.prototype.toString`.
 * Numbers are exact reals here, an idealisation of IEEE doubles; `NaN`, the
 * only special value the parsers test for, is `None`.
 */
module Numbers {
  import opened Wrappers
  import opened Scan

  predicate AllDigits(s: string)
  {
    forall k :: 0 <= k < |s| ==> IsDigit(s[k])
  }

  function DigitValue(c: char): (d: nat)
    requires IsDigit(c)
    ensures d < 10
  {
    c as int - '0' as int
  }

  function DigitChar(d: nat): (c: char)
    requires d < 10
    ensures IsDigit(c) && DigitValue(c) == d
  {
    ('0' as int + d) as char
  }

  /** A run of digits inside a string, cut out, is a string of digits. */
  lemma AllInDigits(s: string, lo: nat, hi: nat)
    requires AllIn(s, lo, hi, Digit)
    ensures AllDigits(s[lo..hi])
  {
    forall k | 0 <= k < hi - lo ensures IsDigit(s[lo..hi][k]) {
      assert s[lo..hi][k] == s[lo + k];
    }
  }

  /** The value of a string of decimal digits, most significant first. */
  function DigitsValue(s: string): nat
    requires AllDigits(s)
  {
    if s == [] then 0 else DigitsValue(s[..|s| - 1]) * 10 + DigitValue(s[|s| - 1])
  }

  function Pow10(n: nat): (p: nat)
    ensures p >= 1
  {
    if n == 0 then 1 else 10 * Pow10(n - 1)
  }

  /** `n.toString()` for a non-negative integer: its decimal digits without leading zeros. */
  function NatToString(n: nat): (r: string)
    ensures |r| >= 1 && AllDigits(r)
    ensures r[0] == '0' ==> r == "0"
    ensures DigitsValue(r) == n
  {
    if n < 10 then [DigitChar(n)]
    else
      var r := NatToString(n / 10) + [DigitChar(n % 10)];
      assert r[..|r| - 1] == NatToString(n / 10);
      r
  }

  /** The value of the digits after a decimal point. */
  function FractionValue(t: string): (v: real)
    requires AllDigits(t)
  {
    DigitsValue(t) as real / Pow10(|t|) as real
  }

  /**
   * `parseFloat` on strings made of digits, `.` and other characters: the
   * longest prefix of the form `digits[.digits]`, `digits.` or `.digits`,
   * or `NaN` when there is none.
   */
  function ParseFloat(s: string): (r: Option<real>)
    ensures r.Some? ==> r.value >= 0.0
  {
    var i := RunEnd(s, 0, Digit);
    assert AllDigits(s[..i]);
    if i < |s| && s[i] == '.' then
      var j := RunEnd(s, i + 1, Digit);
      assert AllDigits(s[i + 1..j]);
      if i == 0 && j == 1 then None
      else Some(DigitsValue(s[..i]) as real + FractionValue(s[i + 1..j]))
    else if i == 0 then None
    else Some(DigitsValue(s[..i]) as real)
  }

  /** `parseFloat` gives `NaN` exactly when the string starts with neither a digit nor a point and a digit. */
  lemma ParseFloatNaN(s: string)
    ensures ParseFloat(s).None? <==> !(|s| > 0 && (IsDigit(s[0]) || (s[0] == '.' && |s| > 1 && IsDigit(s[1]))))
  {
  }

  /** `parseFloat` stops at a character that is neither a digit nor a point, so a unit appended after one changes nothing. */
  lemma ParseFloatIgnoresSuffix(r: string, t: string)
    requires |t| > 0 && !IsDigit(t[0]) && t[0] != '.'
    ensures ParseFloat(r + t) == ParseFloat(r)
  {
    var s := r + t;
    RunEndAppend(r, t, 0, Digit);
    var i := RunEnd(r, 0, Digit);
    assert s[..i] == r[..i];
    if i < |r| {
      assert s[i] == r[i];
      if r[i] == '.' {
        RunEndAppend(r, t, i + 1, Digit);
        var j := RunEnd(r, i + 1, Digit);
        assert s[i + 1..j] == r[i + 1..j];
      }
    } else {
      assert s[i] == t[0];
    }
  }

  lemma ParseInteger(a: string)
    requires |a| >= 1 && AllDigits(a)
    ensures ParseFloat(a) == Some(DigitsValue(a) as real)
  {
    RunEndUnique(a, 0, |a|, Digit);
    assert a[..|a|] == a;
  }

  lemma ParseDecimal(a: string, b: string)
    requires |a| >= 1 && AllDigits(a) && AllDigits(b)
    ensures ParseFloat(a + "." + b) == Some(DigitsValue(a) as real + FractionValue(b))
  {
    var s := a + "." + b;
    assert s[..|a|] == a;
    assert s[|a| + 1..] == b;
    ParseSplit(s, |a|, a, b);
  }

  /** `ParseFloat` of a string cut at a point into the digits `a` and the digits `b`. */
  lemma ParseSplit(s: string, n: nat, a: string, b: string)
    requires 0 < n < |s| && s[n] == '.' && s[..n] == a && s[n + 1..] == b
    requires AllDigits(a) && AllDigits(b)
    ensures ParseFloat(s) == Some(DigitsValue(a) as real + FractionValue(b))
  {
    assert AllIn(s, 0, n, Digit) by {
      assert forall k :: 0 <= k < n ==> s[k] == a[k];
    }
    assert AllIn(s, n + 1, |s|, Digit) by {
      assert forall k :: n + 1 <= k < |s| ==> s[k] == b[k - n - 1];
    }
    RunEndUnique(s, 0, n, Digit);
    RunEndUnique(s, n + 1, |s|, Digit);
    assert s[n + 1..|s|] == b;
    ParseFloatDecimal(s, n, |s|);
  }

  /** How `ParseFloat` reads digits, a point and digits, given where the two runs end. */
  lemma ParseFloatDecimal(s: string, i: nat, j: nat)
    requires 0 < i < |s| && s[i] == '.'
    requires i == RunEnd(s, 0, Digit) && j == RunEnd(s, i + 1, Digit)
    ensures AllDigits(s[..i]) && AllDigits(s[i + 1..j])
    ensures ParseFloat(s) == Some(DigitsValue(s[..i]) as real + FractionValue(s[i + 1..j]))
  {
  }

  /** `Math.round`: the integer nearest to `x`, halves rounded up. */
  function Round(x: real): (n: int)
    ensures n as real - 0.5 <= x < n as real + 0.5
  {
    (x + 0.5).Floor
  }

  /** Three digits, with leading zeros, of a number below 1000. */
  function Pad3(f: nat): (t: string)
    requires f < 1000
    ensures |t| == 3 && AllDigits(t) && DigitsValue(t) == f
  {
    var a, b, c := f / 100, f / 10 % 10, f % 10;
    assert f == a * 100 + b * 10 + c;
    var t := [DigitChar(a), DigitChar(b), DigitChar(c)];
    assert t[..2][..1] == [t[0]] && t[..2] == [t[0], t[1]];
    assert DigitsValue([t[0]]) == a;
    assert DigitsValue([t[0], t[1]]) == a * 10 + b;
    assert (a * 10 + b) * 10 + c == f;
    t
  }

  /** The number of thousandths `toFixed(3)` keeps of a non-negative `x`. */
  function Thousandths(x: real): (n: nat)
    requires x >= 0.0
    ensures -0.0005 < n as real / 1000.0 - x <= 0.0005
  {
    var y := x * 1000.0;
    var n := Round(y);
    assert n as real - 0.5 <= y < n as real + 0.5;
    assert n as real / 1000.0 - x == (n as real - y) / 1000.0;
    n
  }

  /** `x.toFixed(3)` for a non-negative `x`: the integer part, a point and exactly three decimals. */
  function FixedNonNegative(x: real): (r: string)
    requires x >= 0.0
    ensures ParseFloat(r) == Some(Thousandths(x) as real / 1000.0)
    ensures |r| >= 5 && r[|r| - 4] == '.'
    ensures AllDigits(r[..|r| - 4]) && AllDigits(r[|r| - 3..])
  {
    var n := Thousandths(x);
    var q, f := n / 1000, n % 1000;
    var whole, frac := NatToString(q), Pad3(f);
    ParseDecimal(whole, frac);
    assert Pow10(3) == 1000;
    assert FractionValue(frac) == f as real / 1000.0;
    assert q as real + f as real / 1000.0 == n as real / 1000.0;
    var r := whole + "." + frac;
    assert r[|r| - 4] == '.';
    assert r[..|r| - 4] == whole && r[|r| - 3..] == frac;
    r
  }

  /** The digit groups of a text keep their places behind a minus sign. */
  lemma SignedSlices(t: string)
    requires |t| >= 5
    ensures var r := "-" + t; r[|r| - 4] == t[|t| - 4] && r[|r| - 3..] == t[|t| - 3..] && r[1..|r| - 4] == t[..|t| - 4]
  {
  }

  /** `x.toFixed(3)`: a minus sign for a negative `x`, then the digits of its magnitude. */
  function ToFixed3(x: real): (r: string)
    ensures x >= 0.0 ==> ParseFloat(r) == Some(Thousandths(x) as real / 1000.0)
    ensures x < 0.0 ==> r == "-" + FixedNonNegative(-x)
    ensures |r| >= 5 && r[|r| - 4] == '.' && AllDigits(r[|r| - 3..])
    ensures x >= 0.0 ==> AllDigits(r[..|r| - 4])
    ensures x < 0.0 ==> r[0] == '-' && AllDigits(r[1..|r| - 4])
  {
    if x < 0.0 then
      var t := FixedNonNegative(-x);
      SignedSlices(t);
      "-" + t
    else FixedNonNegative(x)
  }

  /** The shortest decimals of `f` thousandths, `0 < f < 1000`: trailing zeros dropped. */
  function FractionDigits(f: nat): (t: string)
    requires 0 < f < 1000
    ensures 1 <= |t| <= 3 && AllDigits(t) && t[|t| - 1] != '0'
    ensures FractionValue(t) == f as real / 1000.0
  {
    var a, b, c := f / 100, f / 10 % 10, f % 10;
    assert f == a * 100 + b * 10 + c;
    var da, db, dc := DigitChar(a), DigitChar(b), DigitChar(c);
    assert DigitsValue([da]) == a;
    assert [da, db][..1] == [da];
    assert DigitsValue([da, db]) == a * 10 + b;
    if c != 0 then
      var t := [da, db, dc];
      assert t[..2] == [da, db];
      assert DigitsValue(t) == f;
      assert Pow10(3) == 1000;
      t
    else if b != 0 then
      assert Pow10(2) == 100;
      assert (a * 10 + b) as real / 100.0 == f as real / 1000.0;
      [da, db]
    else
      assert Pow10(1) == 10;
      assert a as real / 10.0 == f as real / 1000.0;
      [da]
  }

  /**
   * `x.toString()` for a non-negative number with at most three decimals,
   * given as its count `k` of thousandths: no trailing zeros, and no point
   * at all for an integer.
   */
  function ThousandthsToString(k: nat): (r: string)
    ensures ParseFloat(r) == Some(k as real / 1000.0)
    ensures r[|r| - 1] == '0' ==> '.' !in r
  {
    var q, f := k / 1000, k % 1000;
    if f == 0 then
      ParseInteger(NatToString(q));
      assert q as real == k as real / 1000.0;
      NatToString(q)
    else
      ParseDecimal(NatToString(q), FractionDigits(f));
      assert q as real + f as real / 1000.0 == k as real / 1000.0;
      NatToString(q) + "." + FractionDigits(f)
  }

  /** A whole number of thousandths is what `Math.round` gives back when scaled by 1000. */
  lemma RoundThousandths(k: int)
    ensures Round(k as real / 1000.0 * 1000.0) == k
  {
    assert k as real / 1000.0 * 1000.0 == k as real;
  }

  /**
   * `x.toString()` for the numbers the parsers print, which are whole
   * thousandths (a value rounded with `Math.round(y * 1000) / 1000`): a
   * minus sign for a negative one, then its shortest decimals.
   */
  function NumberToString(x: real): (r: string)
    ensures Round(x * 1000.0) >= 0 && x == Round(x * 1000.0) as real / 1000.0 ==> ParseFloat(r) == Some(x)
  {
    var k := Round(x * 1000.0);
    if k < 0 then "-" + ThousandthsToString(-k)
    else
      ThousandthsToString(k)
  }
}
