/** Python's `int(..)` and `float(..)` on strings of digits, and
    `round(x, 2)`, on exact reals. */
module Numbers {
  import opened Common
  import opened Text
  import opened Regex

  function DigitValue(c: char): nat
    requires IsDigit(c)
  {
    c as int - '0' as int
  }

  /** `int(s)` for a string of ASCII digits. */
  function DigitsValue(s: string): nat
    requires AllDigits(s)
  {
    if s == [] then 0 else 10 * DigitsValue(s[..|s| - 1]) + DigitValue(s[|s| - 1])
  }

  lemma DigitsValueSnoc(s: string, c: char)
    requires AllDigits(s) && IsDigit(c)
    ensures AllDigits(s + [c]) && DigitsValue(s + [c]) == 10 * DigitsValue(s) + DigitValue(c)
  {
    assert (s + [c])[..|s + [c]| - 1] == s;
  }

  function Pow10(n: nat): (p: nat)
    ensures p > 0
  {
    if n == 0 then 1 else 10 * Pow10(n - 1)
  }

  /** `d1...dk.f1...fm` read as a decimal number. */
  function DecimalValue(whole: string, fraction: string): real
    requires AllDigits(whole) && AllDigits(fraction)
  {
    DigitsValue(whole) as real + DigitsValue(fraction) as real / Pow10(|fraction|) as real
  }

  /** A decimal without fraction digits is its whole part. */
  lemma DecimalNoFraction(whole: string)
    requires AllDigits(whole)
    ensures DecimalValue(whole, []) == DigitsValue(whole) as real
  {
  }

  /** The strings `[0-9]+(\.[0-9]*)?`: the only ones the pipeline passes to `float(..)`. */
  predicate IsDecimal(s: string) {
    var k := DigitRun(s);
    0 < k && (k == |s| || (s[k] == '.' && AllDigits(s[k + 1..])))
  }

  /** `float(s)` on the strings it is given here; None marks the ValueError
      it raises for anything else. */
  function ParseFloat(s: string): (r: Option<real>)
    ensures r.Some? <==> IsDecimal(s)
    ensures r.Some? && AllDigits(s) ==> r.value == DigitsValue(s) as real
    ensures r.Some? && !AllDigits(s) ==>
      exists k :: 0 < k < |s| && s[k] == '.' && AllDigits(s[..k]) && AllDigits(s[k + 1..]) &&
        r.value == DecimalValue(s[..k], s[k + 1..])
  {
    var k := DigitRun(s);
    if k == 0 then None
    else if k == |s| then
      assert s[..k] == s;
      Some(DigitsValue(s) as real)
    else if s[k] == '.' && AllDigits(s[k + 1..]) then
      assert !AllDigits(s) by { assert !IsDigit(s[k]); }
      Some(DecimalValue(s[..k], s[k + 1..]))
    else None
  }

  /** Reading the digits of `a` followed by those of `b`. */
  lemma {:induction false} DigitsValueAppend(a: string, b: string)
    requires AllDigits(a) && AllDigits(b)
    ensures AllDigits(a + b) && DigitsValue(a + b) == DigitsValue(a) * Pow10(|b|) + DigitsValue(b)
  {
    if b == [] {
      assert a + b == a;
    } else {
      var b', c := b[..|b| - 1], b[|b| - 1];
      DigitsValueAppend(a, b');
      assert a + b == (a + b') + [c] && b == b' + [c];
      DigitsValueSnoc(a + b', c);
      DigitsValueSnoc(b', c);
      ShiftDigit(DigitsValue(a), Pow10(|b'|), DigitsValue(b'), DigitValue(c));
    }
  }

  lemma ShiftDigit(x: int, p: int, y: int, d: int)
    ensures 10 * (x * p + y) + d == x * (10 * p) + (10 * y + d)
  {
  }

  /** `x` is a whole number of hundredths. */
  predicate IsCents(x: real) {
    (x * 100.0).Floor as real == x * 100.0
  }

  /** `round(x, 2)`: the nearest multiple of 0.01, ties to the even
      multiple.  Python rounds the binary double closest to `x`; this rounds
      the exact value. */
  function Round2(x: real): (r: real)
    ensures IsCents(r)
    ensures r - x <= 0.005 && x - r <= 0.005
    ensures IsCents(x) ==> r == x
  {
    var y := x * 100.0;
    var n := y.Floor;
    var f := y - n as real;
    var m := if f < 0.5 then n else if f > 0.5 then n + 1 else if n % 2 == 0 then n else n + 1;
    NearestCents(x, y, m);
    assert IsCents(x) ==> m as real == y;
    m as real / 100.0
  }

  /** A whole number `m` of hundredths within half a unit of `100 * x` is
      within half a cent of `x`. */
  lemma NearestCents(x: real, y: real, m: int)
    requires y == x * 100.0 && -0.5 <= m as real - y <= 0.5
    ensures IsCents(m as real / 100.0)
    ensures m as real / 100.0 - x <= 0.005 && x - m as real / 100.0 <= 0.005
    ensures m as real == y ==> m as real / 100.0 == x
  {
    var r := m as real / 100.0;
    assert r * 100.0 == m as real;
    assert r - x == (m as real - y) / 100.0;
  }

  /** `round(v, 2)` on a pipeline float: nan stays nan. */
  function RoundNum(v: Num): Num {
    match v
    case NaN => NaN
    case Value(x) => Value(Round2(x))
  }
}
