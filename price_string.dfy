/** The locale-ambiguous price normaliser shared by `parse_app_price`
    (Scripts/transformers/steam_prices_transformer.py) and
    `get_country_prices` (Scripts/extract.py).  The first numeric run of the
    price text is read with the dot as thousands separator; when that value,
    divided by the rate, falls outside [0.1, 100] it is read again with the
    dot as decimal point, and that second value is kept unchecked. */
module PriceString {
  import opened Common
  import opened Text
  import opened Regex
  import opened Numbers

  /** The separator class of `[0-9]+[,\. ]?[0-9]*`. */
  const PriceSeparators: set<char> := {',', '.', ' '}

  /** `re.findall(r"[0-9]+[,\. ]?[0-9]*", s)[0]`, None when there is no match. */
  function PriceRun(s: string): (r: Option<string>)
    ensures r.None? <==> NoDigit(s)
  {
    FirstRun(s, PriceSeparators)
  }

  /** `m.replace(" ", "").replace(".", "").replace(",", ".")`. */
  function ThousandsDotReading(m: string): string {
    Replace(Remove(Remove(m, ' '), '.'), ',', '.')
  }

  /** `m.replace(" ", "").replace(",", "")`. */
  function DecimalDotReading(m: string): string {
    Remove(Remove(m, ' '), ',')
  }

  /** `not (x > 100 or x < 0.1)`: the plausibility envelope. */
  predicate InEnvelope(x: real) {
    0.1 <= x <= 100.0
  }

  /** The choice between the two readings: the first one over the rate when
      that lands in the envelope, otherwise the second one over the rate,
      unchecked. */
  function EnvelopeRule(first: real, second: real, rate: real): real
    requires rate != 0.0
  {
    if InEnvelope(first / rate) then first / rate else second / rate
  }

  /** The price in the rate's currency, or NaN when the text has no digit,
      the rate is missing (None: a TypeError) or zero (a ZeroDivisionError),
      or the rate is nan. */
  function Normalise(priceStr: string, rate: Option<Num>): Num {
    match PriceRun(priceStr)
    case None => NaN
    case Some(m) => ConvertRun(m, rate)
  }

  /** The two readings of the run `m` divided by the rate. */
  function ConvertRun(m: string, rate: Option<Num>): Num {
    if rate.None? || rate.value.NaN? || rate.value.v == 0.0 then NaN
    else
      var x := rate.value.v;
      match ParseFloat(ThousandsDotReading(m))
      case None => NaN
      case Some(first) =>
        if InEnvelope(first / x) then Value(first / x)
        else
          match ParseFloat(DecimalDotReading(m))
          case None => NaN
          case Some(second) => Value(second / x)
  }

  /** Value of the first reading of the run `whole sep fraction` (`sep`
      absent when `fraction` is empty and no separator was matched). */
  function FirstReadingValue(whole: string, sep: Option<char>, fraction: string): real
    requires AllDigits(whole) && AllDigits(fraction)
  {
    if sep == Some(',') then DecimalValue(whole, fraction) else DigitsValue(whole + fraction) as real
  }

  /** Value of the second reading of the same run. */
  function SecondReadingValue(whole: string, sep: Option<char>, fraction: string): real
    requires AllDigits(whole) && AllDigits(fraction)
  {
    if sep == Some('.') then DecimalValue(whole, fraction) else DigitsValue(whole + fraction) as real
  }

  function SepString(sep: Option<char>): string {
    match sep
    case None => []
    case Some(c) => [c]
  }

  lemma AllDigitsAppend(a: string, b: string)
    requires AllDigits(a) && AllDigits(b)
    ensures AllDigits(a + b)
  {
  }

  lemma DigitsHaveNo(a: string, c: char)
    requires AllDigits(a) && !IsDigit(c)
    ensures c !in a
  {
  }

  lemma DigitsReadings(w: string)
    requires |w| > 0 && AllDigits(w)
    ensures Remove(w, ' ') == w && Remove(w, '.') == w && Remove(w, ',') == w
    ensures Replace(w, ',', '.') == w
    ensures ThousandsDotReading(w) == w && DecimalDotReading(w) == w
    ensures ParseFloat(w) == Some(DigitsValue(w) as real)
  {
    DigitsHaveNo(w, ' '); DigitsHaveNo(w, '.'); DigitsHaveNo(w, ',');
    RemoveAbsent(w, ' '); RemoveAbsent(w, '.'); RemoveAbsent(w, ',');
    ReplaceAbsent(w, ',', '.');
  }

  /** `Remove` of `c` from `whole + [s] + fraction` when only the middle may be `c`. */
  lemma RemoveAround(whole: string, s: char, fraction: string, c: char)
    requires AllDigits(whole) && AllDigits(fraction) && !IsDigit(c)
    ensures Remove(whole + [s] + fraction, c) == whole + (if s == c then [] else [s]) + fraction
  {
    DigitsHaveNo(whole, c); DigitsHaveNo(fraction, c);
    RemoveAbsent(whole, c); RemoveAbsent(fraction, c);
    RemoveAppend(whole + [s], fraction, c);
    RemoveAppend(whole, [s], c);
    assert Remove([s], c) == if s == c then [] else [s];
  }

  lemma SpaceReadings(whole: string, fraction: string)
    requires |whole| > 0 && AllDigits(whole) && AllDigits(fraction)
    ensures ThousandsDotReading(whole + [' '] + fraction) == whole + fraction
    ensures DecimalDotReading(whole + [' '] + fraction) == whole + fraction
  {
    RemoveAround(whole, ' ', fraction, ' ');
    assert whole + [] + fraction == whole + fraction;
    AllDigitsAppend(whole, fraction);
    DigitsReadings(whole + fraction);
  }

  lemma DotReadings(whole: string, fraction: string)
    requires |whole| > 0 && AllDigits(whole) && AllDigits(fraction)
    ensures ThousandsDotReading(whole + ['.'] + fraction) == whole + fraction
    ensures DecimalDotReading(whole + ['.'] + fraction) == whole + ['.'] + fraction
  {
    RemoveAround(whole, '.', fraction, ' ');
    RemoveAround(whole, '.', fraction, '.');
    RemoveAround(whole, '.', fraction, ',');
    assert whole + [] + fraction == whole + fraction;
    AllDigitsAppend(whole, fraction);
    DigitsReadings(whole + fraction);
  }

  lemma CommaReadings(whole: string, fraction: string)
    requires |whole| > 0 && AllDigits(whole) && AllDigits(fraction)
    ensures ThousandsDotReading(whole + [','] + fraction) == whole + ['.'] + fraction
    ensures DecimalDotReading(whole + [','] + fraction) == whole + fraction
  {
    RemoveAround(whole, ',', fraction, ' ');
    RemoveAround(whole, ',', fraction, '.');
    RemoveAround(whole, ',', fraction, ',');
    assert whole + [] + fraction == whole + fraction;
    ReplaceAppendPoint(whole, fraction);
    AllDigitsAppend(whole, fraction);
    DigitsReadings(whole + fraction);
  }

  /** Both readings of every run parse, and they mean: a comma is the
      decimal point for the first reading only, a dot for the second only,
      and a space is dropped by both. */
  lemma ReadingValues(whole: string, sep: Option<char>, fraction: string)
    requires |whole| > 0 && AllDigits(whole) && AllDigits(fraction)
    requires sep.Some? ==> sep.value in PriceSeparators
    requires sep.None? ==> fraction == []
    ensures ParseFloat(ThousandsDotReading(whole + SepString(sep) + fraction)) ==
            Some(FirstReadingValue(whole, sep, fraction))
    ensures ParseFloat(DecimalDotReading(whole + SepString(sep) + fraction)) ==
            Some(SecondReadingValue(whole, sep, fraction))
  {
    var m := whole + SepString(sep) + fraction;
    var first := FirstReadingValue(whole, sep, fraction);
    var second := SecondReadingValue(whole, sep, fraction);
    AllDigitsAppend(whole, fraction);
    var wf := whole + fraction;
    DigitsReadings(wf);
    var plain := ParseFloat(wf);
    assert plain == Some(DigitsValue(wf) as real);
    if sep.None? {
      assert m == wf;
    } else if sep.value == ' ' {
      assert m == whole + [' '] + fraction;
      SpaceReadings(whole, fraction);
      assert first == DigitsValue(wf) as real && second == first;
    } else if sep.value == '.' {
      assert m == whole + ['.'] + fraction;
      DotReadings(whole, fraction);
      PointedDecimal(whole, fraction);
      assert first == DigitsValue(wf) as real;
      assert second == DecimalValue(whole, fraction);
    } else {
      assert m == whole + [','] + fraction;
      CommaReadings(whole, fraction);
      PointedDecimal(whole, fraction);
      assert second == DigitsValue(wf) as real;
      assert first == DecimalValue(whole, fraction);
    }
  }

  /** The first numeric run of `pre whole sep fraction post`, when `pre` has
      no digit and `post` cannot extend the match. */
  lemma PriceRunOf(pre: string, whole: string, sep: Option<char>, fraction: string, post: string)
    requires NoDigit(pre) && |whole| > 0 && AllDigits(whole) && AllDigits(fraction)
    requires sep.Some? ==> sep.value in PriceSeparators
    requires sep.None? ==> fraction == [] && (post != [] ==> post[0] !in PriceSeparators)
    requires post != [] ==> !IsDigit(post[0])
    ensures PriceRun(pre + whole + SepString(sep) + fraction + post) == Some(whole + SepString(sep) + fraction)
  {
    var m := whole + SepString(sep) + fraction;
    var s := pre + m + post;
    ConcatShape(pre, whole, SepString(sep), fraction, post);
    var k, e := |pre|, |pre| + |m|;
    assert s[..k] == pre;
    assert s[k..e] == m;
    assert m[..|whole|] == whole;
    assert s[k] == whole[0];
    if sep.Some? {
      assert m[|whole|] == sep.value;
      assert m[|whole| + 1..] == fraction;
    }
    if e < |s| {
      assert s[e] == post[0];
      if sep.Some? {
        assert !AllDigits(m) by { assert m[|whole|] == sep.value; }
      }
    }
    FirstRunFromParts(s, PriceSeparators, k, e, |whole|);
    assert FirstRun(s, PriceSeparators) == Some(m);
  }

  lemma ConcatShape(a: string, b: string, c: string, d: string, e: string)
    ensures a + b + c + d + e == a + (b + c + d) + e
  {
  }

  /** The normaliser on a text whose first numeric run is `whole sep
      fraction`: the first reading is kept when it lands in the envelope,
      otherwise the second reading is returned, whatever its value. */
  lemma NormaliseOfRun(priceStr: string, whole: string, sep: Option<char>, fraction: string, rate: real)
    requires |whole| > 0 && AllDigits(whole) && AllDigits(fraction)
    requires sep.Some? ==> sep.value in PriceSeparators
    requires sep.None? ==> fraction == []
    requires PriceRun(priceStr) == Some(whole + SepString(sep) + fraction)
    requires rate != 0.0
    ensures Normalise(priceStr, Some(Value(rate))) ==
      Value(EnvelopeRule(FirstReadingValue(whole, sep, fraction), SecondReadingValue(whole, sep, fraction), rate))
  {
    ReadingValues(whole, sep, fraction);
  }

  /** Every numeric run splits as `whole sep fraction`. */
  lemma RunParts(m: string) returns (whole: string, sep: Option<char>, fraction: string)
    requires IsRun(m, PriceSeparators)
    ensures |whole| > 0 && AllDigits(whole) && AllDigits(fraction)
    ensures sep.Some? ==> sep.value in PriceSeparators
    ensures sep.None? ==> fraction == []
    ensures m == whole + SepString(sep) + fraction
  {
    var d :| 0 < d <= |m| && AllDigits(m[..d]) && (d == |m| || (m[d] in PriceSeparators && AllDigits(m[d + 1..])));
    whole := m[..d];
    if d == |m| {
      sep, fraction := None, [];
      assert m == whole;
    } else {
      sep, fraction := Some(m[d]), m[d + 1..];
      assert m == m[..d] + [m[d]] + m[d + 1..];
    }
  }

  /** The normaliser gives NaN exactly when the text has no digit or the rate
      is missing, nan or zero; every other failure mode is impossible. */
  lemma NormaliseNaN(priceStr: string, rate: Option<Num>)
    ensures Normalise(priceStr, rate).NaN? <==>
      NoDigit(priceStr) || rate.None? || rate == Some(NaN) || rate == Some(Value(0.0))
  {
    match PriceRun(priceStr)
    case None =>
    case Some(m) =>
      RunReadingsParse(m);
      ConvertRunNaN(m, rate);
  }

  /** Both readings of a run are valid `float(..)` input. */
  lemma RunReadingsParse(m: string)
    requires IsRun(m, PriceSeparators)
    ensures ParseFloat(ThousandsDotReading(m)).Some? && ParseFloat(DecimalDotReading(m)).Some?
  {
    var whole, sep, fraction := RunParts(m);
    ReadingValues(whole, sep, fraction);
  }

  lemma ConvertRunNaN(m: string, rate: Option<Num>)
    requires ParseFloat(ThousandsDotReading(m)).Some? && ParseFloat(DecimalDotReading(m)).Some?
    ensures ConvertRun(m, rate).NaN? <==> rate.None? || rate == Some(NaN) || rate == Some(Value(0.0))
  {
    if rate.Some? && rate.value.Value? && rate.value.v != 0.0 {
      var x := rate.value.v;
      var first := ParseFloat(ThousandsDotReading(m)).value;
      var second := ParseFloat(DecimalDotReading(m)).value;
      assert ConvertRun(m, rate) == if InEnvelope(first / x) then Value(first / x) else Value(second / x);
    }
  }

  lemma ReplaceAppendPoint(whole: string, fraction: string)
    requires AllDigits(whole) && AllDigits(fraction)
    ensures Replace(whole + [','] + fraction, ',', '.') == whole + ['.'] + fraction
  {
    var s := whole + [','] + fraction;
    var t := whole + ['.'] + fraction;
    assert forall i :: 0 <= i < |s| ==> (if s[i] == ',' then '.' else s[i]) == t[i] by {
      forall i | 0 <= i < |s|
        ensures (if s[i] == ',' then '.' else s[i]) == t[i]
      {
        if i < |whole| {
          assert s[i] == whole[i] && t[i] == whole[i];
        } else if i > |whole| {
          assert s[i] == fraction[i - |whole| - 1] && t[i] == fraction[i - |whole| - 1];
        }
      }
    }
  }

  lemma PointedDecimal(whole: string, fraction: string)
    requires |whole| > 0 && AllDigits(whole) && AllDigits(fraction)
    ensures ParseFloat(whole + ['.'] + fraction) == Some(DecimalValue(whole, fraction))
  {
    var s := whole + ['.'] + fraction;
    assert s[..|whole|] == whole;
    assert s[|whole| + 1..] == fraction;
    assert s[|whole|] == '.';
    Regex.DigitRunUnique(s, |whole|);
  }

  /** Only the first separator belongs to the run: whatever follows a
      second separator is ignored, so "1.234,56" is read from "1.234". */
  lemma FirstSeparatorOnly(whole: string, s1: char, fraction: string, s2: char, rest: string)
    requires |whole| > 0 && AllDigits(whole) && AllDigits(fraction)
    requires s1 in PriceSeparators && !IsDigit(s2)
    ensures PriceRun(whole + [s1] + fraction + [s2] + rest) == Some(whole + [s1] + fraction)
  {
    PriceRunOf("", whole, Some(s1), fraction, [s2] + rest);
    assert "" + whole + SepString(Some(s1)) + fraction + ([s2] + rest) == whole + [s1] + fraction + [s2] + rest;
  }
}
