/** The regular expressions of the pipeline, all of the shape
    `[0-9]+S?[0-9]*` for a set S of separator characters (S empty gives
    `[0-9]+`), and the first element of `re.findall` with them.  Because both
    trailing parts are optional, the leftmost match starts at the first digit
    and every part is as long as it can be. */
module Regex {
  import opened Common
  import opened Text

  predicate AllDigits(s: string) {
    forall i :: 0 <= i < |s| ==> IsDigit(s[i])
  }

  predicate NoDigitSeparators(seps: set<char>) {
    forall c :: c in seps ==> !IsDigit(c)
  }

  /** `m` has the shape `[0-9]+S?[0-9]*`. */
  predicate IsRun(m: string, seps: set<char>) {
    exists d :: 0 < d <= |m| && AllDigits(m[..d]) && (d == |m| || (m[d] in seps && AllDigits(m[d + 1..])))
  }

  /** No longer match is possible at the end `e` of a match `m` in `s`. */
  predicate Greedy(s: string, e: nat, m: string, seps: set<char>) {
    e < |s| ==> !IsDigit(s[e]) && (AllDigits(m) ==> s[e] !in seps)
  }

  /** Length of the maximal run of digits that starts `s`. */
  function DigitRun(s: string): (k: nat)
    ensures k <= |s| && AllDigits(s[..k])
    ensures k < |s| ==> !IsDigit(s[k])
  {
    if s != [] && IsDigit(s[0]) then
      var k := 1 + DigitRun(s[1..]);
      assert s[..k] == [s[0]] + s[1..][..k - 1];
      k
    else 0
  }

  /** Index of the first digit of `s`. */
  function FirstDigit(s: string): (r: Option<nat>)
    ensures r.None? <==> NoDigit(s)
    ensures r.Some? ==> r.value < |s| && IsDigit(s[r.value]) && NoDigit(s[..r.value])
  {
    if s == [] then None
    else if IsDigit(s[0]) then Some(0)
    else match FirstDigit(s[1..])
      case None => None
      case Some(k) =>
        assert s[..k + 1] == [s[0]] + s[1..][..k];
        Some(k + 1)
  }

  /** Bounds `(start, end)` of the leftmost match of `[0-9]+S?[0-9]*` in `s`:
      it starts at the first digit, nothing before it is a digit, it has the
      shape of the pattern, and it cannot be extended. */
  function FirstRunBounds(s: string, seps: set<char>): (r: Option<(nat, nat)>)
    requires NoDigitSeparators(seps)
    ensures r.None? <==> NoDigit(s)
    ensures r.Some? ==>
      var (k, e) := r.value;
      k < e <= |s| && NoDigit(s[..k]) && IsRun(s[k..e], seps) && Greedy(s, e, s[k..e], seps)
  {
    match FirstDigit(s)
    case None => None
    case Some(k) =>
      var t := s[k..];
      var d := DigitRun(t);
      if d < |t| && t[d] in seps then
        var d2 := DigitRun(t[d + 1..]);
        SeparatedRun(s, seps, k, d, d2);
        Some((k, k + d + 1 + d2))
      else
        PlainRun(s, seps, k, d);
        Some((k, k + d))
  }

  /** The match `digits S digits` from the first digit `k`. */
  lemma SeparatedRun(s: string, seps: set<char>, k: nat, d: nat, d2: nat)
    requires NoDigitSeparators(seps) && k < |s| && IsDigit(s[k])
    requires d == DigitRun(s[k..]) && d < |s| - k && s[k..][d] in seps
    requires d2 == DigitRun(s[k..][d + 1..])
    ensures k + d + 1 + d2 <= |s|
    ensures IsRun(s[k..k + d + 1 + d2], seps) && Greedy(s, k + d + 1 + d2, s[k..k + d + 1 + d2], seps)
  {
    var t := s[k..];
    var u := t[d + 1..];
    var e := k + d + 1 + d2;
    var m := s[k..e];
    assert t[0] == s[k];
    assert m[..d] == t[..d];
    assert m[d + 1..] == u[..d2];
    assert m[d] == t[d];
    assert !AllDigits(m);
    if e < |s| {
      assert s[e] == u[d2];
    }
  }

  /** The match `digits` from the first digit `k`, when no separator
      follows. */
  lemma PlainRun(s: string, seps: set<char>, k: nat, d: nat)
    requires NoDigitSeparators(seps) && k < |s| && IsDigit(s[k])
    requires d == DigitRun(s[k..]) && !(d < |s| - k && s[k..][d] in seps)
    ensures 0 < d && IsRun(s[k..k + d], seps) && Greedy(s, k + d, s[k..k + d], seps)
  {
    var t := s[k..];
    var m := s[k..k + d];
    assert t[0] == s[k];
    assert m[..d] == t[..d];
    assert m == m[..d];
    if k + d < |s| {
      assert s[k + d] == t[d];
    }
  }

  /** First element of `re.findall(r"[0-9]+S?[0-9]*", s)`; None for an empty list. */
  function FirstRun(s: string, seps: set<char>): (r: Option<string>)
    requires NoDigitSeparators(seps)
    ensures r.None? <==> NoDigit(s)
    ensures r.Some? ==> IsRun(r.value, seps)
  {
    match FirstRunBounds(s, seps)
    case None => None
    case Some((k, e)) => Some(s[k..e])
  }

  lemma FirstDigitUnique(s: string, k: nat)
    requires k < |s| && IsDigit(s[k]) && NoDigit(s[..k])
    ensures FirstDigit(s) == Some(k)
  {
    assert !NoDigit(s);
  }

  lemma {:induction false} DigitRunUnique(t: string, d: nat)
    requires d <= |t| && AllDigits(t[..d]) && (d < |t| ==> !IsDigit(t[d]))
    ensures DigitRun(t) == d
  {
    if d > 0 {
      assert t[..d][0] == t[0];
      assert t[1..][..d - 1] == t[..d][1..];
      DigitRunUnique(t[1..], d - 1);
    }
  }

  /** The leftmost-match characterisation determines the match: any bounds
      that satisfy it are the ones `FirstRunBounds` returns. */
  lemma FirstRunBoundsUnique(s: string, seps: set<char>, k: nat, e: nat)
    requires NoDigitSeparators(seps)
    requires k < e <= |s| && NoDigit(s[..k]) && IsRun(s[k..e], seps) && Greedy(s, e, s[k..e], seps)
    ensures FirstRunBounds(s, seps) == Some((k, e))
  {
    var m := s[k..e];
    var d :| 0 < d <= |m| && AllDigits(m[..d]) && (d == |m| || (m[d] in seps && AllDigits(m[d + 1..])));
    assert m[..d][0] == s[k];
    FirstRunFromParts(s, seps, k, e, d);
  }

  lemma FirstRunFromParts(s: string, seps: set<char>, k: nat, e: nat, d: nat)
    requires NoDigitSeparators(seps)
    requires k < e <= |s| && IsDigit(s[k]) && NoDigit(s[..k]) && Greedy(s, e, s[k..e], seps)
    requires 0 < d <= e - k && AllDigits(s[k..e][..d])
    requires d == e - k || (s[k..e][d] in seps && AllDigits(s[k..e][d + 1..]))
    ensures FirstRunBounds(s, seps) == Some((k, e))
  {
    FirstDigitUnique(s, k);
    var t := s[k..];
    FirstRunPartsUnique(s, seps, k, e, d);
    assert DigitRun(t) == d;
    if d < |t| && t[d] in seps {
      DigitRunUnique(t[d + 1..], e - k - d - 1);
      assert DigitRun(t[d + 1..]) == e - k - d - 1;
    } else {
      assert d == e - k;
    }
  }

  lemma FirstRunPartsUnique(s: string, seps: set<char>, k: nat, e: nat, d: nat)
    requires NoDigitSeparators(seps)
    requires k < e <= |s| && Greedy(s, e, s[k..e], seps)
    requires 0 < d <= e - k && AllDigits(s[k..e][..d])
    requires d == e - k || (s[k..e][d] in seps && AllDigits(s[k..e][d + 1..]))
    ensures DigitRun(s[k..]) == d
    ensures d < |s| - k && s[k + d] in seps ==>
      d < e - k && e - k - d - 1 <= |s| - k - d - 1 && AllDigits(s[k + d + 1..][..e - k - d - 1]) &&
      (e - k - d - 1 < |s| - k - d - 1 ==> !IsDigit(s[k + d + 1..][e - k - d - 1]))
    ensures !(d < |s| - k && s[k + d] in seps) ==> d == e - k
  {
    var m := s[k..e];
    var t := s[k..];
    assert m == t[..e - k];
    assert t[..d] == m[..d];
    if d < |t| {
      if d < |m| {
        assert t[d] == m[d];
      } else {
        assert t[d] == s[e];
      }
    }
    DigitRunUnique(t, d);
    if d < |t| && t[d] in seps {
      var u := t[d + 1..];
      var e' := e - k - d - 1;
      assert m[d + 1..] == u[..e'];
      if e' < |u| {
        assert u[e'] == s[e];
        assert !AllDigits(m) by { assert m[d] == t[d]; }
      }
    }
  }
}
