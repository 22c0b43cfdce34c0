/** The Python `str` operations the cleaners rely on, on `seq<char>`.
    `strip`, `lstrip` and `rstrip` take a SET of characters, not a prefix or
    suffix, exactly as Python's do. */
module Text {

  predicate IsDigit(c: char) {
    '0' <= c <= '9'
  }

  predicate NoDigit(s: string) {
    forall i :: 0 <= i < |s| ==> !IsDigit(s[i])
  }

  /** `s.replace(c, "")` for a one-character `c`. */
  function Remove(s: string, c: char): (r: string)
    ensures c !in r
    ensures forall x :: x != c ==> (x in r <==> x in s)
  {
    if s == [] then []
    else (if s[0] == c then [] else [s[0]]) + Remove(s[1..], c)
  }

  /** `s.replace(c, d)` for one-character `c` and `d`. */
  function Replace(s: string, c: char, d: char): (r: string)
    ensures |r| == |s|
    ensures forall i :: 0 <= i < |s| ==> r[i] == if s[i] == c then d else s[i]
  {
    if s == [] then []
    else [if s[0] == c then d else s[0]] + Replace(s[1..], c, d)
  }

  lemma RemoveAppend(a: string, b: string, c: char)
    ensures Remove(a + b, c) == Remove(a, c) + Remove(b, c)
  {
    if a != [] {
      assert (a + b)[0] == a[0];
      assert (a + b)[1..] == a[1..] + b;
      RemoveAppend(a[1..], b, c);
      var h := if a[0] == c then [] else [a[0]];
      calc {
        Remove(a + b, c);
        h + Remove(a[1..] + b, c);
        h + (Remove(a[1..], c) + Remove(b, c));
        (h + Remove(a[1..], c)) + Remove(b, c);
      }
    } else {
      assert a + b == b;
    }
  }

  lemma RemoveAbsent(s: string, c: char)
    requires c !in s
    ensures Remove(s, c) == s
  {
    if s != [] {
      RemoveAbsent(s[1..], c);
    }
  }

  lemma ReplaceAbsent(s: string, c: char, d: char)
    requires c !in s
    ensures Replace(s, c, d) == s
  {
  }

  /** `s.lstrip(chars)`: drops the longest prefix made of characters of `chars`. */
  function LStrip(s: string, chars: set<char>): (r: string)
    ensures |r| <= |s| && r == s[|s| - |r|..]
    ensures forall i :: 0 <= i < |s| - |r| ==> s[i] in chars
    ensures r != [] ==> r[0] !in chars
  {
    if s != [] && s[0] in chars then
      var r := LStrip(s[1..], chars);
      assert forall i :: 0 < i < |s| - |r| ==> s[i] == s[1..][i - 1];
      r
    else s
  }

  /** `s.rstrip(chars)`: drops the longest suffix made of characters of `chars`. */
  function RStrip(s: string, chars: set<char>): (r: string)
    ensures r <= s
    ensures forall i :: |r| <= i < |s| ==> s[i] in chars
    ensures r != [] ==> r[|r| - 1] !in chars
  {
    if s != [] && s[|s| - 1] in chars then RStrip(s[..|s| - 1], chars) else s
  }

  /** The characters of `s` before `a` and from `b` on are all in `chars`. */
  predicate StrippedEnds(s: string, a: nat, b: nat, chars: set<char>)
    requires a <= b <= |s|
  {
    (forall k :: 0 <= k < a ==> s[k] in chars) && (forall k :: b <= k < |s| ==> s[k] in chars)
  }

  /** `s.strip(chars)`: both ends. */
  function Strip(s: string, chars: set<char>): (r: string)
    ensures r != [] ==> r[0] !in chars && r[|r| - 1] !in chars
  {
    RStrip(LStrip(s, chars), chars)
  }

  /** `strip(chars)` keeps a slice of `s` and drops the longest prefix and
      the longest suffix made of characters of `chars`. */
  lemma StripSlice(s: string, chars: set<char>)
    ensures exists a, b :: 0 <= a <= b <= |s| && Strip(s, chars) == s[a..b] && StrippedEnds(s, a, b, chars)
  {
    var l := LStrip(s, chars);
    var r := RStrip(l, chars);
    var a := |s| - |l|;
    assert r == s[a..a + |r|];
    assert StrippedEnds(s, a, a + |r|, chars) by {
      assert forall k :: a + |r| <= k < |s| ==> s[k] == l[k - a];
    }
  }

  /** A slice of a slice is a slice. */
  lemma SliceOfSlice(s: string, a1: nat, b1: nat, a2: nat, b2: nat)
    requires a1 <= b1 <= |s| && a2 <= b2 <= b1 - a1
    ensures s[a1..b1][a2..b2] == s[a1 + a2..a1 + b2]
  {
    var t := s[a1..b1];
    forall k | 0 <= k < b2 - a2
      ensures t[a2..b2][k] == s[a1 + a2..a1 + b2][k]
    {
      assert t[a2..b2][k] == t[a2 + k] == s[a1 + a2 + k];
    }
  }

  /** The bounds of the slice `Strip` keeps. */
  lemma StripBounds(s: string, chars: set<char>) returns (a: nat, b: nat)
    ensures a <= b <= |s| && Strip(s, chars) == s[a..b] && StrippedEnds(s, a, b, chars)
  {
    StripSlice(s, chars);
    a, b :| a <= b <= |s| && Strip(s, chars) == s[a..b] && StrippedEnds(s, a, b, chars);
  }

  /** ASCII `str.lower()` / `str.upper()`. */
  function LowerChar(c: char): char {
    if 'A' <= c <= 'Z' then (c as int + 32) as char else c
  }

  function UpperChar(c: char): char {
    if 'a' <= c <= 'z' then (c as int - 32) as char else c
  }

  function Lower(s: string): (r: string)
    ensures |r| == |s| && forall i :: 0 <= i < |s| ==> r[i] == LowerChar(s[i])
  {
    if s == [] then [] else [LowerChar(s[0])] + Lower(s[1..])
  }

  function Upper(s: string): (r: string)
    ensures |r| == |s| && forall i :: 0 <= i < |s| ==> r[i] == UpperChar(s[i])
  {
    if s == [] then [] else [UpperChar(s[0])] + Upper(s[1..])
  }

  predicate NoDuplicates<T(==)>(s: seq<T>) {
    forall i, j :: 0 <= i < j < |s| ==> s[i] != s[j]
  }

  /** `list(set(s))` with the first occurrence of each element kept; a Python
      set has no specified iteration order, so only the elements and their
      distinctness are meaningful. */
  function Dedup(s: seq<string>): (r: seq<string>)
    ensures NoDuplicates(r)
    ensures forall x :: x in r <==> x in s
  {
    if s == [] then []
    else
      var r := Dedup(s[..|s| - 1]);
      assert forall x :: x in s <==> x in s[..|s| - 1] || x == s[|s| - 1] by {
        assert s == s[..|s| - 1] + [s[|s| - 1]];
      }
      if s[|s| - 1] in r then r else r + [s[|s| - 1]]
  }
}
