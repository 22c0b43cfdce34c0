/** Values shared by every part of the model: optional values, the Python
    exceptions the pipeline can raise, and prices as exact reals with an
    explicit not-a-number sentinel in place of numpy's nan. */
module Common {

  datatype Option<T> = None | Some(value: T)

  /** The Python exceptions that escape (or are caught by) the modelled code. */
  datatype Error =
    | IndexError         // a list subscript out of range, `re.findall(..)[0]` on no match
    | ValueError         // `range(..)` with a zero step
    | ZeroDivisionError  // a float division by zero
    | RequestError       // `requests.get` raised (network failure)
    | AttributeError     // a method called on None or on a non-dict
    | JsonDecodeError    // `json.load` of a malformed checkpoint file

  /** The outcome of a call that may raise. */
  datatype Result<T> = Ok(value: T) | Err(error: Error)

  /** A Python float in the pipeline: an exact real or nan. */
  datatype Num = Value(v: real) | NaN

  /** Python's float division `x / y`: division by zero raises even for nan,
      nan on either side gives nan. */
  function Divide(x: Num, y: Num): (r: Result<Num>)
    ensures r.Err? <==> y == Value(0.0)
    ensures r.Ok? && x.Value? && y.Value? ==> r.value == Value(x.v / y.v)
    ensures r.Ok? && (x.NaN? || y.NaN?) ==> r.value == NaN
  {
    if y == Value(0.0) then Err(ZeroDivisionError)
    else if x.NaN? || y.NaN? then Ok(NaN)
    else Ok(Value(x.v / y.v))
  }

  /** `idx` lists, in increasing order, exactly the positions of `xs` whose
      element satisfies `p`, and `r` holds those elements in that order. */
  ghost predicate FilterIndices<T>(r: seq<T>, xs: seq<T>, p: T -> bool, idx: seq<nat>) {
    && |idx| == |r|
    && (forall k :: 0 <= k < |idx| ==> idx[k] < |xs| && r[k] == xs[idx[k]] && p(xs[idx[k]]))
    && (forall k, l :: 0 <= k < l < |idx| ==> idx[k] < idx[l])
    && (forall i :: 0 <= i < |xs| && p(xs[i]) ==> i in idx)
  }

  /** `r` is `[x for x in xs if p(x)]`: the elements of `xs` that satisfy
      `p`, each once, in their order in `xs`. */
  ghost predicate IsFilter<T>(r: seq<T>, xs: seq<T>, p: T -> bool) {
    exists idx :: FilterIndices(r, xs, p, idx)
  }

  lemma FilterEmpty<T>(p: T -> bool)
    ensures IsFilter([], [], p)
  {
    assert FilterIndices([], [], p, []);
  }

  /** A non-empty sequence is its front followed by its last element. */
  lemma SnocSplit<T>(xs: seq<T>)
    requires xs != []
    ensures xs == xs[..|xs| - 1] + [xs[|xs| - 1]]
  {
  }

  lemma FilterSame<T>(r: seq<T>, xs: seq<T>, r': seq<T>, xs': seq<T>, p: T -> bool)
    requires IsFilter(r, xs, p) && r == r' && xs == xs'
    ensures IsFilter(r', xs', p)
  {
  }

  /** Filtering one more element appends it exactly when it passes. */
  lemma FilterSnoc<T>(r: seq<T>, xs: seq<T>, p: T -> bool, x: T)
    requires IsFilter(r, xs, p)
    ensures IsFilter(if p(x) then r + [x] else r, xs + [x], p)
  {
    var idx: seq<nat> :| FilterIndices(r, xs, p, idx);
    if p(x) {
      FilterKeep(r, xs, p, x, idx);
    } else {
      FilterSkip(r, xs, p, x, idx);
    }
  }

  lemma FilterKeep<T>(r: seq<T>, xs: seq<T>, p: T -> bool, x: T, idx: seq<nat>)
    requires FilterIndices(r, xs, p, idx) && p(x)
    ensures FilterIndices(r + [x], xs + [x], p, idx + [|xs|])
  {
    var ys, r', idx' := xs + [x], r + [x], idx + [|xs|];
    forall k | 0 <= k < |idx'|
      ensures idx'[k] < |ys| && r'[k] == ys[idx'[k]] && p(ys[idx'[k]])
    {
      if k < |idx| {
        assert idx'[k] == idx[k] && r'[k] == r[k] && ys[idx[k]] == xs[idx[k]];
      }
    }
    forall k, l | 0 <= k < l < |idx'|
      ensures idx'[k] < idx'[l]
    {
      assert idx'[k] == idx[k];
      if l < |idx| {
        assert idx'[l] == idx[l];
      }
    }
    forall i | 0 <= i < |ys| && p(ys[i])
      ensures i in idx'
    {
      if i < |xs| {
        assert ys[i] == xs[i];
        var k :| 0 <= k < |idx| && idx[k] == i;
        assert idx'[k] == i;
      } else {
        assert idx'[|idx|] == i;
      }
    }
  }

  lemma FilterSkip<T>(r: seq<T>, xs: seq<T>, p: T -> bool, x: T, idx: seq<nat>)
    requires FilterIndices(r, xs, p, idx) && !p(x)
    ensures FilterIndices(r, xs + [x], p, idx)
  {
    var ys := xs + [x];
    forall k | 0 <= k < |idx|
      ensures idx[k] < |ys| && r[k] == ys[idx[k]] && p(ys[idx[k]])
    {
      assert ys[idx[k]] == xs[idx[k]];
    }
    forall i | 0 <= i < |ys| && p(ys[i])
      ensures i in idx
    {
      assert i < |xs| && ys[i] == xs[i];
    }
  }

  /** A filter holds exactly the elements that pass. */
  lemma FilterMembers<T>(r: seq<T>, xs: seq<T>, p: T -> bool)
    requires IsFilter(r, xs, p)
    ensures forall x :: x in r <==> x in xs && p(x)
  {
    var idx: seq<nat> :| FilterIndices(r, xs, p, idx);
    forall x
      ensures x in r <==> x in xs && p(x)
    {
      if x in r {
        var k :| 0 <= k < |r| && r[k] == x;
        assert xs[idx[k]] == x;
      }
      if x in xs && p(x) {
        var i :| 0 <= i < |xs| && xs[i] == x;
        assert i in idx;
        var k :| 0 <= k < |idx| && idx[k] == i;
        assert r[k] == x;
      }
    }
  }
}
