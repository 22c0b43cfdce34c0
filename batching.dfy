/** The index arithmetic of `retrieve_steam_data` (Scripts/transform.py):
    batches start at `range(0, n - 1, batch)` over the `n` country codes,
    and the batch starting at `i` asks for the codes at `i .. i + batch - 1`. */
module Batching {

  /** `range(a, stop, b)` for a positive step. */
  function Starts(a: nat, stop: int, b: nat): (r: seq<nat>)
    requires b > 0
    ensures forall k :: 0 <= k < |r| ==> r[k] == a + k * b && r[k] < stop
    ensures a + |r| * b >= stop
    decreases stop - a
  {
    if a >= stop then []
    else
      var rest := Starts(a + b, stop, b);
      assert forall k :: 0 < k <= |rest| ==> a + b + (k - 1) * b == a + k * b by {
        forall k | 0 < k <= |rest| ensures a + b + (k - 1) * b == a + k * b {
          MulPred(k, b);
        }
      }
      MulPred(|rest| + 1, b);
      [a] + rest
  }

  lemma MulPred(k: int, b: int)
    ensures (k - 1) * b == k * b - b
  {
  }

  /** `range(0, n - 1, b)`: the starts of the batches for `n` codes.  A
      negative step counts down, so it yields 0 alone when `n - 1 < 0` and
      nothing otherwise. */
  function BatchStarts(n: nat, b: int): (r: seq<nat>)
    requires b != 0
    ensures b > 0 ==> forall k :: 0 <= k < |r| ==> r[k] == k * b && r[k] < n - 1
    ensures b > 0 ==> |r| * b >= n - 1
    ensures b < 0 ==> r == if n == 0 then [0] else []
  {
    if b > 0 then Starts(0, n - 1, b) else if n == 0 then [0] else []
  }

  /** How many codes the batches up to the last one ask for. */
  function Requested(n: nat, b: int): int
    requires b != 0
  {
    |BatchStarts(n, b)| * b
  }

  /** Successive starts increase. */
  lemma StartsIncrease(n: nat, b: int, k: nat, l: nat)
    requires b > 0 && k < l < |BatchStarts(n, b)|
    ensures BatchStarts(n, b)[k] < BatchStarts(n, b)[l]
  {
    MulLess(k, l, b);
  }

  lemma MulLess(k: int, l: int, b: int)
    requires k < l && b > 0
    ensures k * b < l * b
  {
  }

  /** Products of a positive factor keep the order of the other factor. */
  lemma MulCancel(x: int, y: int, b: int)
    requires b > 0 && x * b < y * b
    ensures x < y
  {
    if x >= y {
      MulMono(y, x, b);
    }
  }

  lemma MulMono(x: int, y: int, b: int)
    requires b > 0 && x <= y
    ensures x * b <= y * b
  {
  }

  /** The last start is below `n - 1`; the number of starts is the least
      `K` with `K * b >= n - 1`. */
  lemma StartsCount(n: nat, b: int)
    requires b > 0
    ensures Requested(n, b) >= n - 1
    ensures |BatchStarts(n, b)| > 0 ==> (|BatchStarts(n, b)| - 1) * b < n - 1
  {
    var r := BatchStarts(n, b);
    if |r| > 0 {
      assert r[|r| - 1] == (|r| - 1) * b;
    }
  }

  /** With `n` a multiple of `b >= 2`, the batches ask for exactly the `n`
      codes. */
  lemma CoverAll(n: nat, b: int)
    requires b >= 2 && n % b == 0
    ensures Requested(n, b) == n
  {
    var K := |BatchStarts(n, b)|;
    var q := n / b;
    assert n == q * b;
    StartsCount(n, b);
    if n > 0 {
      // K * b >= q * b - 1 > (q - 1) * b
      MulPred(q, b);
      MulCancel(q - 1, K, b);
      // (K - 1) * b < q * b - 1 < q * b
      assert K > 0;
      MulCancel(K - 1, q, b);
    } else {
      assert K == 0;
    }
  }

  /** With `n - 1` a multiple of `b` (in particular for `b == 1`), the
      batches ask for the first `n - 1` codes only: the last code is never
      fetched. */
  lemma LastMissed(n: nat, b: int)
    requires n >= 1 && b > 0 && (n - 1) % b == 0
    ensures Requested(n, b) == n - 1
  {
    var K := |BatchStarts(n, b)|;
    var q := (n - 1) / b;
    assert n - 1 == q * b;
    StartsCount(n, b);
    if K > 0 {
      MulCancel(K - 1, q, b);
    }
    if K < q {
      MulCancel(K, q, b);
      MulMono(K + 1, q, b);
      MulPred(K + 1, b);
    }
  }

  /** Otherwise the last batch runs past the end of the codes while all
      earlier ones fit: the lookup `country_iso_codes[i + j]` raises. */
  lemma Overflow(n: nat, b: int)
    requires b > 0 && n % b != 0 && (n - 1) % b != 0
    ensures Requested(n, b) > n
    ensures |BatchStarts(n, b)| > 0
    ensures forall k :: 0 <= k < |BatchStarts(n, b)| - 1 ==> BatchStarts(n, b)[k] + b <= n
  {
    var K := |BatchStarts(n, b)|;
    StartsCount(n, b);
    MulMod(K, b);
    assert n >= 2;
    assert K > 0;
    forall k | 0 <= k < K - 1
      ensures BatchStarts(n, b)[k] + b <= n
    {
      MulMono(k + 1, K - 1, b);
      MulPred(k + 1, b);
    }
  }

  lemma MulMod(k: int, b: int)
    requires b > 0
    ensures (k * b) % b == 0
  {
    ModUnique(k * b, k, 0, b);
  }

  /** Euclidean division is unique. */
  lemma ModUnique(x: int, q: int, r: int, b: int)
    requires b > 0 && x == q * b + r && 0 <= r < b
    ensures x % b == r
  {
    var q', r' := x / b, x % b;
    assert x == q' * b + r';
    if q' < q {
      MulMono(q', q - 1, b);
    } else if q' > q {
      MulMono(q + 1, q', b);
    }
  }
}
