/**
 * The reference partition of a row stream into batches: consecutive batches of exactly n rows,
 * followed by one batch holding the 1..n rows left over, and no empty batch anywhere.
 */
module Batching {

  /** The rows of a sequence of batches, batch after batch. */
  function Flatten<T>(bs: seq<seq<T>>): seq<T>
  {
    if |bs| == 0 then [] else bs[0] + Flatten(bs[1..])
  }

  lemma {:induction false} FlattenAppend<T>(bs: seq<seq<T>>, b: seq<T>)
    ensures Flatten(bs + [b]) == Flatten(bs) + b
  {
    if |bs| == 0 {
      assert bs + [b] == [b];
      assert Flatten([b]) == b + Flatten([b][1..]);
    } else {
      assert (bs + [b])[0] == bs[0];
      assert (bs + [b])[1..] == bs[1..] + [b];
      FlattenAppend(bs[1..], b);
    }
  }

  /** The rows cut into consecutive batches of n, the last batch taking what is left. */
  function Chunks<T>(s: seq<T>, n: nat): seq<seq<T>>
    requires n >= 1
    decreases |s|
  {
    if |s| == 0 then []
    else if |s| <= n then [s]
    else [s[..n]] + Chunks(s[n..], n)
  }

  /**
   * The batches concatenate back to the rows; every batch holds between 1 and n rows, and
   * every batch but the last exactly n.
   */
  lemma {:induction false} ChunksLaws<T>(s: seq<T>, n: nat)
    requires n >= 1
    ensures Flatten(Chunks(s, n)) == s
    ensures forall i :: 0 <= i < |Chunks(s, n)| ==> 0 < |Chunks(s, n)[i]| <= n
    ensures forall i :: 0 <= i < |Chunks(s, n)| - 1 ==> |Chunks(s, n)[i]| == n
    decreases |s|
  {
    if |s| == 0 {
    } else if |s| <= n {
      assert Flatten([s]) == s + Flatten([s][1..]);
    } else {
      var rest := Chunks(s[n..], n);
      ChunksLaws(s[n..], n);
      assert Chunks(s, n) == [s[..n]] + rest;
      assert ([s[..n]] + rest)[1..] == rest;
      assert s[..n] + s[n..] == s;
    }
  }

  /** The number of batches is the number of rows divided by n, rounded up. */
  lemma {:induction false} ChunksCount<T>(s: seq<T>, n: nat)
    requires n >= 1
    ensures |Chunks(s, n)| == (|s| + n - 1) / n
  {
    if |s| == 0 {
      DivUnique(n - 1, n, 0);
    } else if |s| <= n {
      DivUnique(|s| + n - 1, n, 1);
    } else {
      ChunksCount(s[n..], n);
      CeilStep(|s|, n);
    }
  }

  /** Taking n off m > n takes one off the rounded-up quotient. */
  lemma CeilStep(m: nat, n: nat)
    requires n >= 1 && m > n
    ensures (m + n - 1) / n == (m - n + n - 1) / n + 1
  {
    var q := (m - 1) / n;
    assert m - 1 == q * n + (m - 1) % n;
    assert (q + 1) * n == q * n + n;
    DivUnique(m + n - 1, n, q + 1);
  }

  lemma {:induction false} MulAtLeast(k: int, n: int)
    requires k >= 1 && n >= 0
    ensures k * n >= n
  {
    if k > 1 {
      MulAtLeast(k - 1, n);
      assert k * n == (k - 1) * n + n;
    }
  }

  /** Euclidean division has one quotient. */
  lemma DivUnique(a: int, n: int, q: int)
    requires n > 0
    requires q * n <= a < q * n + n
    ensures a / n == q
  {
    var d, m := a / n, a % n;
    assert a == d * n + m && 0 <= m < n;
    assert d * n - q * n == (d - q) * n;
    if d > q { MulAtLeast(d - q, n); }
    if d < q { MulAtLeast(q - d, n); }
  }

  /** Rows beyond one batch: the first batch is the first n rows. */
  lemma ChunksUnfold<T>(s: seq<T>, n: nat)
    requires n >= 1 && |s| > n
    ensures Chunks(s, n) == [s[..n]] + Chunks(s[n..], n)
  {
  }

  /**
   * A sequence of full batches followed by a shorter open batch is exactly the reference
   * partition of their rows, once the open batch is added when it is not empty.
   */
  lemma {:induction false} ChunksOfFullBatches<T>(full: seq<seq<T>>, open: seq<T>, n: nat)
    requires n >= 1
    requires forall i :: 0 <= i < |full| ==> |full[i]| == n
    requires |open| < n
    ensures Chunks(Flatten(full) + open, n) == full + (if |open| == 0 then [] else [open])
  {
    if |full| == 0 {
      assert Flatten(full) + open == open;
    } else {
      var rest := Flatten(full[1..]) + open;
      var s := Flatten(full) + open;
      assert s == full[0] + rest;
      ChunksOfFullBatches(full[1..], open, n);
      var tail := if |open| == 0 then [] else [open];
      if |rest| == 0 {
        assert |full[1..] + tail| == 0;
        assert s == full[0];
        assert full == [full[0]];
      } else {
        ChunksUnfold(s, n);
        assert s[..n] == full[0];
        assert s[n..] == rest;
        assert full == [full[0]] + full[1..];
      }
    }
  }

  /** With a batch size of one, every row is a batch of its own. */
  lemma {:induction false} ChunksOfOne<T>(s: seq<T>)
    ensures |Chunks(s, 1)| == |s|
    ensures forall i :: 0 <= i < |s| ==> Chunks(s, 1)[i] == [s[i]]
  {
    if |s| > 1 {
      ChunksOfOne(s[1..]);
      assert Chunks(s, 1) == [s[..1]] + Chunks(s[1..], 1);
      assert s[..1] == [s[0]];
    }
  }
}
