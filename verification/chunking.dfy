/** Cutting a list into consecutive slices: `[xs[i:i + n] for i in range(0, len(xs), n)]`. */
module Chunking {

  import Text

  function Flatten<T>(xss: seq<seq<T>>): seq<T>
  {
    if |xss| == 0 then [] else xss[0] + Flatten(xss[1..])
  }

  /** Slices of `n` consecutive elements; only the last may be shorter, none is empty. */
  function Chunks<T>(xs: seq<T>, n: nat): (cs: seq<seq<T>>)
    requires n > 0
    ensures forall i :: 0 <= i < |cs| ==> 1 <= |cs[i]| <= n
    ensures forall i :: 0 <= i < |cs| - 1 ==> |cs[i]| == n
    decreases |xs|
  {
    if |xs| == 0 then []
    else if |xs| <= n then [xs]
    else [xs[..n]] + Chunks(xs[n..], n)
  }

  /** Concatenating the slices gives back the list, in order. */
  lemma {:induction false} ChunksFlatten<T>(xs: seq<T>, n: nat)
    requires n > 0
    ensures Flatten(Chunks(xs, n)) == xs
    decreases |xs|
  {
    if |xs| > n {
      ChunksFlatten(xs[n..], n);
      var cs := Chunks(xs, n);
      assert cs[1..] == Chunks(xs[n..], n);
      assert xs == xs[..n] + xs[n..];
    } else if |xs| > 0 {
      assert Flatten([xs]) == xs + Flatten([]);
    }
  }

  /** There are ceil(len / n) slices. */
  lemma {:induction false} ChunksCount<T>(xs: seq<T>, n: nat)
    requires n > 0
    ensures |Chunks(xs, n)| == (|xs| + n - 1) / n
    decreases |xs|
  {
    if |xs| > n {
      ChunksCount(xs[n..], n);
      assert (|xs| + n - 1) / n == (|xs| - n + n - 1) / n + 1 by {
        DivShift(|xs| - n + n - 1, n);
      }
    } else if |xs| > 0 {
      assert n <= |xs| + n - 1 < 2 * n;
      DivOne(|xs| + n - 1, n);
    }
  }

  lemma DivShift(a: int, n: int)
    requires a >= 0 && n > 0
    ensures (a + n) / n == a / n + 1
  {
    var q, r := a / n, a % n;
    assert a == q * n + r;
    assert a + n == (q + 1) * n + r;
    Text.DivUnique(a + n, n, q + 1, r);
  }

  lemma DivOne(a: int, n: int)
    requires n > 0 && n <= a < 2 * n
    ensures a / n == 1
  {
    Text.DivUnique(a, n, 1, a - n);
  }

  lemma {:induction false} FlattenAppend<T>(xss: seq<seq<T>>, yss: seq<seq<T>>)
    ensures Flatten(xss + yss) == Flatten(xss) + Flatten(yss)
    decreases |xss|
  {
    if |xss| > 0 {
      assert (xss + yss)[1..] == xss[1..] + yss;
      FlattenAppend(xss[1..], yss);
    } else {
      assert xss + yss == yss;
    }
  }
}
