/** Argument batching: `maxCmdItems`, the slices `GitCommit` passes to git add
    and git rm, and the threshold at which AccuRev stat and pop read their
    element list from a list file instead of the command line. */
module Chunking {

  /** `maxCmdItems`: the most paths handed to one git add or git rm. */
  const MaxCmdItems: nat := 25

  /** AccuRev stat and pop are given a temporary list file instead of
      arguments when there are more than MaxCmdItems paths. */
  predicate UsesListFile(count: nat) {
    count > MaxCmdItems
  }

  function Min(a: nat, b: nat): nat {
    if a <= b then a else b
  }

  /** The successive slices `xs[:n]`, then the same on `xs[n:]`, until the
      remainder is empty. */
  function Chunks<T>(xs: seq<T>, n: nat): seq<seq<T>>
    requires n > 0
    decreases |xs|
  {
    if |xs| == 0 then []
    else
      var k := Min(n, |xs|);
      [xs[..k]] + Chunks(xs[k..], n)
  }

  function Flatten<T>(xss: seq<seq<T>>): seq<T> {
    if |xss| == 0 then [] else xss[0] + Flatten(xss[1..])
  }

  lemma {:induction false} FlattenAppend<T>(a: seq<seq<T>>, b: seq<seq<T>>)
    ensures Flatten(a + b) == Flatten(a) + Flatten(b)
  {
    if |a| == 0 {
      assert a + b == b;
    } else {
      assert (a + b)[1..] == a[1..] + b;
      FlattenAppend(a[1..], b);
    }
  }

  /** Concatenating the chunks in order gives back the original list. */
  lemma {:induction false} ChunksReassemble<T>(xs: seq<T>, n: nat)
    requires n > 0
    ensures Flatten(Chunks(xs, n)) == xs
    decreases |xs|
  {
    if |xs| > 0 {
      var k := Min(n, |xs|);
      ChunksReassemble(xs[k..], n);
      assert xs[..k] + xs[k..] == xs;
    }
  }

  /** Every chunk is non-empty and holds at most `n` items; all but the last
      hold exactly `n`; there are no chunks exactly when the list is empty. */
  lemma {:induction false} ChunksBounded<T>(xs: seq<T>, n: nat)
    requires n > 0
    ensures var c := Chunks(xs, n);
      && (|c| == 0 <==> |xs| == 0)
      && (forall i :: 0 <= i < |c| ==> 0 < |c[i]| <= n)
      && (forall i :: 0 <= i < |c| - 1 ==> |c[i]| == n)
    decreases |xs|
  {
    if |xs| > 0 {
      var k := Min(n, |xs|);
      ChunksBounded(xs[k..], n);
      var c := Chunks(xs, n);
      var rest := Chunks(xs[k..], n);
      assert c == [xs[..k]] + rest;
      if |rest| > 0 {
        assert k == n;
      }
      forall i | 0 < i < |c| ensures 0 < |c[i]| <= n {
        assert c[i] == rest[i - 1];
      }
      forall i | 0 < i < |c| - 1 ensures |c[i]| == n {
        assert c[i] == rest[i - 1];
      }
    }
  }

  /** A non-empty list no longer than `n` goes in a single call. */
  lemma ChunksOfShortList<T>(xs: seq<T>, n: nat)
    requires 0 < |xs| <= n
    ensures Chunks(xs, n) == [xs]
  {
    assert Min(n, |xs|) == |xs|;
    assert xs[..|xs|] == xs;
    assert Chunks(xs[|xs|..], n) == [];
  }

  /** Batch-size invariance: whatever the bound, the items passed are the same,
      in the same order. */
  lemma ChunkSizeInvariance<T>(xs: seq<T>, n: nat, m: nat)
    requires n > 0 && m > 0
    ensures Flatten(Chunks(xs, n)) == Flatten(Chunks(xs, m)) == xs
  {
    ChunksReassemble(xs, n);
    ChunksReassemble(xs, m);
  }
}
