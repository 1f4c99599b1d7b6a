/** The Fisher-Yates shuffle of the service, with `Math.random()` passed in as values. */
module Shuffle {

  /** A draw of `Math.random()`: a real number in [0, 1). */
  predicate IsRandom(x: real)
  {
    0.0 <= x < 1.0
  }

  predicate AllRandom(rands: seq<real>)
  {
    forall k :: 0 <= k < |rands| ==> IsRandom(rands[k])
  }

  /** `Math.floor(x * n)` for a draw `x`: always an index below `n`. */
  function RandomBelow(x: real, n: nat): (k: nat)
    requires IsRandom(x) && n > 0
    ensures k < n
    ensures k as real <= x * n as real < k as real + 1.0
  {
    ScaledDrawBounds(x, n as real);
    (x * n as real).Floor
  }

  /** A draw scaled by a positive `m` lies in [0, m). */
  lemma ScaledDrawBounds(x: real, m: real)
    requires IsRandom(x) && m > 0.0
    ensures 0.0 <= x * m < m
  {
    assert m - x * m == (1.0 - x) * m;
    assert (1.0 - x) * m > 0.0;
  }

  function Swap<T>(s: seq<T>, i: nat, j: nat): (r: seq<T>)
    requires i < |s| && j < |s|
    ensures |r| == |s|
    ensures r[i] == s[j] && r[j] == s[i]
    ensures forall k :: 0 <= k < |s| && k != i && k != j ==> r[k] == s[k]
  {
    s[i := s[j]][j := s[i]]
  }

  /** The rounds i, i-1, ..., 1 of the shuffle applied to `s`; round i swaps cell i with draw i. */
  function FisherYatesFrom<T>(s: seq<T>, rands: seq<real>, i: int): (r: seq<T>)
    requires i < |s| <= |rands| && AllRandom(rands)
    ensures |r| == |s|
    decreases i
  {
    if i <= 0 then s
    else FisherYatesFrom(Swap(s, i, RandomBelow(rands[i], i + 1)), rands, i - 1)
  }

  /** The shuffle's result for the draws `rands`, where `rands[i]` is drawn when the counter is i. */
  function FisherYates<T>(s: seq<T>, rands: seq<real>): (r: seq<T>)
    requires |s| <= |rands| && AllRandom(rands)
    ensures |r| == |s|
  {
    FisherYatesFrom(s, rands, |s| - 1)
  }

  lemma {:induction false} FisherYatesFromPermutes<T>(s: seq<T>, rands: seq<real>, i: int)
    requires i < |s| <= |rands| && AllRandom(rands)
    ensures multiset(FisherYatesFrom(s, rands, i)) == multiset(s)
    decreases i
  {
    if i > 0 {
      var j := RandomBelow(rands[i], i + 1);
      SwapPermutes(s, i, j);
      FisherYatesFromPermutes(Swap(s, i, j), rands, i - 1);
    }
  }

  /** Exchanging two cells keeps the multiset of the entries. */
  lemma SwapPermutes<T>(s: seq<T>, i: nat, j: nat)
    requires i < |s| && j < |s|
    ensures multiset(Swap(s, i, j)) == multiset(s)
  {
    assert Swap(s, i, j) == s[i := s[j]][j := s[i]];
  }

  /** Whatever the draws, the shuffle is a permutation of its input. */
  lemma FisherYatesPermutes<T>(s: seq<T>, rands: seq<real>)
    requires |s| <= |rands| && AllRandom(rands)
    ensures multiset(FisherYates(s, rands)) == multiset(s)
  {
    FisherYatesFromPermutes(s, rands, |s| - 1);
  }

  /** `shuffleArray`: copy the input, then swap cell i with a random cell at or below it, for i from the top down to 1. */
  method ShuffleArray<T>(a: seq<T>, rands: seq<real>) returns (shuffled: seq<T>)
    requires |a| <= |rands| && AllRandom(rands)
    ensures shuffled == FisherYates(a, rands)
    ensures |shuffled| == |a|
  {
    var b := new T[|a|](k requires 0 <= k < |a| => a[k]);
    assert b[..] == a by {
      forall k | 0 <= k < |a| ensures b[k] == a[k] { }
    }
    var i := |a| - 1;
    while i > 0
      invariant -1 <= i < |a| && (|a| > 0 ==> i >= 0)
      invariant b.Length == |a|
      invariant FisherYatesFrom(b[..], rands, i) == FisherYates(a, rands)
    {
      var j := RandomBelow(rands[i], i + 1);
      ghost var before := b[..];
      assert FisherYatesFrom(before, rands, i) == FisherYatesFrom(Swap(before, i, j), rands, i - 1);
      b[i], b[j] := b[j], b[i];
      assert b[..] == Swap(before, i, j);
      i := i - 1;
    }
    shuffled := b[..];
  }
}
