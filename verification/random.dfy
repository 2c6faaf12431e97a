/** The two lodash helpers the bot draws its randomness from, with every
    `Math.random()` draw taken as a parameter `u` in [0, 1). */
module Random {
  import opened Sequences

  predicate IsUnit(u: real)
  {
    0.0 <= u < 1.0
  }

  predicate AllUnit(us: seq<real>)
  {
    forall i :: 0 <= i < |us| ==> IsUnit(us[i])
  }

  /** `_.random(lo, hi)` with integer bounds: `lo + floor(u * (hi - lo + 1))`. */
  function RandomInt(lo: int, hi: int, u: real): (r: int)
    requires lo <= hi
    requires IsUnit(u)
    ensures lo <= r <= hi
  {
    var width := (hi - lo + 1) as real;
    assert u * width < width;
    lo + (u * width).Floor
  }

  /** Every integer of the range is drawn by some `u`, so no value is unreachable. */
  lemma RandomIntCovers(lo: int, hi: int, v: int) returns (u: real)
    requires lo <= v <= hi
    ensures IsUnit(u) && RandomInt(lo, hi, u) == v
  {
    var width := (hi - lo + 1) as real;
    u := (v - lo) as real / width;
    assert u * width == (v - lo) as real;
  }

  function Swap<T>(s: seq<T>, i: nat, j: nat): (r: seq<T>)
    requires i < |s| && j < |s|
    ensures |r| == |s|
  {
    s[i := s[j]][j := s[i]]
  }

  lemma SwapPermutes<T>(s: seq<T>, i: nat, j: nat)
    requires i < |s| && j < |s|
    ensures multiset(Swap(s, i, j)) == multiset(s)
  {
  }

  /** The first `n - index` remaining steps of lodash's partial Fisher-Yates
      shuffle: step `index` swaps position `index` with a position drawn from
      `index .. |s| - 1`. */
  function Shuffle<T>(s: seq<T>, index: nat, n: nat, draws: seq<real>): (r: seq<T>)
    requires index <= n <= |s| && n <= |draws|
    requires AllUnit(draws)
    ensures |r| == |s|
    decreases n - index
  {
    if index == n then s
    else
      var rand := RandomInt(index, |s| - 1, draws[index]);
      Shuffle(Swap(s, index, rand), index + 1, n, draws)
  }

  /** Shuffling only swaps, so it permutes its input. */
  lemma {:induction false} ShufflePermutes<T>(s: seq<T>, index: nat, n: nat, draws: seq<real>)
    requires index <= n <= |s| && n <= |draws|
    requires AllUnit(draws)
    ensures multiset(Shuffle(s, index, n, draws)) == multiset(s)
    decreases n - index
  {
    if index < n {
      var rand := RandomInt(index, |s| - 1, draws[index]);
      var swapped := Swap(s, index, rand);
      ShufflePermutes(swapped, index + 1, n, draws);
      SwapPermutes(s, index, rand);
    }
  }

  /** `_.sample(xs, n)`: the first `min(n, |xs|)` elements of a partial shuffle of `xs`. */
  function Sample<T>(xs: seq<T>, n: nat, draws: seq<real>): (r: seq<T>)
    requires Min(n, |xs|) <= |draws|
    requires AllUnit(draws)
    ensures |r| == Min(n, |xs|)
  {
    var m := Min(n, |xs|);
    Shuffle(xs, 0, m, draws)[..m]
  }

  /** `_.sample` draws without replacement: the sample is a sub-multiset of
      `xs`, and all of `xs` when `n` reaches its length. */
  lemma SamplePermutes<T>(xs: seq<T>, n: nat, draws: seq<real>)
    requires Min(n, |xs|) <= |draws|
    requires AllUnit(draws)
    ensures multiset(Sample(xs, n, draws)) <= multiset(xs)
    ensures n >= |xs| ==> multiset(Sample(xs, n, draws)) == multiset(xs)
  {
    var m := Min(n, |xs|);
    var shuffled := Shuffle(xs, 0, m, draws);
    ShufflePermutes(xs, 0, m, draws);
    assert shuffled == shuffled[..m] + shuffled[m..];
  }

  lemma MapSwap<T, U>(s: seq<T>, i: nat, j: nat, f: T -> U)
    requires i < |s| && j < |s|
    ensures Swap(Map(s, f), i, j) == Map(Swap(s, i, j), f)
  {
    var l, r := Swap(Map(s, f), i, j), Map(Swap(s, i, j), f);
    assert forall k :: 0 <= k < |s| ==> l[k] == r[k];
  }

  lemma {:induction false} ShuffleCommutesWithMap<T, U>(
    s: seq<T>, index: nat, n: nat, draws: seq<real>, f: T -> U)
    requires index <= n <= |s| && n <= |draws|
    requires AllUnit(draws)
    ensures Shuffle(Map(s, f), index, n, draws) == Map(Shuffle(s, index, n, draws), f)
    decreases n - index
  {
    if index < n {
      var rand := RandomInt(index, |s| - 1, draws[index]);
      var mapped := Map(s, f);
      assert Shuffle(mapped, index, n, draws) == Shuffle(Swap(mapped, index, rand), index + 1, n, draws);
      assert Shuffle(s, index, n, draws) == Shuffle(Swap(s, index, rand), index + 1, n, draws);
      MapSwap(s, index, rand, f);
      ShuffleCommutesWithMap(Swap(s, index, rand), index + 1, n, draws, f);
    }
  }

  /** The draws decide positions only, so sampling a mapped sequence picks the
      images of the elements sampling the original would pick. */
  lemma SampleCommutesWithMap<T, U>(xs: seq<T>, n: nat, draws: seq<real>, f: T -> U)
    requires Min(n, |xs|) <= |draws|
    requires AllUnit(draws)
    ensures Sample(Map(xs, f), n, draws) == Map(Sample(xs, n, draws), f)
  {
    var m := Min(n, |xs|);
    ShuffleCommutesWithMap(xs, 0, m, draws, f);
  }
}
