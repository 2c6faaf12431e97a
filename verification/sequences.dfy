/** Order-preserving sequence combinators: `Array.prototype.filter` and `map`. */
module Sequences {

  function Min(a: int, b: int): int
  {
    if a <= b then a else b
  }

  /** The elements of `xs` that satisfy `keep`, in their original order. */
  function Filter<T>(xs: seq<T>, keep: T -> bool): (r: seq<T>)
    ensures |r| <= |xs|
    ensures forall i :: 0 <= i < |r| ==> keep(r[i])
    decreases |xs|
  {
    if |xs| == 0 then []
    else
      var init := Filter(xs[..|xs| - 1], keep);
      assert xs == xs[..|xs| - 1] + [xs[|xs| - 1]];
      if keep(xs[|xs| - 1]) then init + [xs[|xs| - 1]] else init
  }

  /** An element survives the filter exactly when it occurs in `xs` and is kept. */
  lemma {:induction false} FilterMember<T>(xs: seq<T>, keep: T -> bool, x: T)
    ensures x in Filter(xs, keep) <==> x in xs && keep(x)
    decreases |xs|
  {
    if |xs| > 0 {
      var prefix := xs[..|xs| - 1];
      FilterMember(prefix, keep, x);
      assert xs == prefix + [xs[|xs| - 1]];
    }
  }

  /** The positions in `xs` whose element satisfies `keep`, in increasing order. */
  function KeptIndices<T>(xs: seq<T>, keep: T -> bool): (idx: seq<nat>)
    ensures forall j :: 0 <= j < |idx| ==> idx[j] < |xs| && keep(xs[idx[j]])
    ensures forall j, j' :: 0 <= j < j' < |idx| ==> idx[j] < idx[j']
    ensures forall k :: 0 <= k < |xs| && keep(xs[k]) ==> k in idx
    decreases |xs|
  {
    if |xs| == 0 then []
    else
      var last := |xs| - 1;
      var prefix := xs[..last];
      var init := KeptIndices(prefix, keep);
      assert forall k :: 0 <= k < last ==> prefix[k] == xs[k];
      if keep(xs[last]) then init + [last] else init
  }

  /** `Filter` keeps exactly the elements at `KeptIndices`, one for one and in order. */
  lemma {:induction false} FilterAtKeptIndices<T>(xs: seq<T>, keep: T -> bool)
    ensures |KeptIndices(xs, keep)| == |Filter(xs, keep)|
    ensures forall j :: 0 <= j < |Filter(xs, keep)| ==>
              Filter(xs, keep)[j] == xs[KeptIndices(xs, keep)[j]]
    decreases |xs|
  {
    if |xs| > 0 {
      var last := |xs| - 1;
      var prefix := xs[..last];
      FilterAtKeptIndices(prefix, keep);
      assert forall k :: 0 <= k < last ==> prefix[k] == xs[k];
    }
  }

  /** `xs` with `f` applied to every element. */
  function Map<T, U>(xs: seq<T>, f: T -> U): (r: seq<U>)
    ensures |r| == |xs|
    ensures forall i :: 0 <= i < |xs| ==> r[i] == f(xs[i])
  {
    seq(|xs|, i requires 0 <= i < |xs| => f(xs[i]))
  }

  lemma MapSnoc<T, U>(xs: seq<T>, x: T, f: T -> U)
    ensures Map(xs + [x], f) == Map(xs, f) + [f(x)]
  {
  }

  /** Filtering one more element at the end appends it when it is kept. */
  lemma FilterSnoc<T>(xs: seq<T>, x: T, keep: T -> bool)
    ensures Filter(xs + [x], keep) == if keep(x) then Filter(xs, keep) + [x] else Filter(xs, keep)
  {
    assert (xs + [x])[..|xs|] == xs;
  }

  /** Extending a filtered prefix by one position appends that element when it is kept. */
  lemma FilterPrefixStep<T>(xs: seq<T>, i: nat, keep: T -> bool)
    requires i < |xs|
    ensures Filter(xs[..i + 1], keep) == if keep(xs[i]) then Filter(xs[..i], keep) + [xs[i]] else Filter(xs[..i], keep)
  {
    assert xs[..i + 1] == xs[..i] + [xs[i]];
    FilterSnoc(xs[..i], xs[i], keep);
  }

  /** Filtering distributes over concatenation. */
  lemma {:induction false} FilterAppend<T>(xs: seq<T>, ys: seq<T>, keep: T -> bool)
    ensures Filter(xs + ys, keep) == Filter(xs, keep) + Filter(ys, keep)
    decreases |ys|
  {
    if |ys| > 0 {
      var last := |ys| - 1;
      assert (xs + ys)[..|xs + ys| - 1] == xs + ys[..last];
      FilterAppend(xs, ys[..last], keep);
    } else {
      assert xs + ys == xs;
    }
  }

  /** An element `keep` rejects can be removed without changing the filtered sequence. */
  lemma FilterSkipsRejected<T>(before: seq<T>, x: T, after: seq<T>, keep: T -> bool)
    requires !keep(x)
    ensures Filter(before + [x] + after, keep) == Filter(before + after, keep)
  {
    FilterAppend(before + [x], after, keep);
    FilterAppend(before, [x], keep);
    FilterAppend(before, after, keep);
    assert [x][..0] == [];
  }
}
