/**
 * Sequence helpers shared by the inventory, removal and reporting modules:
 * first-occurrence search (the `for index in range(len(xs))` scans of the
 * program), deletion at an index (`list.pop(index)`) and ordering predicates
 * on identifier sequences.
 */
module Seqs {
  import opened Wrappers

  /** Position of the first occurrence of `x` in `xs`, if there is one. */
  function IndexOf<T(==)>(xs: seq<T>, x: T): (r: Option<nat>)
    ensures r.None? <==> x !in xs
    ensures r.Some? ==> r.value < |xs| && xs[r.value] == x && x !in xs[..r.value]
  {
    if |xs| == 0 then None
    else if xs[0] == x then Some(0)
    else match IndexOf(xs[1..], x)
      case None => None
      case Some(k) =>
        assert xs[..k + 1] == [xs[0]] + xs[1..][..k];
        Some(k + 1)
  }

  /** The first-occurrence position is determined by the two facts that define it. */
  lemma {:induction false} IndexOfIsFirst<T>(xs: seq<T>, x: T, k: nat)
    requires k < |xs| && xs[k] == x && x !in xs[..k]
    ensures IndexOf(xs, x) == Some(k)
  {
    var r := IndexOf(xs, x).value;
    assert forall j :: 0 <= j < k ==> xs[..k][j] == xs[j];
    assert forall j :: 0 <= j < r ==> xs[..r][j] == xs[j];
  }

  /** Searching a sequence extended at the back finds an element of the front where it was. */
  lemma IndexOfExtend<T>(xs: seq<T>, ys: seq<T>, x: T)
    requires x in xs
    ensures IndexOf(xs + ys, x) == IndexOf(xs, x)
  {
    var k := IndexOf(xs, x).value;
    assert (xs + ys)[..k] == xs[..k];
    IndexOfIsFirst(xs + ys, x, k);
  }

  /** Searching behind a prefix that lacks `x` finds it shifted by the prefix's length. */
  lemma IndexOfShift<T>(xs: seq<T>, ys: seq<T>, x: T)
    requires x !in xs && x in ys
    ensures IndexOf(xs + ys, x) == Some(|xs| + IndexOf(ys, x).value)
  {
    var k := IndexOf(ys, x).value;
    assert (xs + ys)[..|xs| + k] == xs + ys[..k];
    IndexOfIsFirst(xs + ys, x, |xs| + k);
  }

  /** `xs` without the element at position `i` (Python's `list.pop(i)`). */
  function DeleteAt<T>(xs: seq<T>, i: nat): (r: seq<T>)
    requires i < |xs|
    ensures |r| == |xs| - 1
    ensures forall k :: 0 <= k < i ==> r[k] == xs[k]
    ensures forall k :: i <= k < |r| ==> r[k] == xs[k + 1]
  {
    xs[..i] + xs[i + 1..]
  }

  /** Deleting behind a prefix acts on the suffix alone. */
  lemma DeleteAtShift<T>(xs: seq<T>, ys: seq<T>, k: nat)
    requires k < |ys|
    ensures DeleteAt(xs + ys, |xs| + k) == xs + DeleteAt(ys, k)
  {
  }

  /** Strictly increasing, hence duplicate-free. */
  predicate Increasing(xs: seq<int>)
  {
    forall a, b :: 0 <= a < b < |xs| ==> xs[a] < xs[b]
  }

  /** Appending a value above every element keeps a sequence strictly increasing. */
  lemma IncreasingAppend(xs: seq<int>, x: int)
    requires Increasing(xs)
    requires forall y :: y in xs ==> y < x
    ensures Increasing(xs + [x])
  {
    forall a | 0 <= a < |xs|
      ensures xs[a] < x
    {
      assert xs[a] in xs;
    }
  }

  /** No value occurs twice. */
  predicate Unique(xs: seq<int>)
  {
    forall a, b :: 0 <= a < b < |xs| ==> xs[a] != xs[b]
  }

  lemma IncreasingUnique(xs: seq<int>)
    requires Increasing(xs)
    ensures Unique(xs)
  {
  }

  /** A duplicate-free concatenation has duplicate-free, disjoint halves. */
  lemma UniqueSplit(xs: seq<int>, ys: seq<int>)
    requires Unique(xs + ys)
    ensures Unique(xs) && Unique(ys)
    ensures forall v :: v in xs ==> v !in ys
  {
    assert forall a :: 0 <= a < |xs| ==> (xs + ys)[a] == xs[a];
    assert forall b :: 0 <= b < |ys| ==> (xs + ys)[|xs| + b] == ys[b];
  }

  /** Deleting one entry keeps a strictly increasing sequence strictly increasing. */
  lemma DeleteAtIncreasing(xs: seq<int>, i: nat)
    requires i < |xs| && Increasing(xs)
    ensures Increasing(DeleteAt(xs, i))
  {
  }
}
