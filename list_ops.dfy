/**
  The two list operations the forms build their updates from: keeping the elements a
  test accepts (`filter`), and dropping the element at one position (`filter` on the
  index). Both copy; neither changes its argument.
*/
module ListOps {

  /** The elements of `xs` that `keep` accepts, in their original order. */
  function Filter<T(!new)>(xs: seq<T>, keep: T -> bool): (r: seq<T>)
    ensures |r| <= |xs|
    ensures forall k | 0 <= k < |r| :: keep(r[k])
    decreases |xs|
  {
    if xs == [] then [] else (if keep(xs[0]) then [xs[0]] else []) + Filter(xs[1..], keep)
  }

  /** Filtering keeps every accepted element as many times as it occurs, and drops the rest. */
  lemma {:induction false} FilterCounts<T(!new)>(xs: seq<T>, keep: T -> bool)
    ensures forall x :: multiset(Filter(xs, keep))[x] == if keep(x) then multiset(xs)[x] else 0
    decreases |xs|
  {
    if xs != [] {
      FilterCounts(xs[1..], keep);
      assert xs == [xs[0]] + xs[1..];
    }
  }

  /** Filtering a concatenation filters each part: the kept elements stay in their order. */
  lemma {:induction false} FilterAppend<T(!new)>(xs: seq<T>, ys: seq<T>, keep: T -> bool)
    ensures Filter(xs + ys, keep) == Filter(xs, keep) + Filter(ys, keep)
    decreases |xs|
  {
    if xs == [] {
      assert xs + ys == ys;
    } else {
      assert (xs + ys)[1..] == xs[1..] + ys;
      FilterAppend(xs[1..], ys, keep);
    }
  }

  /** Every element of `xs` that `keep` accepts is kept, and nothing else is. */
  lemma FilterMembership<T(!new)>(xs: seq<T>, keep: T -> bool, x: T)
    ensures x in Filter(xs, keep) <==> x in xs && keep(x)
  {
    FilterCounts(xs, keep);
    assert x in Filter(xs, keep) <==> multiset(Filter(xs, keep))[x] > 0;
    assert x in xs <==> multiset(xs)[x] > 0;
  }

  /**
    Every element except the one at position `index`, as filtering on the index does;
    an index outside the list removes nothing.
  */
  function RemoveAt<T>(xs: seq<T>, index: int): (r: seq<T>)
    ensures 0 <= index < |xs| ==> r == xs[..index] + xs[index + 1..]
    ensures !(0 <= index < |xs|) ==> r == xs
    decreases |xs|
  {
    if xs == [] then []
    else if index == 0 then RemoveAt(xs[1..], -1)
    else
      var rest := RemoveAt(xs[1..], index - 1);
      assert 0 < index < |xs| ==> xs[1..][..index - 1] == xs[1..index] && xs[1..][index..] == xs[index + 1..];
      assert !(0 <= index < |xs|) ==> [xs[0]] + xs[1..] == xs;
      [xs[0]] + rest
  }

  /** Removing position `index` shortens the list by one and shifts every later element down by one. */
  lemma RemoveAtShifts<T>(xs: seq<T>, index: int)
    requires 0 <= index < |xs|
    ensures |RemoveAt(xs, index)| == |xs| - 1
    ensures forall k | 0 <= k < index :: RemoveAt(xs, index)[k] == xs[k]
    ensures forall k | index <= k < |xs| - 1 :: RemoveAt(xs, index)[k] == xs[k + 1]
  {
  }
}
