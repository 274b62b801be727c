/**
 * The array idioms the dashboard uses on its lists: `filter((_, i) => i !== index)`,
 * drag reordering by `splice(from, 1)` then `splice(to, 0, item)`, `filter(p)` and
 * `filter(p).length`.
 */
module Lists {

  predicate NoDuplicates<T(==)>(xs: seq<T>) {
    forall i, j :: 0 <= i < j < |xs| ==> xs[i] != xs[j]
  }

  /**
   * `xs.filter((_, i) => i !== index)`: position `index` dropped when there is one, every other
   * element kept in order; an index outside the list leaves it as it is.
   */
  function RemoveIndex<T>(xs: seq<T>, index: int): (r: seq<T>)
    ensures 0 <= index < |xs| ==> r == xs[..index] + xs[index + 1..]
    ensures !(0 <= index < |xs|) ==> r == xs
  {
    if xs == [] then []
    else if index == 0 then xs[1..]
    else [xs[0]] + RemoveIndex(xs[1..], index - 1)
  }

  /** Removing the element just appended gives the list back. */
  lemma RemoveAppended<T>(xs: seq<T>, x: T)
    ensures RemoveIndex(xs + [x], |xs|) == xs
  {
    assert (xs + [x])[..|xs|] == xs;
  }

  lemma RemoveIndexKeepsNoDuplicates<T>(xs: seq<T>, index: int)
    requires NoDuplicates(xs)
    ensures NoDuplicates(RemoveIndex(xs, index))
    ensures forall x :: x in RemoveIndex(xs, index) ==> x in xs
  {
    if 0 <= index < |xs| {
      var r := RemoveIndex(xs, index);
      assert forall k :: 0 <= k < |r| ==> r[k] == xs[if k < index then k else k + 1];
    }
  }

  /** Appending an element that is not yet present keeps a list free of duplicates. */
  lemma AppendAbsentKeepsNoDuplicates<T>(xs: seq<T>, x: T)
    requires x !in xs
    ensures NoDuplicates(xs) ==> NoDuplicates(xs + [x])
  {
    if NoDuplicates(xs) {
      var r := xs + [x];
      forall i, j | 0 <= i < j < |r| ensures r[i] != r[j] {
        if j == |xs| {
          assert r[i] == xs[i];
        }
      }
    }
  }

  /**
   * Drag reordering: `items.splice(from, 1)` takes the dragged element out, and
   * `items.splice(to, 0, item)` puts it back at `to`.
   */
  function Move<T>(xs: seq<T>, from: nat, to: nat): (r: seq<T>)
    requires from < |xs| && to < |xs|
    ensures |r| == |xs| && r[to] == xs[from]
  {
    var rest := RemoveIndex(xs, from);
    rest[..to] + [xs[from]] + rest[to..]
  }

  /** A drag is a permutation: the same elements, each as often as before. */
  lemma MoveIsPermutation<T>(xs: seq<T>, from: nat, to: nat)
    requires from < |xs| && to < |xs|
    ensures multiset(Move(xs, from, to)) == multiset(xs)
  {
    var rest := RemoveIndex(xs, from);
    assert xs == xs[..from] + [xs[from]] + xs[from + 1..];
    assert multiset(xs) == multiset(rest) + multiset{xs[from]};
    assert rest == rest[..to] + rest[to..];
    assert multiset(rest) == multiset(rest[..to]) + multiset(rest[to..]);
  }

  /** The elements that were not dragged keep their relative order. */
  lemma MoveKeepsOthersInOrder<T>(xs: seq<T>, from: nat, to: nat)
    requires from < |xs| && to < |xs|
    ensures RemoveIndex(Move(xs, from, to), to) == RemoveIndex(xs, from)
  {
    var rest := RemoveIndex(xs, from);
    var r := Move(xs, from, to);
    assert r[..to] == rest[..to];
    assert r[to + 1..] == rest[to..];
    assert rest == rest[..to] + rest[to..];
  }

  /** Dragging an element onto its own position changes nothing. */
  lemma MoveInPlace<T>(xs: seq<T>, i: nat)
    requires i < |xs|
    ensures Move(xs, i, i) == xs
  {
    assert xs == xs[..i] + [xs[i]] + xs[i + 1..];
  }

  /**
   * `xs.filter(p)`: exactly the elements satisfying `p`, in their original order
   * (`FilterKeepsOrder`).
   */
  function Filter<T>(xs: seq<T>, p: T -> bool): (r: seq<T>)
    ensures |r| <= |xs|
    ensures forall i :: 0 <= i < |r| ==> r[i] in xs && p(r[i])
    ensures forall i :: 0 <= i < |xs| && p(xs[i]) ==> xs[i] in r
    ensures multiset(r) <= multiset(xs)
  {
    if xs == [] then []
    else
      assert xs == [xs[0]] + xs[1..];
      if p(xs[0]) then [xs[0]] + Filter(xs[1..], p) else Filter(xs[1..], p)
  }

  /**
   * The order of the kept elements: one that passes lands at the position given by the number
   * of passing elements before it, and there are as many kept elements as passing ones.
   */
  lemma FilterKeepsOrder<T>(xs: seq<T>, p: T -> bool)
    ensures |Filter(xs, p)| == Count(xs, p)
    ensures forall i :: 0 <= i < |xs| && p(xs[i]) ==>
      Count(xs[..i], p) < |Filter(xs, p)| && Filter(xs, p)[Count(xs[..i], p)] == xs[i]
  {
    CountIsFilterLength(xs, p);
    forall i | 0 <= i < |xs| && p(xs[i])
      ensures Count(xs[..i], p) < |Filter(xs, p)| && Filter(xs, p)[Count(xs[..i], p)] == xs[i]
    {
      FilterAt(xs, p, i);
    }
  }

  /** One passing element of `FilterKeepsOrder`. */
  lemma FilterAt<T>(xs: seq<T>, p: T -> bool, i: nat)
    requires i < |xs| && p(xs[i])
    ensures Count(xs[..i], p) < |Filter(xs, p)| && Filter(xs, p)[Count(xs[..i], p)] == xs[i]
  {
    var before, after := xs[..i], xs[i..];
    assert xs == before + after;
    FilterAppend(before, after, p);
    CountIsFilterLength(before, p);
    var kept, rest := Filter(before, p), Filter(after, p);
    assert after[0] == xs[i];
    assert rest == [xs[i]] + Filter(after[1..], p);
    assert Filter(xs, p) == kept + rest;
    assert (kept + rest)[|kept|] == rest[0];
  }

  /** Counting over a non-empty prefix: the head's contribution, then the rest. */
  lemma CountPrefixStep<T>(xs: seq<T>, p: T -> bool)
    requires xs != []
    ensures Count(xs[..0], p) == 0
    ensures forall i :: 1 <= i <= |xs| ==> Count(xs[..i], p) == (if p(xs[0]) then 1 else 0) + Count(xs[1..][..i - 1], p)
  {
    forall i | 1 <= i <= |xs| ensures Count(xs[..i], p) == (if p(xs[0]) then 1 else 0) + Count(xs[1..][..i - 1], p) {
      assert xs[..i][1..] == xs[1..][..i - 1];
    }
  }

  /**
   * Filtering distributes over concatenation. With the one-element case fixed by `Filter`'s
   * contract, this pins the kept elements to their original order.
   */
  lemma {:induction false} FilterAppend<T>(xs: seq<T>, ys: seq<T>, p: T -> bool)
    ensures Filter(xs + ys, p) == Filter(xs, p) + Filter(ys, p)
  {
    if xs == [] {
      assert xs + ys == ys;
    } else {
      var zs := xs + ys;
      assert zs[0] == xs[0] && zs[1..] == xs[1..] + ys;
      FilterAppend(xs[1..], ys, p);
      if p(xs[0]) {
        assert Filter(zs, p) == [xs[0]] + Filter(zs[1..], p);
        assert Filter(xs, p) == [xs[0]] + Filter(xs[1..], p);
        ConcatAssoc([xs[0]], Filter(xs[1..], p), Filter(ys, p));
      } else {
        assert Filter(zs, p) == Filter(zs[1..], p);
      }
    }
  }

  /** Regrouping a three-way concatenation. */
  lemma ConcatAssoc<T>(x: seq<T>, y: seq<T>, z: seq<T>)
    ensures x + (y + z) == (x + y) + z
  {
  }

  /** Filtering with a predicate every element satisfies returns the list unchanged. */
  lemma {:induction false} FilterKeepsAll<T>(xs: seq<T>, p: T -> bool)
    requires forall i :: 0 <= i < |xs| ==> p(xs[i])
    ensures Filter(xs, p) == xs
  {
    if xs != [] {
      FilterKeepsAll(xs[1..], p);
    }
  }

  /** `xs.filter(p).length`. */
  function Count<T>(xs: seq<T>, p: T -> bool): (n: nat)
    ensures n <= |xs|
    ensures n == |xs| <==> forall i :: 0 <= i < |xs| ==> p(xs[i])
    ensures n == 0 <==> forall i :: 0 <= i < |xs| ==> !p(xs[i])
  {
    if xs == [] then 0
    else
      assert xs == [xs[0]] + xs[1..];
      (if p(xs[0]) then 1 else 0) + Count(xs[1..], p)
  }

  lemma {:induction false} CountIsFilterLength<T>(xs: seq<T>, p: T -> bool)
    ensures Count(xs, p) == |Filter(xs, p)|
  {
    if xs != [] {
      CountIsFilterLength(xs[1..], p);
    }
  }

  /** Replacing one element changes a count by what the old and the new element contribute. */
  lemma {:induction false} CountUpdate<T>(xs: seq<T>, i: nat, y: T, p: T -> bool)
    requires i < |xs|
    ensures Count(xs[i := y], p) == Count(xs, p) - (if p(xs[i]) then 1 else 0) + (if p(y) then 1 else 0)
  {
    if i == 0 {
      assert xs[i := y][1..] == xs[1..];
    } else {
      CountUpdate(xs[1..], i - 1, y, p);
      assert xs[i := y][1..] == xs[1..][i - 1 := y];
    }
  }

  /** Counting the elements of one of two exclusive kinds adds the counts of each kind. */
  lemma {:induction false} CountDisjointUnion<T>(xs: seq<T>, p: T -> bool, q: T -> bool, either: T -> bool)
    requires forall x :: either(x) == (p(x) || q(x))
    requires forall x :: !(p(x) && q(x))
    ensures Count(xs, either) == Count(xs, p) + Count(xs, q)
  {
    if xs != [] {
      CountDisjointUnion(xs[1..], p, q, either);
    }
  }

  /** The tail of a duplicate-free list is duplicate-free and does not hold the head. */
  lemma NoDuplicatesTail<T>(xs: seq<T>)
    requires xs != [] && NoDuplicates(xs)
    ensures NoDuplicates(xs[1..]) && xs[0] !in xs[1..]
  {
    var rest := xs[1..];
    forall i, j | 0 <= i < j < |rest| ensures rest[i] != rest[j] {
      assert rest[i] == xs[i + 1] && rest[j] == xs[j + 1];
    }
    forall i | 0 <= i < |rest| ensures rest[i] != xs[0] {
      assert rest[i] == xs[i + 1];
    }
  }
}
