/** The `List<T>` operations the category code relies on, over sequences. */
module Lists {

  /** No element occurs twice. */
  predicate NoDup<T(==)>(xs: seq<T>) {
    forall i, j :: 0 <= i < j < |xs| ==> xs[i] != xs[j]
  }

  /** Strictly increasing positions: each listed once, in order. */
  predicate Increasing(xs: seq<nat>) {
    forall i, j :: 0 <= i < j < |xs| ==> xs[i] < xs[j]
  }

  /** The `AddOnce` list extension: append `x` unless it is already present. */
  function AddOnce<T(==)>(xs: seq<T>, x: T): (r: seq<T>)
    ensures x in r
    ensures xs <= r && |r| <= |xs| + 1
    ensures forall y :: y in r ==> y in xs || y == x
    ensures x in xs ==> r == xs
    ensures NoDup(xs) ==> NoDup(r)
  {
    if x in xs then xs else xs + [x]
  }

  /** Positions `lo`, `lo + 1`, ... of `xs` whose element satisfies `p`,
      in order: what a `foreach` that adds each matching element collects. */
  function IndicesFrom<T>(xs: seq<T>, p: T -> bool, lo: nat): (r: seq<nat>)
    ensures forall j :: 0 <= j < |r| ==> lo <= r[j] < |xs| && p(xs[r[j]])
    ensures Increasing(r)
    ensures forall k: nat :: k in r <==> lo <= k < |xs| && p(xs[k])
    decreases |xs| - lo
  {
    if lo >= |xs| then []
    else if p(xs[lo]) then [lo] + IndicesFrom(xs, p, lo + 1)
    else IndicesFrom(xs, p, lo + 1)
  }

  /** All positions of `xs` whose element satisfies `p`, in order. */
  function IndicesWhere<T>(xs: seq<T>, p: T -> bool): (r: seq<nat>)
    ensures Increasing(r)
    ensures forall k: nat :: k in r <==> k < |xs| && p(xs[k])
  {
    IndicesFrom(xs, p, 0)
  }

  /** The complement of a predicate. */
  function Not<T>(p: T -> bool): T -> bool {
    y => !p(y)
  }

  /** The positions from `lo + 1` in `xs` are the positions from `lo` in
      its tail, each one further on. */
  lemma {:induction false} IndicesFromTail<T>(xs: seq<T>, p: T -> bool, lo: nat)
    requires xs != []
    ensures var whole := IndicesFrom(xs, p, lo + 1);
      var tail := IndicesFrom(xs[1..], p, lo);
      |whole| == |tail| && forall j :: 0 <= j < |whole| ==> whole[j] == tail[j] + 1
    decreases |xs| - lo
  {
    if lo + 1 < |xs| {
      var a, b := IndicesFrom(xs, p, lo + 2), IndicesFrom(xs[1..], p, lo + 1);
      IndicesFromTail(xs, p, lo + 1);
      assert xs[1..][lo] == xs[lo + 1];
      if p(xs[lo + 1]) {
        ShiftCons(a, b, lo + 1, lo);
      }
    }
  }

  /** Prepending `x + 1` and `x` keeps two lists one apart. */
  lemma ShiftCons(a: seq<nat>, b: seq<nat>, x: nat, y: nat)
    requires |a| == |b| && (forall j :: 0 <= j < |a| ==> a[j] == b[j] + 1) && x == y + 1
    ensures forall j :: 0 <= j < |a| + 1 ==> ([x] + a)[j] == ([y] + b)[j] + 1
  {
    forall j | 0 < j < |a| + 1
      ensures ([x] + a)[j] == ([y] + b)[j] + 1
    {
      assert ([x] + a)[j] == a[j - 1] && ([y] + b)[j] == b[j - 1];
    }
  }

  /** `r` holds, in order, the elements of `xs` at the positions `kept`. */
  ghost predicate Picks<T>(xs: seq<T>, kept: seq<nat>, r: seq<T>) {
    && |r| == |kept|
    && forall j :: 0 <= j < |r| ==> kept[j] < |xs| && r[j] == xs[kept[j]]
  }

  /** `List.RemoveAll`: keeps exactly the elements that do not satisfy `p`
      (in order, by `RemoveAllKeepsOrder`). */
  function RemoveAll<T(==)>(xs: seq<T>, p: T -> bool): (r: seq<T>)
    ensures forall y :: y in r ==> y in xs && !p(y)
    ensures forall y :: y in xs && !p(y) ==> multiset(r)[y] == multiset(xs)[y]
  {
    if xs == [] then []
    else
      assert multiset(xs) == multiset{xs[0]} + multiset(xs[1..]) by { assert xs == [xs[0]] + xs[1..]; }
      var rest := RemoveAll(xs[1..], p);
      if p(xs[0]) then rest
      else
        assert multiset([xs[0]] + rest) == multiset{xs[0]} + multiset(rest);
        [xs[0]] + rest
  }

  /** `RemoveAll` keeps the order: its result is the list's elements at
      the positions where `p` fails, in increasing order. */
  lemma {:induction false} RemoveAllKeepsOrder<T>(xs: seq<T>, p: T -> bool)
    ensures Picks(xs, IndicesWhere(xs, Not(p)), RemoveAll(xs, p))
  {
    if xs != [] {
      var q := Not(p);
      var rest := RemoveAll(xs[1..], p);
      var later := IndicesFrom(xs, q, 1);
      RemoveAllKeepsOrder(xs[1..], p);
      IndicesWhereCons(xs, q);
      PicksTail(xs, IndicesWhere(xs[1..], q), later, rest);
      if !p(xs[0]) {
        PicksCons(xs, later, rest);
      }
    }
  }

  /** The positions of the whole list: the head's, if it matches, then
      those of the tail, each one further on. */
  lemma IndicesWhereCons<T>(xs: seq<T>, p: T -> bool)
    requires xs != []
    ensures var later := IndicesFrom(xs, p, 1);
      && IndicesWhere(xs, p) == (if p(xs[0]) then [0] + later else later)
      && |later| == |IndicesWhere(xs[1..], p)|
      && forall j :: 0 <= j < |later| ==> later[j] == IndicesWhere(xs[1..], p)[j] + 1
  {
    assert IndicesWhere(xs, p) == IndicesFrom(xs, p, 0);
    assert IndicesWhere(xs[1..], p) == IndicesFrom(xs[1..], p, 0);
    IndicesFromTail(xs, p, 0);
  }

  /** What the tail picks, the whole list picks one position further on. */
  lemma PicksTail<T>(xs: seq<T>, tail: seq<nat>, later: seq<nat>, r: seq<T>)
    requires xs != [] && Picks(xs[1..], tail, r)
    requires |later| == |tail| && forall j :: 0 <= j < |later| ==> later[j] == tail[j] + 1
    ensures Picks(xs, later, r)
  {
    forall j | 0 <= j < |r|
      ensures later[j] < |xs| && r[j] == xs[later[j]]
    {
      assert xs[1..][tail[j]] == xs[tail[j] + 1];
    }
  }

  lemma PicksCons<T>(xs: seq<T>, later: seq<nat>, r: seq<T>)
    requires xs != [] && Picks(xs, later, r)
    ensures Picks(xs, [0] + later, [xs[0]] + r)
  {
    forall j | 0 < j < |r| + 1
      ensures ([0] + later)[j] < |xs| && ([xs[0]] + r)[j] == xs[([0] + later)[j]]
    {
      assert ([0] + later)[j] == later[j - 1] && ([xs[0]] + r)[j] == r[j - 1];
    }
  }

  /** Position of the first occurrence of `x`. */
  function FirstIndex<T(==)>(xs: seq<T>, x: T): (i: nat)
    requires x in xs
    ensures i < |xs| && xs[i] == x && x !in xs[..i]
  {
    if xs[0] == x then 0 else 1 + FirstIndex(xs[1..], x)
  }

  /** `List.Remove`: drops the first occurrence of `x`, if any; later
      occurrences stay. */
  function RemoveFirst<T(==)>(xs: seq<T>, x: T): (r: seq<T>)
    ensures x !in xs ==> r == xs
    ensures x in xs ==> r == xs[..FirstIndex(xs, x)] + xs[FirstIndex(xs, x) + 1..]
  {
    if xs == [] then []
    else if xs[0] == x then xs[1..]
    else
        var rest := RemoveFirst(xs[1..], x);
        if x in xs then RemoveFirstStep(xs, x, rest); [xs[0]] + rest else [xs[0]] + rest
  }

  /** Past a first element other than `x`, removing the first `x` from the
      tail removes the first `x` from the whole list. */
  lemma RemoveFirstStep<T>(xs: seq<T>, x: T, rest: seq<T>)
    requires x in xs && xs[0] != x
    requires rest == xs[1..][..FirstIndex(xs[1..], x)] + xs[1..][FirstIndex(xs[1..], x) + 1..]
    ensures [xs[0]] + rest == xs[..FirstIndex(xs, x)] + xs[FirstIndex(xs, x) + 1..]
  {
    var ys := xs[1..];
    var i := FirstIndex(ys, x);
    assert FirstIndex(xs, x) == 1 + i;
    assert xs[..1 + i] == [xs[0]] + ys[..i] by {
      assert forall k :: 0 <= k < i ==> xs[1 + k] == ys[k];
    }
    assert xs[1 + i + 1..] == ys[i + 1..];
  }

  /** `List.Remove` takes away exactly one occurrence of `x` when there is one. */
  lemma {:induction false} RemoveFirstCount<T>(xs: seq<T>, x: T)
    ensures multiset(RemoveFirst(xs, x)) == multiset(xs) - multiset{x}
  {
    if x in xs {
      var i := FirstIndex(xs, x);
      var front, back := xs[..i], xs[i + 1..];
      assert xs == front + [x] + back;
      assert multiset(xs) == multiset(front) + multiset{x} + multiset(back);
      assert multiset(RemoveFirst(xs, x)) == multiset(front) + multiset(back);
    } else {
      assert multiset(xs)[x] == 0;
    }
  }
}
