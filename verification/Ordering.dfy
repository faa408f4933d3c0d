/** Ordering for the database queries the model needs: `ORDER BY` becomes a
    stable insertion sort under a total preorder, and `WHERE` becomes a filter
    that keeps the order it was given. */
module Ordering {

  /** `le` is total and transitive: a sort key with possible ties. */
  ghost predicate TotalPreorder<T(!new)>(le: (T, T) -> bool) {
    && (forall x, y :: le(x, y) || le(y, x))
    && (forall x, y, z :: le(x, y) && le(y, z) ==> le(x, z))
  }

  predicate SortedBy<T>(le: (T, T) -> bool, xs: seq<T>) {
    forall i, j :: 0 <= i < j < |xs| ==> le(xs[i], xs[j])
  }

  /** Puts `x` in front of the first element it does not follow. */
  function Insert<T(!new)>(le: (T, T) -> bool, x: T, xs: seq<T>): (r: seq<T>)
    requires TotalPreorder(le)
    requires SortedBy(le, xs)
    ensures SortedBy(le, r)
    ensures multiset(r) == multiset(xs) + multiset{x}
    decreases |xs|
  {
    if xs == [] || le(x, xs[0]) then
      [x] + xs
    else
      var rest := Insert(le, x, xs[1..]);
      InsertedAfterHead(le, x, xs, rest);
      ConsSorted(le, xs[0], rest);
      assert xs == [xs[0]] + xs[1..];
      [xs[0]] + rest
  }

  /** When `x` goes after the head of `xs`, the head comes before everything
      inserting `x` into the tail produces. */
  lemma InsertedAfterHead<T(!new)>(le: (T, T) -> bool, x: T, xs: seq<T>, rest: seq<T>)
    requires TotalPreorder(le) && SortedBy(le, xs)
    requires xs != [] && !le(x, xs[0])
    requires multiset(rest) == multiset(xs[1..]) + multiset{x}
    ensures forall e :: e in rest ==> le(xs[0], e)
  {
    forall e | e in rest
      ensures le(xs[0], e)
    {
      assert e in multiset(rest);
      if e != x {
        assert e in multiset(xs[1..]);
        var j :| 0 <= j < |xs[1..]| && xs[1..][j] == e;
        assert xs[j + 1] == e;
      }
    }
  }

  /** A sorted sequence stays sorted behind a head that precedes all of it. */
  lemma ConsSorted<T>(le: (T, T) -> bool, h: T, t: seq<T>)
    requires SortedBy(le, t)
    requires forall e :: e in t ==> le(h, e)
    ensures SortedBy(le, [h] + t)
  {
    var r := [h] + t;
    forall i, j | 0 <= i < j < |r|
      ensures le(r[i], r[j])
    {
      assert r[j] == t[j - 1];
      if i > 0 {
        assert r[i] == t[i - 1];
      }
    }
  }

  /** `ORDER BY le`: a permutation of `xs` sorted under `le`. */
  function Sort<T(!new)>(le: (T, T) -> bool, xs: seq<T>): (r: seq<T>)
    requires TotalPreorder(le)
    ensures SortedBy(le, r)
    ensures multiset(r) == multiset(xs)
    decreases |xs|
  {
    if xs == [] then []
    else
      assert xs == [xs[0]] + xs[1..];
      Insert(le, xs[0], Sort(le, xs[1..]))
  }

  /** Sorting keeps exactly the elements it was given. */
  lemma SortKeepsMembers<T(!new)>(le: (T, T) -> bool, xs: seq<T>)
    requires TotalPreorder(le)
    ensures forall x :: x in Sort(le, xs) <==> x in xs
  {
    var r := Sort(le, xs);
    forall x
      ensures x in r <==> x in xs
    {
      assert x in r <==> x in multiset(r);
      assert x in xs <==> x in multiset(xs);
    }
  }

  /** `WHERE p`: the elements of `xs` that satisfy `p`, in their original order;
      each one as often as it occurs in `xs`. */
  function Filter<T(!new)>(p: T -> bool, xs: seq<T>): (r: seq<T>)
    ensures forall x :: x in r <==> x in xs && p(x)
    ensures forall x :: multiset(r)[x] == (if p(x) then multiset(xs)[x] else 0)
    ensures multiset(r) <= multiset(xs)
    decreases |xs|
  {
    if xs == [] then []
    else
      assert xs == [xs[0]] + xs[1..];
      var rest := Filter(p, xs[1..]);
      var r := (if p(xs[0]) then [xs[0]] else []) + rest;
      assert multiset(r) == (if p(xs[0]) then multiset{xs[0]} else multiset{}) + multiset(rest);
      r
  }

  /** Filtering a sorted sequence leaves it sorted. */
  lemma {:induction false} FilterKeepsOrder<T(!new)>(le: (T, T) -> bool, p: T -> bool, xs: seq<T>)
    ensures SortedBy(le, xs) ==> SortedBy(le, Filter(p, xs))
    decreases |xs|
  {
    if xs != [] && SortedBy(le, xs) {
      FilterKeepsOrder(le, p, xs[1..]);
      var rest := Filter(p, xs[1..]);
      forall e | e in rest
        ensures le(xs[0], e)
      {
        assert e in xs[1..];
        var j :| 0 <= j < |xs[1..]| && xs[1..][j] == e;
        assert xs[j + 1] == e;
      }
      assert Filter(p, xs) == (if p(xs[0]) then [xs[0]] else []) + rest;
      if p(xs[0]) {
        ConsSorted(le, xs[0], rest);
      }
    }
  }

  /** In a sequence holding nothing but `v`, `v` occurs once per element. */
  lemma {:induction false} CountOfConstant<T>(xs: seq<T>, v: T)
    requires forall i :: 0 <= i < |xs| ==> xs[i] == v
    ensures multiset(xs)[v] == |xs|
    decreases |xs|
  {
    if xs != [] {
      assert xs == [xs[0]] + xs[1..];
      CountOfConstant(xs[1..], v);
    }
  }

  /** A sequence in which nothing occurs twice has no repeated position. */
  lemma NoRepeats<T>(xs: seq<T>)
    requires forall x :: multiset(xs)[x] <= 1
    ensures forall i, j :: 0 <= i < j < |xs| ==> xs[i] != xs[j]
  {
    forall i, j | 0 <= i < j < |xs|
      ensures xs[i] != xs[j]
    {
      var v := xs[i];
      assert xs == xs[..j] + xs[j..];
      assert xs[..j][i] == v && xs[j..][0] == xs[j];
      assert multiset(xs)[v] == multiset(xs[..j])[v] + multiset(xs[j..])[v];
      assert multiset(xs[..j])[v] >= 1;
    }
  }
}
