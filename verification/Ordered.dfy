/** Lists in strict order, each element once. */
module Ordered {
  /** x put in its place of an ordered listing, unless it is there. */
  function Put<T(==)>(before: (T, T) -> bool, s: seq<T>, x: T): seq<T> {
    if s == [] || before(x, s[0]) then [x] + s
    else if x == s[0] then s
    else [s[0]] + Put(before, s[1..], x)
  }

  ghost predicate InOrder<T>(before: (T, T) -> bool, s: seq<T>) {
    forall j, k :: 0 <= j < k < |s| ==> before(s[j], s[k])
  }

  ghost predicate IsTransitive<T(!new)>(before: (T, T) -> bool) {
    forall x, y, z :: before(x, y) && before(y, z) ==> before(x, z)
  }

  lemma {:induction false} PutInOrder<T(!new)>(before: (T, T) -> bool, s: seq<T>, x: T)
    requires IsTransitive(before) && InOrder(before, s)
    requires forall y :: y in s ==> before(x, y) || x == y || before(y, x)
    ensures InOrder(before, Put(before, s, x))
    ensures forall y :: y in Put(before, s, x) <==> y == x || y in s
  {
    if s == [] || before(x, s[0]) {
    } else if x != s[0] {
      assert s == [s[0]] + s[1..];
      PutInOrder(before, s[1..], x);
      var r := Put(before, s[1..], x);
      forall k | 0 <= k < |r|
        ensures before(s[0], r[k])
      {
        assert r[k] in r;
      }
    }
  }

  /** A set has one listing in order. */
  lemma {:induction false} OrderedUnique<T(!new)>(before: (T, T) -> bool, a: seq<T>, b: seq<T>)
    requires forall x, y :: before(x, y) ==> !before(y, x)
    requires InOrder(before, a) && InOrder(before, b)
    requires forall x :: x in a <==> x in b
    ensures a == b
  {
    assert b != [] ==> b[0] in b;
    if a != [] {
      assert a[0] in a && b != [];
      assert b[0] in a && a[0] in b;
      assert a[0] == b[0];
      assert a == [a[0]] + a[1..] && b == [b[0]] + b[1..];
      forall x
        ensures x in a[1..] <==> x in b[1..]
      {
        if x in a[1..] || x in b[1..] { assert x in a && x in b && x != a[0]; }
      }
      OrderedUnique(before, a[1..], b[1..]);
    }
  }

  predicate Less(a: int, b: int) {
    a < b
  }

  lemma {:induction false} SomeIn(s: set<int>)
    requires s != {}
    ensures exists x :: x in s
  {
    assert (forall x :: x !in s) ==> s <= {};
  }

  /** slices.Sorted of a set. */
  method SortedSet(s: set<int>) returns (r: seq<int>)
    ensures InOrder(Less, r) && forall x :: x in r <==> x in s
  {
    r := [];
    var rest := s;
    while rest != {}
      invariant rest <= s && forall x :: x in r <==> x in s && x !in rest
      invariant InOrder(Less, r)
      decreases rest
    {
      SomeIn(rest);
      var x :| x in rest;
      rest := rest - {x};
      PutInOrder(Less, r, x);
      r := Put(Less, r, x);
    }
  }
}
