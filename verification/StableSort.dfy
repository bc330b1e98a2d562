/** Stable sorting by (family, ts), NULLs last: the order of every events file. */
module StableSort {
  import opened Rows

  ghost predicate Sorted(s: seq<Row>) {
    forall i, j :: 0 <= i < j < |s| ==> Le(KeyOf(s[i]), KeyOf(s[j]))
  }

  /** x put before the first row of s that it may precede. */
  function Insert(x: Row, s: seq<Row>): seq<Row> {
    if s == [] || Le(KeyOf(x), KeyOf(s[0])) then [x] + s else [s[0]] + Insert(x, s[1..])
  }

  /** The stable sort of s. */
  function Sort(s: seq<Row>): seq<Row> {
    if s == [] then [] else Insert(s[0], Sort(s[1..]))
  }

  /** The rows of s with key k, in s's order. */
  function OfKey(s: seq<Row>, k: Key): seq<Row> {
    if s == [] then []
    else (if KeyOf(s[0]) == k then [s[0]] else []) + OfKey(s[1..], k)
  }

  lemma {:induction false} OfKeyConcat(a: seq<Row>, b: seq<Row>, k: Key)
    ensures OfKey(a + b, k) == OfKey(a, k) + OfKey(b, k)
  {
    if a == [] {
      assert a + b == b;
    } else {
      OfKeyConcat(a[1..], b, k);
      assert (a + b)[1..] == a[1..] + b;
    }
  }

  lemma {:induction false} InsertKeepsOfKey(x: Row, s: seq<Row>, k: Key)
    ensures OfKey(Insert(x, s), k) == OfKey([x] + s, k)
  {
    if s == [] || Le(KeyOf(x), KeyOf(s[0])) {
    } else {
      InsertKeepsOfKey(x, s[1..], k);
      var t := Insert(x, s[1..]);
      assert ([s[0]] + t)[1..] == t;
      assert ([x] + s[1..])[1..] == s[1..] && ([x] + s)[1..] == s;
      LeTotal(KeyOf(x), KeyOf(s[0]));
    }
  }

  /** Stability: the rows of each key keep their order, none lost, none added. */
  lemma {:induction false} SortKeepsOfKey(s: seq<Row>, k: Key)
    ensures OfKey(Sort(s), k) == OfKey(s, k)
  {
    if s != [] {
      SortKeepsOfKey(s[1..], k);
      InsertKeepsOfKey(s[0], Sort(s[1..]), k);
      var t := [s[0]] + Sort(s[1..]);
      assert t[1..] == Sort(s[1..]);
    }
  }

  lemma {:induction false} InsertSorted(x: Row, s: seq<Row>)
    requires Sorted(s)
    ensures Sorted(Insert(x, s))
    ensures forall y :: y in Insert(x, s) <==> y == x || y in s
    ensures |Insert(x, s)| == |s| + 1
  {
    if s == [] {
    } else if Le(KeyOf(x), KeyOf(s[0])) {
      forall j | 0 <= j < |s|
        ensures Le(KeyOf(x), KeyOf(s[j]))
      {
        if j > 0 { LeTransitive(KeyOf(x), KeyOf(s[0]), KeyOf(s[j])); }
      }
    } else {
      InsertSorted(x, s[1..]);
      LeTotal(KeyOf(x), KeyOf(s[0]));
      assert s == [s[0]] + s[1..];
      forall y | y in Insert(x, s[1..])
        ensures Le(KeyOf(s[0]), KeyOf(y))
      {
        if y != x { assert y in s[1..]; }
      }
    }
  }

  lemma {:induction false} SortSorted(s: seq<Row>)
    ensures Sorted(Sort(s))
    ensures forall y :: y in Sort(s) <==> y in s
    ensures |Sort(s)| == |s|
  {
    if s != [] {
      SortSorted(s[1..]);
      InsertSorted(s[0], Sort(s[1..]));
      assert s == [s[0]] + s[1..];
    }
  }

  lemma {:induction false} OfKeyMembers(s: seq<Row>, k: Key)
    ensures OfKey(s, k) != [] <==> exists i :: 0 <= i < |s| && KeyOf(s[i]) == k
    ensures OfKey(s, k) != [] ==> KeyOf(OfKey(s, k)[0]) == k && OfKey(s, k)[0] in s
  {
    if s != [] {
      OfKeyMembers(s[1..], k);
      assert s == [s[0]] + s[1..];
    }
  }

  /** A sorted file is determined by its rows of each key: two sorted files
      that agree on those are the same file. */
  lemma {:induction false} SortedUnique(a: seq<Row>, b: seq<Row>)
    requires Sorted(a) && Sorted(b)
    requires forall k :: OfKey(a, k) == OfKey(b, k)
    ensures a == b
    decreases |a|
  {
    if a == [] {
      if b != [] {
        OfKeyMembers(b, KeyOf(b[0]));
        assert false;
      }
    } else {
      var x := a[0];
      var k := KeyOf(x);
      OfKeyMembers(a, k);
      OfKeyMembers(b, k);
      assert OfKey(a, k)[0] == x;
      var i :| 0 <= i < |b| && KeyOf(b[i]) == k;
      var y := b[0];
      OfKeyMembers(b, KeyOf(y));
      OfKeyMembers(a, KeyOf(y));
      assert KeyOf(b[0]) == KeyOf(y);
      var j :| 0 <= j < |a| && KeyOf(a[j]) == KeyOf(y);
      LeTotal(k, KeyOf(y));
      assert KeyOf(y) == k by {
        assert i == 0 || Le(KeyOf(b[0]), KeyOf(b[i]));
        assert j == 0 || Le(KeyOf(a[0]), KeyOf(a[j]));
      }
      assert OfKey(b, k)[0] == y;
      assert y == x;
      forall q
        ensures OfKey(a[1..], q) == OfKey(b[1..], q)
      {
        assert OfKey(a, q) == OfKey(b, q);
        var head := if q == k then [x] else [];
        assert OfKey(a, q) == head + OfKey(a[1..], q);
        assert OfKey(b, q) == head + OfKey(b[1..], q);
        assert OfKey(a, q)[|head|..] == OfKey(a[1..], q);
        assert OfKey(b, q)[|head|..] == OfKey(b[1..], q);
      }
      SortedUnique(a[1..], b[1..]);
      assert a == [x] + a[1..] && b == [x] + b[1..];
    }
  }

  /** Any sorted sequence that keeps every key's rows in order is the stable sort. */
  lemma {:induction false} StableSortUnique(s: seq<Row>, t: seq<Row>)
    requires Sorted(t)
    requires forall k :: OfKey(t, k) == OfKey(s, k)
    ensures t == Sort(s)
  {
    SortSorted(s);
    forall k
      ensures OfKey(t, k) == OfKey(Sort(s), k)
    {
      SortKeepsOfKey(s, k);
    }
    SortedUnique(t, Sort(s));
  }

  /** Sorting the parts of a file first changes nothing. */
  lemma {:induction false} SortOfParts(a: seq<Row>, b: seq<Row>)
    ensures Sort(Sort(a) + Sort(b)) == Sort(a + b)
  {
    var t := Sort(Sort(a) + Sort(b));
    SortSorted(Sort(a) + Sort(b));
    forall k
      ensures OfKey(t, k) == OfKey(a + b, k)
    {
      SortKeepsOfKey(Sort(a) + Sort(b), k);
      OfKeyConcat(Sort(a), Sort(b), k);
      SortKeepsOfKey(a, k);
      SortKeepsOfKey(b, k);
      OfKeyConcat(a, b, k);
    }
    StableSortUnique(a + b, t);
  }

  lemma {:induction false} SortOfSorted(s: seq<Row>)
    requires Sorted(s)
    ensures Sort(s) == s
  {
    StableSortUnique(s, s);
  }

  lemma {:induction false} TakenFirst(a: seq<Row>, x: Row, b: seq<Row>, k: Key)
    requires forall y :: y in a ==> !Le(KeyOf(y), KeyOf(x))
    ensures OfKey([x] + Sort(a + b), k) == OfKey(a + [x] + b, k)
  {
    OfKeyConcat([x], Sort(a + b), k);
    SortKeepsOfKey(a + b, k);
    OfKeyConcat(a, b, k);
    OfKeyConcat(a + [x], b, k);
    OfKeyConcat(a, [x], k);
    if KeyOf(x) == k {
      OfKeyMembers(a, k);
      LeTotal(k, k);
      assert OfKey(a, k) == [];
    } else {
      assert OfKey([x], k) == [];
    }
  }

  /** The row a merge may write next: one that no row before it in input order
      may precede or tie with, and no row after it may precede. */
  lemma {:induction false} SortTakesLeast(a: seq<Row>, x: Row, b: seq<Row>)
    requires forall y :: y in a ==> !Le(KeyOf(y), KeyOf(x))
    requires forall y :: y in b ==> Le(KeyOf(x), KeyOf(y))
    ensures Sort(a + [x] + b) == [x] + Sort(a + b)
  {
    var t := [x] + Sort(a + b);
    SortSorted(a + b);
    forall j | 0 <= j < |Sort(a + b)|
      ensures Le(KeyOf(x), KeyOf(Sort(a + b)[j]))
    {
      var y := Sort(a + b)[j];
      assert y in Sort(a + b);
      assert y in a + b;
      LeTotal(KeyOf(x), KeyOf(y));
    }
    forall k
      ensures OfKey(t, k) == OfKey(a + [x] + b, k)
    {
      TakenFirst(a, x, b, k);
    }
    StableSortUnique(a + [x] + b, t);
  }
}
