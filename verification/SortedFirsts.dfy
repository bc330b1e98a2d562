/** What a file of the sorted first rows is, row by row: in which order its rows
    stand, and which of all rows each of them is. */
module SortedFirsts {
  import opened Rows
  import opened StableSort
  import opened FirstRows
  import opened Segments

  // ----- the order

  /** Text a comes before text b: at the first character they differ in, or as what
      b begins with. */
  ghost predicate ComesBefore(a: string, b: string) {
    exists n {:trigger DifferAt(a, b, n)} :: DifferAt(a, b, n) && (n == |a| || a[n] < b[n])
  }

  ghost predicate DifferAt(a: string, b: string, n: int) {
    0 <= n <= |a| && n < |b| && a[..n] == b[..n]
  }

  lemma {:induction false} SameHead(a: string, b: string, n: int)
    requires DifferAt(a, b, n) && n > 0
    ensures a != [] && b != [] && a[0] == b[0] && DifferAt(a[1..], b[1..], n - 1)
  {
    assert a[..n][0] == a[0] && b[..n][0] == b[0];
    assert a[1..][..n - 1] == a[..n][1..] && b[1..][..n - 1] == b[..n][1..];
  }

  lemma {:induction false} CompareTextMeans(a: string, b: string)
    ensures CompareText(a, b) < 0 <==> ComesBefore(a, b)
  {
    forall n | DifferAt(a, b, n) && n > 0
      ensures a != [] && b != [] && a[0] == b[0] && DifferAt(a[1..], b[1..], n - 1)
    {
      SameHead(a, b, n);
    }
    if a != [] && b != [] && a[0] == b[0] {
      CompareTextMeans(a[1..], b[1..]);
      if n :| DifferAt(a[1..], b[1..], n) && (n == |a[1..]| || a[1..][n] < b[1..][n]) {
        assert a[..n + 1] == [a[0]] + a[1..][..n] && b[..n + 1] == [b[0]] + b[1..][..n];
        assert DifferAt(a, b, n + 1);
      }
      if n :| DifferAt(a, b, n) && (n == |a| || a[n] < b[n]) {
        assert n > 0 ==> DifferAt(a[1..], b[1..], n - 1);
      }
    } else if b != [] {
      assert DifferAt(a, b, 0);
    }
  }

  /** By family, a row without one after every row with one, families by their
      characters; then by ts, a row without one last. */
  ghost predicate MayPrecede(x: Row, y: Row) {
    && (x.family.None? ==> y.family.None?)
    && (x.family.Some? && y.family.Some? && x.family != y.family ==>
          ComesBefore(x.family.value, y.family.value))
    && (x.family == y.family ==>
          && (x.ts.None? ==> y.ts.None?)
          && (x.ts.Some? && y.ts.Some? ==> x.ts.value <= y.ts.value))
  }

  ghost predicate InFileOrder(rows: seq<Row>) {
    forall i, j {:trigger rows[i], rows[j]} :: 0 <= i < j < |rows| ==> MayPrecede(rows[i], rows[j])
  }

  lemma {:induction false} LeMeans(x: Row, y: Row)
    ensures Le(KeyOf(x), KeyOf(y)) <==> MayPrecede(x, y)
  {
    if x.family.Some? && y.family.Some? {
      var a, b := x.family.value, y.family.value;
      CompareTextMeans(a, b);
      CompareTextAntisymmetric(a, b);
    }
  }

  /** What the sort compares by is that order. */
  lemma {:induction false} SortedIsFileOrder(rows: seq<Row>)
    ensures Sorted(rows) <==> InFileOrder(rows)
  {
    forall i, j | 0 <= i < j < |rows|
      ensures Le(KeyOf(rows[i]), KeyOf(rows[j])) <==> MayPrecede(rows[i], rows[j])
    {
      LeMeans(rows[i], rows[j]);
    }
  }

  // ----- the rows

  ghost predicate SameKey(x: Row, y: Row) {
    x.family == y.family && x.ts == y.ts
  }

  /** out are the first rows of their ids among all, each id's, and of one family and
      ts in the order of all; at says where each stands. */
  ghost predicate AreFirsts(all: seq<Row>, out: seq<Row>, at: seq<nat>) {
    && |at| == |out|
    && (forall i {:trigger at[i]} :: 0 <= i < |at| ==> at[i] < |all| && out[i] == all[at[i]])
    && (forall i, q {:trigger at[i], all[q]} :: 0 <= i < |at| && 0 <= q < at[i] && q < |all| ==> all[q].id != out[i].id)
    && (forall q {:trigger all[q]} :: 0 <= q < |all| ==> exists i :: 0 <= i < |out| && out[i].id == all[q].id)
    && (forall i, j {:trigger at[i], at[j]} :: 0 <= i < j < |at| && SameKey(out[i], out[j]) ==> at[i] < at[j])
  }

  /** Where the first row of an id stands. */
  function FirstAt(all: seq<Row>, id: Id): nat {
    if all == [] || all[0].id == id then 0 else 1 + FirstAt(all[1..], id)
  }

  lemma {:induction false} FirstAtIs(all: seq<Row>, id: Id, p: nat)
    requires p < |all| && all[p].id == id && forall q :: 0 <= q < p ==> all[q].id != id
    ensures FirstAt(all, id) == p
  {
    if p > 0 { FirstAtIs(all[1..], id, p - 1); }
  }

  /** A kept row stands where its id does first. */
  lemma {:induction false} KeptAt(all: seq<Row>, r: Row)
    requires r in First({}, all)
    ensures FirstAt(all, r.id) < |all| && all[FirstAt(all, r.id)] == r
    ensures forall q :: 0 <= q < FirstAt(all, r.id) ==> all[q].id != r.id
  {
    var p := FirstPlace({}, all, r);
    FirstAtIs(all, r.id, p);
  }

  /** Kept rows stand in order. */
  lemma {:induction false} KeptInOrder(seen: set<Id>, all: seq<Row>, i: nat, j: nat)
    requires i < j < |First(seen, all)|
    ensures FirstAt(all, First(seen, all)[i].id) < FirstAt(all, First(seen, all)[j].id)
    decreases all
  {
    FirstKeeps(seen, all);
    if all[0].id in seen {
      var f := First(seen, all[1..]);
      FirstKeeps(seen, all[1..]);
      assert f[i] in f && f[j] in f;
      assert f[i].id in Ids(f) && f[j].id in Ids(f);
      KeptInOrder(seen, all[1..], i, j);
    } else {
      var f := First(seen + {all[0].id}, all[1..]);
      FirstKeeps(seen + {all[0].id}, all[1..]);
      assert f[j - 1].id in Ids(f) by { assert f[j - 1] in f; }
      if i > 0 {
        assert f[i - 1].id in Ids(f) by { assert f[i - 1] in f; }
        KeptInOrder(seen + {all[0].id}, all[1..], i - 1, j - 1);
      }
    }
  }

  /** Rows of one key come in its list in their order. */
  lemma {:induction false} OfKeyHas(s: seq<Row>, k: Key, i: nat) returns (x: nat)
    requires i < |s| && KeyOf(s[i]) == k
    ensures x < |OfKey(s, k)| && OfKey(s, k)[x] == s[i] && x == |OfKey(s[..i], k)|
  {
    assert s == s[..i] + s[i..];
    OfKeyConcat(s[..i], s[i..], k);
    x := |OfKey(s[..i], k)|;
    assert s[i..][0] == s[i];
  }

  lemma {:induction false} OfKeyHasInOrder(s: seq<Row>, k: Key, i: nat, j: nat) returns (x: nat, y: nat)
    requires i < j < |s| && KeyOf(s[i]) == k && KeyOf(s[j]) == k
    ensures x < y < |OfKey(s, k)| && OfKey(s, k)[x] == s[i] && OfKey(s, k)[y] == s[j]
  {
    x := OfKeyHas(s, k, i);
    y := OfKeyHas(s, k, j);
    assert s[..j][..i] == s[..i];
    var z := OfKeyHas(s[..j], k, i);
  }

  lemma {:induction false} OfKeyFrom(s: seq<Row>, k: Key, x: nat, y: nat) returns (i: nat, j: nat)
    requires x < y < |OfKey(s, k)|
    ensures i < j < |s| && s[i] == OfKey(s, k)[x] && s[j] == OfKey(s, k)[y]
  {
    if KeyOf(s[0]) != k {
      i, j := OfKeyFrom(s[1..], k, x, y);
      i, j := i + 1, j + 1;
    } else if x > 0 {
      i, j := OfKeyFrom(s[1..], k, x - 1, y - 1);
      i, j := i + 1, j + 1;
    } else {
      i := 0;
      j := OneFrom(s[1..], k, y - 1);
      j := j + 1;
    }
  }

  lemma {:induction false} OneFrom(s: seq<Row>, k: Key, y: nat) returns (j: nat)
    requires y < |OfKey(s, k)|
    ensures j < |s| && s[j] == OfKey(s, k)[y]
  {
    if KeyOf(s[0]) == k && y == 0 {
      j := 0;
    } else {
      j := OneFrom(s[1..], k, if KeyOf(s[0]) == k then y - 1 else y);
      j := j + 1;
    }
  }

  /** Two rows of a dump of one key stand in all in the order they have in the dump. */
  lemma {:induction false} DumpInOrder(all: seq<Row>, i: nat, j: nat)
    requires i < j < |DumpOf(all)| && SameKey(DumpOf(all)[i], DumpOf(all)[j])
    ensures FirstAt(all, DumpOf(all)[i].id) < FirstAt(all, DumpOf(all)[j].id)
  {
    var out, kept := DumpOf(all), First({}, all);
    var k := KeyOf(out[i]);
    SortKeepsOfKey(kept, k);
    var x, y := OfKeyHasInOrder(out, k, i, j);
    var a, b := OfKeyFrom(kept, k, x, y);
    KeptInOrder({}, all, a, b);
  }

  function FirstPlaces(all: seq<Row>, out: seq<Row>): seq<nat> {
    seq(|out|, i requires 0 <= i < |out| => FirstAt(all, out[i].id))
  }

  /** A dump of all rows is their first rows, in order. */
  lemma {:induction false} DumpIsFirsts(all: seq<Row>)
    ensures AreFirsts(all, DumpOf(all), FirstPlaces(all, DumpOf(all))) && InFileOrder(DumpOf(all))
  {
    var out := DumpOf(all);
    var at := FirstPlaces(all, out);
    DumpKeepsIds(all);
    SortedIsFileOrder(out);
    SortSorted(First({}, all));
    forall i | 0 <= i < |out|
      ensures at[i] < |all| && out[i] == all[at[i]] && forall q :: 0 <= q < at[i] ==> all[q].id != out[i].id
    {
      assert out[i] in out;
      KeptAt(all, out[i]);
    }
    forall q | 0 <= q < |all|
      ensures exists i :: 0 <= i < |out| && out[i].id == all[q].id
    {
      assert all[q].id in Ids(all);
      var r :| r in out && r.id == all[q].id;
    }
    forall i, j | 0 <= i < j < |out| && SameKey(out[i], out[j])
      ensures at[i] < at[j]
    {
      DumpInOrder(all, i, j);
    }
  }
}
