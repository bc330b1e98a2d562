/** A month's input files by row group: where in them a row stands, and what the
    merged file has of them, row by row. */
module RowGroups {
  import opened Rows
  import opened StableSort
  import opened FirstRows
  import opened Segments
  import opened SortedFirsts

  /** An input: its row groups. */
  type Groups = seq<seq<Row>>

  /** The file's number of row group g's first row. */
  function GroupRow(groups: Groups, g: nat): nat
    requires g <= |groups|
  {
    if g == 0 then 0 else GroupRow(groups, g - 1) + |groups[g - 1]|
  }

  lemma {:induction false} ConcatSnoc(a: seq<seq<Row>>, x: seq<Row>)
    ensures Concat(a + [x]) == Concat(a) + x
  {
    if a == [] {
      assert a + [x] == [x] && [x][1..] == [];
    } else {
      ConcatSnoc(a[1..], x);
      assert (a + [x])[1..] == a[1..] + [x];
    }
  }

  lemma {:induction false} GroupRowIsPrefix(groups: Groups, g: nat)
    requires g <= |groups|
    ensures GroupRow(groups, g) == |Concat(groups[..g])|
  {
    if g > 0 {
      GroupRowIsPrefix(groups, g - 1);
      assert groups[..g] == groups[..g - 1] + [groups[g - 1]];
      ConcatSnoc(groups[..g - 1], groups[g - 1]);
    }
  }

  lemma {:induction false} ConcatConcat(a: seq<seq<Row>>, b: seq<seq<Row>>)
    ensures Concat(a + b) == Concat(a) + Concat(b)
  {
    if a == [] {
      assert a + b == b;
    } else {
      ConcatConcat(a[1..], b);
      assert (a + b)[0] == a[0] && (a + b)[1..] == a[1..] + b;
    }
  }

  /** Row r of group g is the file's row GroupRow(g) + r. */
  lemma {:induction false} RowOfGroup(groups: Groups, g: nat, r: nat)
    requires g < |groups| && r < |groups[g]|
    ensures GroupRow(groups, g) + r < |Concat(groups)|
    ensures Concat(groups)[GroupRow(groups, g) + r] == groups[g][r]
  {
    GroupRowIsPrefix(groups, g);
    var t := groups[g..];
    assert t[0] == groups[g];
    assert groups == groups[..g] + t;
    ConcatConcat(groups[..g], t);
  }

  function Files(inputs: seq<Groups>): seq<seq<Row>> {
    seq(|inputs|, i requires 0 <= i < |inputs| => Concat(inputs[i]))
  }

  ghost predicate AllSorted(inputs: seq<Groups>) {
    forall i :: 0 <= i < |inputs| ==> Sorted(Concat(inputs[i]))
  }

  // ----- places

  /** A row of the inputs: its file, its row group there, and its row in that. */
  datatype Place = Place(file: nat, group: nat, row: nat)

  ghost predicate IsPlace(inputs: seq<Groups>, p: Place) {
    p.file < |inputs| && p.group < |inputs[p.file]| && p.row < |inputs[p.file][p.group]|
  }

  ghost function RowAt(inputs: seq<Groups>, p: Place): Row
    requires IsPlace(inputs, p)
  {
    inputs[p.file][p.group][p.row]
  }

  ghost predicate Earlier(p: Place, q: Place) {
    || p.file < q.file
    || (p.file == q.file && p.group < q.group)
    || (p.file == q.file && p.group == q.group && p.row < q.row)
  }

  /** rows are the first of their ids in the inputs, each id's, and of one family
      and ts in the order of the inputs; at says where each stands. */
  ghost predicate AreFirstRows(inputs: seq<Groups>, rows: seq<Row>, at: seq<Place>) {
    && |at| == |rows|
    && (forall i {:trigger at[i]} :: 0 <= i < |at| ==> IsPlace(inputs, at[i]) && rows[i] == RowAt(inputs, at[i]))
    && (forall i, p {:trigger at[i], IsPlace(inputs, p)} ::
          0 <= i < |at| && IsPlace(inputs, p) && Earlier(p, at[i]) ==> RowAt(inputs, p).id != rows[i].id)
    && (forall p {:trigger IsPlace(inputs, p)} :: IsPlace(inputs, p) ==>
          exists i :: 0 <= i < |rows| && rows[i].id == RowAt(inputs, p).id)
    && (forall i, j {:trigger at[i], at[j]} ::
          0 <= i < j < |at| && rows[i].family == rows[j].family && rows[i].ts == rows[j].ts ==> Earlier(at[i], at[j]))
  }

  /** Two rows of file f stand in it the wrong way round. */
  ghost predicate OutOfOrder(inputs: seq<Groups>, f: nat) {
    exists p, q {:trigger IsPlace(inputs, p), IsPlace(inputs, q)} ::
      && IsPlace(inputs, p) && IsPlace(inputs, q) && p.file == f == q.file
      && Earlier(p, q) && !MayPrecede(RowAt(inputs, p), RowAt(inputs, q))
  }

  // ----- places and numbers of rows

  /** The row group of the file's row n, and its row there. */
  function GroupOf(groups: Groups, n: nat): (p: (nat, nat))
    requires n < |Concat(groups)|
    ensures p.0 < |groups| && p.1 < |groups[p.0]|
  {
    if n < |groups[0]| then (0, n)
    else var p := GroupOf(groups[1..], n - |groups[0]|); (p.0 + 1, p.1)
  }

  lemma {:induction false} GroupRowOfTail(groups: Groups, g: nat)
    requires 0 < g <= |groups|
    ensures GroupRow(groups, g) == |groups[0]| + GroupRow(groups[1..], g - 1)
  {
    if g > 1 { GroupRowOfTail(groups, g - 1); }
  }

  lemma {:induction false} GroupOfIs(groups: Groups, n: nat)
    requires n < |Concat(groups)|
    ensures GroupRow(groups, GroupOf(groups, n).0) + GroupOf(groups, n).1 == n
  {
    if n >= |groups[0]| {
      GroupOfIs(groups[1..], n - |groups[0]|);
      GroupRowOfTail(groups, GroupOf(groups, n).0);
    }
  }

  lemma {:induction false} GroupRowAscends(groups: Groups, g: nat, h: nat)
    requires g < h <= |groups|
    ensures GroupRow(groups, g) + |groups[g]| <= GroupRow(groups, h)
  {
    if g + 1 < h { GroupRowAscends(groups, g, h - 1); }
  }

  /** The number of p's row in its file. */
  ghost function RowInFile(inputs: seq<Groups>, p: Place): (n: nat)
    requires IsPlace(inputs, p)
    ensures n < |Concat(inputs[p.file])| && Concat(inputs[p.file])[n] == RowAt(inputs, p)
  {
    RowOfGroup(inputs[p.file], p.group, p.row);
    GroupRow(inputs[p.file], p.group) + p.row
  }

  /** The number of p's row in all the inputs. */
  ghost function FlatAt(inputs: seq<Groups>, p: Place): (n: nat)
    requires IsPlace(inputs, p)
    ensures n < |Concat(Files(inputs))| && Concat(Files(inputs))[n] == RowAt(inputs, p)
  {
    RowOfGroup(Files(inputs), p.file, RowInFile(inputs, p));
    GroupRow(Files(inputs), p.file) + RowInFile(inputs, p)
  }

  ghost function PlaceInFile(inputs: seq<Groups>, f: nat, n: nat): (p: Place)
    requires f < |inputs| && n < |Concat(inputs[f])|
    ensures IsPlace(inputs, p) && p.file == f && RowInFile(inputs, p) == n
  {
    GroupOfIs(inputs[f], n);
    Place(f, GroupOf(inputs[f], n).0, GroupOf(inputs[f], n).1)
  }

  ghost function PlaceOf(inputs: seq<Groups>, n: nat): (p: Place)
    requires n < |Concat(Files(inputs))|
    ensures IsPlace(inputs, p) && FlatAt(inputs, p) == n
  {
    GroupOfIs(Files(inputs), n);
    PlaceInFile(inputs, GroupOf(Files(inputs), n).0, GroupOf(Files(inputs), n).1)
  }

  lemma {:induction false} InFileInOrder(inputs: seq<Groups>, p: Place, q: Place)
    requires IsPlace(inputs, p) && IsPlace(inputs, q) && p.file == q.file
    ensures Earlier(p, q) <==> RowInFile(inputs, p) < RowInFile(inputs, q)
  {
    if p.group < q.group { GroupRowAscends(inputs[p.file], p.group, q.group); }
    if q.group < p.group { GroupRowAscends(inputs[p.file], q.group, p.group); }
  }

  lemma {:induction false} FlatInOrder(inputs: seq<Groups>, p: Place, q: Place)
    requires IsPlace(inputs, p) && IsPlace(inputs, q)
    ensures Earlier(p, q) <==> FlatAt(inputs, p) < FlatAt(inputs, q)
  {
    if p.file == q.file { InFileInOrder(inputs, p, q); }
    if p.file < q.file { GroupRowAscends(Files(inputs), p.file, q.file); }
    if q.file < p.file { GroupRowAscends(Files(inputs), q.file, p.file); }
  }

  // ----- what a merge is

  ghost function PlacesOf(inputs: seq<Groups>, at: seq<nat>): seq<Place>
    requires forall i :: 0 <= i < |at| ==> at[i] < |Concat(Files(inputs))|
  {
    seq(|at|, i requires 0 <= i < |at| => PlaceOf(inputs, at[i]))
  }

  lemma {:induction false} FirstsAreFirstRows(inputs: seq<Groups>, rows: seq<Row>, at: seq<nat>)
    requires AreFirsts(Concat(Files(inputs)), rows, at)
    ensures forall i :: 0 <= i < |at| ==> at[i] < |Concat(Files(inputs))|
    ensures AreFirstRows(inputs, rows, PlacesOf(inputs, at))
  {
    var all := Concat(Files(inputs));
    assert forall i :: 0 <= i < |at| ==> at[i] < |all|;
    var places := PlacesOf(inputs, at);
    forall i | 0 <= i < |places|
      ensures IsPlace(inputs, places[i]) && FlatAt(inputs, places[i]) == at[i] && rows[i] == RowAt(inputs, places[i])
    {
    }
    forall i, p | 0 <= i < |places| && IsPlace(inputs, p) && Earlier(p, places[i])
      ensures RowAt(inputs, p).id != rows[i].id
    {
      FlatInOrder(inputs, p, places[i]);
      assert all[FlatAt(inputs, p)].id != rows[i].id;
    }
    forall p | IsPlace(inputs, p)
      ensures exists i :: 0 <= i < |rows| && rows[i].id == RowAt(inputs, p).id
    {
      var n := FlatAt(inputs, p);
      assert all[n] == RowAt(inputs, p);
      var i :| 0 <= i < |rows| && rows[i].id == all[n].id;
    }
    forall i, j | 0 <= i < j < |places| && SameKey(rows[i], rows[j])
      ensures Earlier(places[i], places[j])
    {
      FlatInOrder(inputs, places[i], places[j]);
    }
  }

  lemma {:induction false} SortedMeans(inputs: seq<Groups>, f: nat)
    requires f < |inputs|
    ensures Sorted(Concat(inputs[f])) <==> !OutOfOrder(inputs, f)
  {
    var rows := Concat(inputs[f]);
    SortedIsFileOrder(rows);
    if InFileOrder(rows) {
      forall p, q | IsPlace(inputs, p) && IsPlace(inputs, q) && p.file == f == q.file && Earlier(p, q)
        ensures MayPrecede(RowAt(inputs, p), RowAt(inputs, q))
      {
        InFileInOrder(inputs, p, q);
        assert MayPrecede(rows[RowInFile(inputs, p)], rows[RowInFile(inputs, q)]);
      }
    } else {
      var i, j :| 0 <= i < j < |rows| && !MayPrecede(rows[i], rows[j]);
      var p, q := PlaceInFile(inputs, f, i), PlaceInFile(inputs, f, j);
      InFileInOrder(inputs, p, q);
      assert IsPlace(inputs, p) && IsPlace(inputs, q);
    }
  }

  /** A merge is the first row of each id over the inputs, by family and ts; it is
      what sorted files merge to. */
  lemma {:induction false} MergeMeans(inputs: seq<Groups>) returns (at: seq<Place>)
    ensures AreFirstRows(inputs, MergeOf(Files(inputs)), at) && InFileOrder(MergeOf(Files(inputs)))
    ensures AllSorted(inputs) <==> forall f :: 0 <= f < |inputs| ==> !OutOfOrder(inputs, f)
    ensures forall f :: 0 <= f < |inputs| && !Sorted(Concat(inputs[f])) ==> OutOfOrder(inputs, f)
  {
    var all := Concat(Files(inputs));
    DumpIsFirsts(all);
    FirstsAreFirstRows(inputs, MergeOf(Files(inputs)), FirstPlaces(all, DumpOf(all)));
    at := PlacesOf(inputs, FirstPlaces(all, DumpOf(all)));
    forall f | 0 <= f < |inputs|
      ensures Sorted(Concat(inputs[f])) <==> !OutOfOrder(inputs, f)
    {
      SortedMeans(inputs, f);
    }
  }
}
