/** What a dump writes and refuses, line by line: each row is the line its id first
    has in the log, with every value of it. */
module LogLines {
  import opened Rows
  import opened StableSort
  import opened FirstRows
  import opened Segments
  import opened SortedFirsts
  import opened Dump

  /** The row has the line's values, each of which its column can hold. */
  ghost predicate IsRowOf(row: Row, line: Line) {
    && line.Object?
    && line.id == Fits(row.id) && line.family == Fits(row.family) && line.ts == Fits(row.ts)
    && row.cells == line.rest
  }

  /** rows are the first lines of their ids, each id's, and of one family and ts in
      the order of the log; at says which line each is. */
  ghost predicate AreFirstLines(log: seq<Line>, rows: seq<Row>, at: seq<nat>) {
    && |at| == |rows|
    && (forall i {:trigger at[i]} :: 0 <= i < |at| ==> at[i] < |log| && IsRowOf(rows[i], log[at[i]]))
    && (forall i, q {:trigger at[i], log[q]} ::
          0 <= i < |at| && 0 <= q < at[i] && q < |log| && log[q].Object? ==> log[q].id != Fits(rows[i].id))
    && (forall q {:trigger log[q]} :: 0 <= q < |log| && log[q].Object? ==>
          exists i :: 0 <= i < |rows| && log[q].id == Fits(rows[i].id))
    && (forall i, j {:trigger at[i], at[j]} ::
          0 <= i < j < |at| && rows[i].family == rows[j].family && rows[i].ts == rows[j].ts ==> at[i] < at[j])
  }

  ghost predicate IsIdless(l: Line) {
    l.Object? && l.id == Fits(None)
  }

  /** Line q is not read: no object, too long, or a value that is none of its column's;
      of a repeat without an id the family is not looked at. */
  ghost predicate IsUnread(log: seq<Line>, q: nat)
    requires q < |log|
  {
    var l := log[q];
    l.Garbage? ||
    (l.Object? &&
     (l.len >= 0x8000_0000 || l.id.Unfit? || l.ts.Unfit? ||
      (l.family.Unfit? && !(IsIdless(l) && exists p :: 0 <= p < q && IsIdless(log[p])))))
  }

  ghost predicate IsFirstOfId(log: seq<Line>, q: nat)
    requires q < |log|
  {
    log[q].Object? && forall p :: 0 <= p < q && log[p].Object? ==> log[p].id != log[q].id
  }

  /** Line q fails the dump: it is not read, or the first of its id and with a value
      among the others that its column cannot hold. */
  ghost predicate IsRefused(log: seq<Line>, q: nat)
    requires q < |log|
  {
    IsUnread(log, q) || (IsFirstOfId(log, q) && exists k :: k in log[q].rest && log[q].rest[k].Misfit?)
  }

  // ----- lines and the rows they decode to

  lemma {:induction false} DecodedHas(log: seq<Line>, r: Row)
    ensures r in Decoded(log) <==> exists p :: 0 <= p < |log| && log[p].Object? && Decode(log[p]) == r
  {
    if log != [] {
      DecodedHas(log[1..], r);
      if p :| 0 <= p < |log[1..]| && log[1..][p].Object? && Decode(log[1..][p]) == r { assert log[p + 1].Object?; }
      if p :| 0 <= p < |log| && log[p].Object? && Decode(log[p]) == r {
        if p > 0 { assert log[1..][p - 1].Object?; }
      }
    }
  }

  lemma {:induction false} IdsHave(log: seq<Line>, id: Id)
    ensures id in Ids(Decoded(log)) <==> exists p :: 0 <= p < |log| && log[p].Object? && ValueOr(log[p].id) == id
  {
    if id in Ids(Decoded(log)) {
      var r :| r in Decoded(log) && r.id == id;
      DecodedHas(log, r);
    }
    if p :| 0 <= p < |log| && log[p].Object? && ValueOr(log[p].id) == id {
      DecodedHas(log, Decode(log[p]));
    }
  }

  lemma {:induction false} ReadsMeans(log: seq<Line>, q: nat)
    requires q < |log| && forall p :: 0 <= p < q && log[p].Object? ==> log[p].id.Fits?
    ensures Reads(Ids(Decoded(log[..q])), log[q]) <==> !IsUnread(log, q)
  {
    IdsHave(log[..q], None);
    if p :| 0 <= p < |log[..q]| && log[..q][p].Object? && ValueOr(log[..q][p].id) == None { assert IsIdless(log[p]); }
    if p :| 0 <= p < q && IsIdless(log[p]) { assert log[..q][p].Object? && ValueOr(log[..q][p].id) == None; }
  }

  lemma {:induction false} AllReadMeans(log: seq<Line>)
    ensures AllRead(log) <==> forall q :: 0 <= q < |log| ==> !IsUnread(log, q)
  {
    if AllRead(log) {
      forall q | 0 <= q < |log|
        ensures !IsUnread(log, q)
      {
        forall p | 0 <= p < q && log[p].Object?
          ensures log[p].id.Fits?
        {
          assert Reads(Ids(Decoded(log[..p])), log[p]);
        }
        ReadsMeans(log, q);
      }
    }
    if forall q :: 0 <= q < |log| ==> !IsUnread(log, q) {
      forall q | 0 <= q < |log|
        ensures Reads(Ids(Decoded(log[..q])), log[q])
      {
        forall p | 0 <= p < q && log[p].Object?
          ensures log[p].id.Fits?
        {
          assert !IsUnread(log, p);
        }
        ReadsMeans(log, q);
      }
    }
  }

  /** The line of the q-th row. */
  ghost function LineOf(log: seq<Line>, q: nat): (l: nat)
    requires q < |Decoded(log)|
    ensures l < |log| && log[l].Object? && Decode(log[l]) == Decoded(log)[q]
  {
    if log[0].Object? then if q == 0 then 0 else 1 + LineOf(log[1..], q - 1)
    else 1 + LineOf(log[1..], q)
  }

  lemma {:induction false} LinesInOrder(log: seq<Line>, p: nat, q: nat)
    requires p < q < |Decoded(log)|
    ensures LineOf(log, p) < LineOf(log, q)
  {
    if log[0].Object? {
      if p > 0 { LinesInOrder(log[1..], p - 1, q - 1); }
    } else {
      LinesInOrder(log[1..], p, q);
    }
  }

  lemma {:induction false} RowOfLine(log: seq<Line>, l: nat) returns (q: nat)
    requires l < |log| && log[l].Object?
    ensures q < |Decoded(log)| && LineOf(log, q) == l
  {
    if l == 0 {
      q := 0;
    } else {
      var x := RowOfLine(log[1..], l - 1);
      q := if log[0].Object? then x + 1 else x;
    }
  }

  ghost function LinesOf(log: seq<Line>, at: seq<nat>): seq<nat>
    requires forall i :: 0 <= i < |at| ==> at[i] < |Decoded(log)|
  {
    seq(|at|, i requires 0 <= i < |at| => LineOf(log, at[i]))
  }

  // ----- what is written

  lemma {:induction false} FirstLineIs(log: seq<Line>, rows: seq<Row>, at: seq<nat>, i: nat)
    requires AllRead(log) && AreFirsts(Decoded(log), rows, at) && i < |at|
    ensures at[i] < |Decoded(log)| && IsRowOf(rows[i], log[LineOf(log, at[i])])
    ensures forall q :: 0 <= q < LineOf(log, at[i]) && log[q].Object? ==> log[q].id != Fits(rows[i].id)
  {
    var l := LineOf(log, at[i]);
    AllReadMeans(log);
    forall q | 0 <= q < l && log[q].Object?
      ensures log[q].id != Fits(rows[i].id)
    {
      var x := RowOfLine(log, q);
      if at[i] < x { LinesInOrder(log, at[i], x); }
      assert Decoded(log)[x].id != rows[i].id;
    }
    assert !IsUnread(log, l);
    if IsIdless(log[l]) {
      assert forall p :: 0 <= p < l ==> !IsIdless(log[p]);
    }
  }

  lemma {:induction false} EveryIdIs(log: seq<Line>, rows: seq<Row>, at: seq<nat>, q: nat)
    requires AllRead(log) && AreFirsts(Decoded(log), rows, at) && q < |log| && log[q].Object?
    ensures exists i :: 0 <= i < |rows| && log[q].id == Fits(rows[i].id)
  {
    AllReadMeans(log);
    assert !IsUnread(log, q);
    var x := RowOfLine(log, q);
    assert Decoded(log)[x].id == ValueOr(log[q].id);
    var i :| 0 <= i < |rows| && rows[i].id == Decoded(log)[x].id;
  }

  lemma {:induction false} FirstLines(log: seq<Line>, rows: seq<Row>, at: seq<nat>)
    requires AllRead(log) && AreFirsts(Decoded(log), rows, at)
    ensures forall i :: 0 <= i < |at| ==> at[i] < |Decoded(log)|
    ensures AreFirstLines(log, rows, LinesOf(log, at))
  {
    forall i | 0 <= i < |at|
      ensures at[i] < |Decoded(log)| && IsRowOf(rows[i], log[LineOf(log, at[i])])
      ensures forall q :: 0 <= q < LineOf(log, at[i]) && log[q].Object? ==> log[q].id != Fits(rows[i].id)
    {
      FirstLineIs(log, rows, at, i);
    }
    forall q | 0 <= q < |log| && log[q].Object?
      ensures exists i :: 0 <= i < |rows| && log[q].id == Fits(rows[i].id)
    {
      EveryIdIs(log, rows, at, q);
    }
    forall i, j | 0 <= i < j < |at| && SameKey(rows[i], rows[j])
      ensures LineOf(log, at[i]) < LineOf(log, at[j])
    {
      LinesInOrder(log, at[i], at[j]);
    }
  }

  // ----- what is refused

  lemma {:induction false} WritableMeans(log: seq<Line>, rows: seq<Row>, at: seq<nat>)
    requires AllRead(log) && AreFirsts(Decoded(log), rows, at)
    ensures (forall r :: r in rows ==> Writable(r)) <==>
            forall q :: 0 <= q < |log| && IsFirstOfId(log, q) ==> forall k :: k in log[q].rest ==> log[q].rest[k].Text?
  {
    FirstLines(log, rows, at);
    var lines := LinesOf(log, at);
    if forall r :: r in rows ==> Writable(r) {
      forall q | 0 <= q < |log| && IsFirstOfId(log, q)
        ensures forall k :: k in log[q].rest ==> log[q].rest[k].Text?
      {
        var i :| 0 <= i < |rows| && log[q].id == Fits(rows[i].id);
        assert lines[i] == q by {
          assert log[lines[i]].Object?;
        }
        assert rows[i] in rows;
      }
    }
    if forall q :: 0 <= q < |log| && IsFirstOfId(log, q) ==> forall k :: k in log[q].rest ==> log[q].rest[k].Text? {
      forall r | r in rows
        ensures Writable(r)
      {
        var i :| 0 <= i < |rows| && rows[i] == r;
        assert IsRowOf(rows[i], log[lines[i]]) && IsFirstOfId(log, lines[i]);
      }
    }
  }

  /** A log can be dumped when no line of it is refused; its dump is then the first
      line of each id, in order. */
  lemma {:induction false} DumpMeans(log: seq<Line>) returns (at: seq<nat>)
    ensures Dumpable(log) <==> forall q :: 0 <= q < |log| ==> !IsRefused(log, q)
    ensures Dumpable(log) ==> AreFirstLines(log, DumpOf(Decoded(log)), at) && InFileOrder(DumpOf(Decoded(log)))
  {
    var rows := DumpOf(Decoded(log));
    at := FirstPlaces(Decoded(log), rows);
    DumpIsFirsts(Decoded(log));
    AllReadMeans(log);
    SortSorted(First({}, Decoded(log)));
    if AllRead(log) {
      WritableMeans(log, rows, at);
      FirstLines(log, rows, at);
      at := LinesOf(log, at);
      forall q | 0 <= q < |log|
        ensures IsRefused(log, q) <==> IsFirstOfId(log, q) && !forall k :: k in log[q].rest ==> log[q].rest[k].Text?
      {
        assert !IsUnread(log, q);
      }
    } else {
      var q :| 0 <= q < |log| && IsUnread(log, q);
      assert IsRefused(log, q);
    }
  }
}
