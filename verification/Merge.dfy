/** The two-pass k-way merge of a month's files: pass 1 marks each row whose id
    an earlier row had, pass 2 merges the inputs a row group at a time. */
module Merge {
  import opened Rows
  import opened StableSort
  import opened FirstRows
  import opened Bitset
  import opened Segments
  import opened SortedFirsts
  import opened RowGroups
  import opened CursorHeap

  datatype Result = Ok(rows: seq<Row>) | Unsorted(input: nat) | Miscounted

  function Marks(bits: seq<Word>, n: nat): (m: seq<bool>)
    requires n <= 64 * |bits|
    ensures |m| == n && forall i :: 0 <= i < n ==> m[i] == Bit(bits, i)
  {
    seq(n, i requires 0 <= i < n => Bit(bits, i))
  }

  // ----- pass 1

  /** seen and nullSeen stand for ids, by their hashes. */
  ghost predicate Stands(hash: string -> Hash, seen: set<Hash>, nullSeen: bool, ids: set<Id>) {
    (nullSeen <==> None in ids) && forall x :: hash(x) in seen <==> Some(x) in ids
  }

  ghost predicate Injective(hash: string -> Hash) {
    forall a, b :: hash(a) == hash(b) ==> a == b
  }

  /** Whether id is new, noted as seen. */
  method Note(hash: string -> Hash, seen0: set<Hash>, nullSeen0: bool, id: Id, ghost ids: set<Id>)
    returns (seen: set<Hash>, nullSeen: bool, first: bool)
    requires Injective(hash) && Stands(hash, seen0, nullSeen0, ids)
    ensures first <==> id !in ids
    ensures Stands(hash, seen, nullSeen, ids + {id})
  {
    seen, nullSeen := seen0, nullSeen0;
    if id == None {
      first, nullSeen := !nullSeen, true;
    } else {
      first := hash(id.value) !in seen;
      seen := seen + {hash(id.value)};
    }
  }

  /** The first row rows of the input are marked as they should be, repeats of them. */
  ghost predicate Marked(before: set<Id>, rows: seq<Row>, bits: seq<Word>, repeats: nat, row: nat) {
    && row <= |rows|
    && |bits| == Words(|rows|)
    && (forall j: nat {:trigger Bit(bits, j)} :: j < |rows| ==> (Bit(bits, j) <==> j < row && (rows[j].id in before || Repeats(rows, j))))
    && repeats + |First(before, rows[..row])| == row
  }

  ghost predicate IsRepeat(before: set<Id>, rows: seq<Row>, row: nat)
    requires row < |rows|
  {
    rows[row].id in before + Ids(rows[..row])
  }

  lemma {:induction false} MarkedNext(before: set<Id>, rows: seq<Row>, bits: seq<Word>, repeats: nat, row: nat)
    requires row < |rows| && Marked(before, rows, bits, repeats, row)
    ensures IsRepeat(before, rows, row) ==> Marked(before, rows, WithBit(bits, row), repeats + 1, row + 1)
    ensures !IsRepeat(before, rows, row) ==> Marked(before, rows, bits, repeats, row + 1)
    ensures before + Ids(rows[..row]) + {rows[row].id} == before + Ids(rows[..row + 1])
  {
    FirstStep(before, rows, row);
  }

  lemma {:induction false} MarkedAll(before: set<Id>, rows: seq<Row>, bits: seq<Word>, repeats: nat)
    requires Marked(before, rows, bits, repeats, |rows|)
    ensures Unmarked(rows, Marks(bits, |rows|)) == First(before, rows)
    ensures repeats + |First(before, rows)| == |rows|
    ensures rows[..|rows|] == rows
  {
    assert rows[..|rows|] == rows;
    UnmarkedIsFirst(before, rows, Marks(bits, |rows|));
  }

  /** What pass 1 knows after some rows: the ids seen, by their hashes, the
      input's marks and how many they are. */
  datatype Seen = Seen(seen: set<Hash>, nullSeen: bool, bits: seq<Word>, repeats: nat)

  ghost predicate Pass(hash: string -> Hash, before: set<Id>, rows: seq<Row>, s: Seen, row: nat) {
    && Marked(before, rows, s.bits, s.repeats, row)
    && Stands(hash, s.seen, s.nullSeen, before + Ids(rows[..row]))
  }

  /** Marks row row, of the id id, if it repeats one. */
  method MarkRow(hash: string -> Hash, s0: Seen, id: Id, row: nat, ghost before: set<Id>, ghost rows: seq<Row>) returns (s: Seen)
    requires Injective(hash) && row < |rows| && rows[row].id == id && Pass(hash, before, rows, s0, row)
    ensures Pass(hash, before, rows, s, row + 1)
  {
    MarkedNext(before, rows, s0.bits, s0.repeats, row);
    var seen, nullSeen, first := Note(hash, s0.seen, s0.nullSeen, id, before + Ids(rows[..row]));
    if first {
      s := Seen(seen, nullSeen, s0.bits, s0.repeats);
    } else {
      s := Seen(seen, nullSeen, WithBit(s0.bits, row), s0.repeats + 1);
    }
  }

  lemma {:induction false} NothingMarked(hash: string -> Hash, before: set<Id>, rows: seq<Row>, s: Seen)
    requires Stands(hash, s.seen, s.nullSeen, before) && s.repeats == 0 && s.bits == seq(Words(|rows|), _ => {})
    ensures Pass(hash, before, rows, s, 0)
  {
    assert before + Ids(rows[..0]) == before;
  }

  /** Marks the rows of a row group, the first of them row row0 of the input. */
  method MarkGroup(hash: string -> Hash, group: seq<Row>, s0: Seen, row0: nat, ghost before: set<Id>, ghost rows: seq<Row>) returns (s: Seen)
    requires Injective(hash) && Pass(hash, before, rows, s0, row0) && row0 + |group| <= |rows|
    requires forall r :: 0 <= r < |group| ==> rows[row0 + r] == group[r]
    ensures Pass(hash, before, rows, s, row0 + |group|)
  {
    s := s0;
    for r := 0 to |group|
      invariant Pass(hash, before, rows, s, row0 + r)
    {
      assert rows[row0 + r] == group[r];
      s := MarkRow(hash, s, group[r].id, row0 + r, before, rows);
    }
  }

  lemma {:induction false} GroupIsSlice(groups: Groups, g: nat)
    requires g < |groups|
    ensures GroupRow(groups, g) + |groups[g]| == GroupRow(groups, g + 1) <= |Concat(groups)|
    ensures forall r :: 0 <= r < |groups[g]| ==> Concat(groups)[GroupRow(groups, g) + r] == groups[g][r]
  {
    GroupRowIsPrefix(groups, g + 1);
    assert groups == groups[..g + 1] + groups[g + 1..];
    ConcatConcat(groups[..g + 1], groups[g + 1..]);
    forall r | 0 <= r < |groups[g]|
      ensures GroupRow(groups, g) + r < |Concat(groups)| && Concat(groups)[GroupRow(groups, g) + r] == groups[g][r]
    {
      RowOfGroup(groups, g, r);
    }
  }

  /** Marks each row of one input whose id is in before or that an earlier row
      of the input has; counts the marks. */
  method MarkInput(groups: Groups, hash: string -> Hash, s0: Seen, ghost before: set<Id>) returns (s: Seen)
    requires Injective(hash) && Stands(hash, s0.seen, s0.nullSeen, before)
    ensures Stands(hash, s.seen, s.nullSeen, before + Ids(Concat(groups)))
    ensures |s.bits| == Words(|Concat(groups)|)
    ensures Unmarked(Concat(groups), Marks(s.bits, |Concat(groups)|)) == First(before, Concat(groups))
    ensures s.repeats + |First(before, Concat(groups))| == |Concat(groups)|
  {
    ghost var rows := Concat(groups);
    var n := GroupRow(groups, |groups|);
    GroupRowIsPrefix(groups, |groups|);
    assert groups[..|groups|] == groups;
    s := s0.(bits := seq(Words(n), _ => {}), repeats := 0);
    var row: nat := 0;
    NothingMarked(hash, before, rows, s);
    for g := 0 to |groups|
      invariant row == GroupRow(groups, g)
      invariant Pass(hash, before, rows, s, row)
    {
      GroupIsSlice(groups, g);
      s := MarkGroup(hash, groups[g], s, row, before, rows);
      row := row + |groups[g]|;
    }
    MarkedAll(before, rows, s.bits, s.repeats);
  }

  lemma {:induction false} FirstStep(before: set<Id>, rows: seq<Row>, i: nat)
    requires i < |rows|
    ensures Ids(rows[..i + 1]) == Ids(rows[..i]) + {rows[i].id}
    ensures rows[i].id in before + Ids(rows[..i]) <==> rows[i].id in before || Repeats(rows, i)
    ensures |First(before, rows[..i + 1])| ==
            |First(before, rows[..i])| + if rows[i].id in before || Repeats(rows, i) then 0 else 1
  {
    assert rows[..i + 1] == rows[..i] + [rows[i]];
    FirstOfConcat(before, rows[..i], [rows[i]]);
    assert [rows[i]][1..] == [];
    if Repeats(rows, i) {
      var j :| 0 <= j < i && rows[j].id == rows[i].id;
      assert rows[..i][j] == rows[j];
    }
    if rows[i].id in Ids(rows[..i]) {
      var x :| x in rows[..i] && x.id == rows[i].id;
      var j :| 0 <= j < i && rows[..i][j] == x;
      assert rows[j].id == rows[i].id;
    }
  }

  // ----- pass 2, one input

  /** groupRow of group g, 0 before the first. */
  function Base(groups: Groups, g: int): nat
    requires -1 <= g <= |groups|
  {
    if g < 0 then 0 else GroupRow(groups, g)
  }

  /** c stands at a row of groups, or before its first. */
  ghost predicate At(groups: Groups, c: Cursor) {
    && -1 <= c.g < |groups|
    && (c.g == -1 ==> c.r == -1 && c.n == 0 && c.key == None)
    && (c.g >= 0 ==> 0 <= c.r < c.n == |groups[c.g]| && c.key == Some(KeyOf(groups[c.g][c.r])))
  }

  /** How many rows c has passed, its own included. */
  ghost function Passed(groups: Groups, c: Cursor): (p: nat)
    requires At(groups, c)
    ensures p <= |Concat(groups)|
    ensures p > 0 ==> c.key == Some(KeyOf(Concat(groups)[p - 1]))
    ensures p == 0 ==> c.key == None
  {
    if c.g >= 0 then RowOfGroup(groups, c.g, c.r); GroupRow(groups, c.g) + c.r + 1
    else 0
  }

  /** The unmarked rows of an input from row p on. */
  function Left(rows: seq<Row>, bits: seq<Word>, p: nat): seq<Row>
    requires p <= |rows| <= 64 * |bits|
  {
    Unmarked(rows[p..], Marks(bits, |rows|)[p..])
  }

  lemma {:induction false} LeftStep(rows: seq<Row>, bits: seq<Word>, p: nat)
    requires p < |rows| <= 64 * |bits|
    ensures Left(rows, bits, p) == (if Bit(bits, p) then [] else [rows[p]]) + Left(rows, bits, p + 1)
  {
    assert rows[p..][1..] == rows[p + 1..];
    assert Marks(bits, |rows|)[p..][1..] == Marks(bits, |rows|)[p + 1..];
  }

  ghost predicate SortedTo(rows: seq<Row>, p: nat) {
    p <= |rows| && Sorted(rows[..p])
  }

  lemma {:induction false} SortedSnoc(rows: seq<Row>, p: nat)
    requires p < |rows| && Sorted(rows[..p])
    ensures p == 0 || Le(KeyOf(rows[p - 1]), KeyOf(rows[p])) <==> Sorted(rows[..p + 1])
  {
    var a, b := rows[..p], rows[..p + 1];
    if p == 0 || Le(KeyOf(rows[p - 1]), KeyOf(rows[p])) {
      forall i, j | 0 <= i < j < |b|
        ensures Le(KeyOf(b[i]), KeyOf(b[j]))
      {
        if j < p {
          assert b[i] == a[i] && b[j] == a[j];
        } else if i < p - 1 {
          assert a[i] == rows[i] && a[p - 1] == rows[p - 1];
          LeTransitive(KeyOf(b[i]), KeyOf(rows[p - 1]), KeyOf(rows[p]));
        }
      }
    } else {
      assert b[p - 1] == rows[p - 1] && b[p] == rows[p];
    }
  }

  lemma {:induction false} SortedPrefix(rows: seq<Row>, p: nat)
    requires p <= |rows|
    ensures Sorted(rows) ==> Sorted(rows[..p])
  {
  }

  /** Passing row p, whose key does not come before the one before it, prev. */
  lemma {:induction false} PassedRow(rows: seq<Row>, bits: seq<Word>, p: nat, prev: Option<Key>)
    requires p < |rows| <= 64 * |bits| && SortedTo(rows, p)
    requires prev == if p == 0 then None else Some(KeyOf(rows[p - 1]))
    ensures prev.Some? && CompareKeys(prev.value, KeyOf(rows[p])) > 0 ==> !Sorted(rows)
    ensures prev.None? || CompareKeys(prev.value, KeyOf(rows[p])) <= 0 ==> SortedTo(rows, p + 1)
    ensures Bit(bits, p) ==> Left(rows, bits, p) == Left(rows, bits, p + 1)
  {
    SortedSnoc(rows, p);
    SortedPrefix(rows, p + 1);
    LeftStep(rows, bits, p);
  }

  /** Every row passed since the first p0 was marked and in order. */
  ghost predicate Reached(groups: Groups, bits: seq<Word>, p0: nat, c: Cursor) {
    var rows := Concat(groups);
    && At(groups, c) && |rows| <= 64 * |bits|
    && p0 <= Passed(groups, c)
    && SortedTo(rows, Passed(groups, c))
    && Left(rows, bits, p0) == Left(rows, bits, Passed(groups, c))
  }

  /** c is at the first row after the first p0 that is not marked, every row up
      to it in order. */
  ghost predicate Stopped(groups: Groups, bits: seq<Word>, p0: nat, c: Cursor) {
    var rows := Concat(groups);
    && At(groups, c) && |rows| <= 64 * |bits|
    && p0 < Passed(groups, c)
    && SortedTo(rows, Passed(groups, c))
    && !Bit(bits, Passed(groups, c) - 1)
    && Left(rows, bits, p0) == Left(rows, bits, Passed(groups, c) - 1)
  }

  function MovedTo(groups: Groups, c: Cursor, g: int, r: int): Cursor
    requires 0 <= g < |groups| && 0 <= r < |groups[g]|
  {
    c.(g := g, r := r, n := |groups[g]|, key := Some(KeyOf(groups[g][r])), done := false)
  }

  lemma {:induction false} StepTo(groups: Groups, bits: seq<Word>, p0: nat, c: Cursor, g: int, r: int)
    requires Reached(groups, bits, p0, c)
    requires 0 <= g < |groups| && 0 <= r < |groups[g]| && GroupRow(groups, g) + r == Passed(groups, c)
    ensures Passed(groups, c) < |Concat(groups)|
    ensures At(groups, MovedTo(groups, c, g, r)) && Passed(groups, MovedTo(groups, c, g, r)) == Passed(groups, c) + 1
    ensures c.key.Some? && CompareKeys(c.key.value, KeyOf(groups[g][r])) > 0 ==> !Sorted(Concat(groups))
    ensures c.key.None? || CompareKeys(c.key.value, KeyOf(groups[g][r])) <= 0 ==>
            if Bit(bits, Passed(groups, c)) then Reached(groups, bits, p0, MovedTo(groups, c, g, r))
            else Stopped(groups, bits, p0, MovedTo(groups, c, g, r))
  {
    RowOfGroup(groups, g, r);
    var rows, p, c' := Concat(groups), Passed(groups, c), MovedTo(groups, c, g, r);
    PassedRow(rows, bits, p, c.key);
    assert At(groups, c') && Passed(groups, c') == p + 1;
    if c.key.None? || CompareKeys(c.key.value, KeyOf(groups[g][r])) <= 0 {
      assert SortedTo(rows, p + 1);
      if Bit(bits, p) {
        assert Left(rows, bits, p0) == Left(rows, bits, p + 1);
      } else {
        assert Left(rows, bits, p0) == Left(rows, bits, p);
      }
    }
  }

  /** c's next row: the next of its group, or the first of the next group with
      rows; None past the last. */
  method Next(groups: Groups, c: Cursor) returns (g: int, r: int, n: nat)
    requires At(groups, c)
    ensures 0 <= g <= |groups|
    ensures g == |groups| ==> Passed(groups, c) == |Concat(groups)|
    ensures g < |groups| ==> 0 <= r < n == |groups[g]| && GroupRow(groups, g) + r == Passed(groups, c)
  {
    GroupRowIsPrefix(groups, |groups|);
    assert groups[..|groups|] == groups;
    g, r, n := c.g, c.r + 1, c.n;
    while r >= n
      invariant -1 <= g < |groups| && r <= n
      invariant g >= 0 ==> n == |groups[g]|
      invariant g < 0 ==> n == 0
      invariant 0 <= r && Base(groups, g) + r == Passed(groups, c)
      decreases |groups| - g
    {
      g := g + 1;
      if g >= |groups| {
        return;
      }
      r, n := 0, |groups[g]|;
    }
  }

  /** The cursor gone on to the next unmarked row; not ok when it passed a row out of
      order. */
  method Advance(groups: Groups, bits: seq<Word>, c0: Cursor) returns (c: Cursor, ok: bool)
    requires At(groups, c0) && |Concat(groups)| <= 64 * |bits|
    requires SortedTo(Concat(groups), Passed(groups, c0))
    ensures !ok ==> !Sorted(Concat(groups))
    ensures ok ==> c.order == c0.order
    ensures ok && c.done ==> Left(Concat(groups), bits, Passed(groups, c0)) == [] && Sorted(Concat(groups))
    ensures ok && !c.done ==> Stopped(groups, bits, Passed(groups, c0), c)
  {
    c := c0;
    ghost var p0 := Passed(groups, c0);
    while true
      invariant Reached(groups, bits, p0, c) && c.order == c0.order
      decreases |Concat(groups)| - Passed(groups, c)
    {
      var g, r, n := Next(groups, c);
      if g == |groups| {
        assert Concat(groups)[..Passed(groups, c)] == Concat(groups);
        return c.(g := g, done := true, key := None), true;
      }
      StepTo(groups, bits, p0, c, g, r);
      var k := KeyOf(groups[g][r]);
      if c.key.Some? && CompareKeys(c.key.value, k) > 0 {
        return c, false;
      }
      c := c.(g := g, r := r, n := n, key := Some(k), done := false);
      if !Bit(bits, GroupRow(groups, g) + r) {
        return c, true;
      }
    }
  }

  // ----- the whole merge

  /** Each input's drop bits are sized by its rows. */
  predicate Sized(inputs: seq<Groups>, drop: seq<seq<Word>>) {
    |drop| == |inputs| && forall i :: 0 <= i < |inputs| ==> |drop[i]| == Words(|Concat(inputs[i])|)
  }

  /** The rows each input keeps. */
  function KeptLists(inputs: seq<Groups>, drop: seq<seq<Word>>): seq<seq<Row>>
    requires Sized(inputs, drop)
  {
    seq(|inputs|, i requires 0 <= i < |inputs| => Left(Concat(inputs[i]), drop[i], 0))
  }

  lemma {:induction false} UnmarkedSorted(s: seq<Row>, mark: seq<bool>)
    requires |s| == |mark| && Sorted(s)
    ensures Sorted(Unmarked(s, mark))
    ensures forall r :: r in Unmarked(s, mark) ==> r in s
  {
    if s != [] {
      UnmarkedSorted(s[1..], mark[1..]);
      forall r | r in s[1..]
        ensures Le(KeyOf(s[0]), KeyOf(r))
      {
        var i :| 0 <= i < |s[1..]| && s[1..][i] == r;
        assert s[i + 1] == r;
      }
    }
  }

  lemma {:induction false} LeftSorted(rows: seq<Row>, bits: seq<Word>, p: nat)
    requires p <= |rows| <= 64 * |bits| && Sorted(rows)
    ensures Sorted(Left(rows, bits, p))
  {
    assert forall i :: 0 <= i < |rows[p..]| ==> rows[p..][i] == rows[p + i];
    UnmarkedSorted(rows[p..], Marks(bits, |rows|)[p..]);
  }

  lemma {:induction false} InConcat(lists: seq<seq<Row>>, y: Row)
    requires y in Concat(lists)
    ensures exists j :: 0 <= j < |lists| && y in lists[j]
  {
    if y in lists[0] {
    } else {
      InConcat(lists[1..], y);
      var j :| 0 <= j < |lists[1..]| && y in lists[1..][j];
      assert y in lists[j + 1];
    }
  }

  /** Taking the head of the input whose head is least, the earlier input on a
      tie, takes the first row of the stable sort of all that is left. */
  lemma {:induction false} TakeLeast(rem: seq<seq<Row>>, i: nat)
    requires i < |rem| && rem[i] != []
    requires forall j :: 0 <= j < |rem| ==> Sorted(rem[j])
    requires forall j :: 0 <= j < i && rem[j] != [] ==> !Le(KeyOf(rem[j][0]), KeyOf(rem[i][0]))
    requires forall j :: i < j < |rem| && rem[j] != [] ==> Le(KeyOf(rem[i][0]), KeyOf(rem[j][0]))
    ensures Sort(Concat(rem)) == [rem[i][0]] + Sort(Concat(rem[i := rem[i][1..]]))
  {
    var x, rest := rem[i][0], rem[i][1..];
    var a, b := Concat(rem[..i]), rest + Concat(rem[i + 1..]);
    ConcatAt(rem, i);
    ConcatAt(rem[i := rest], i);
    assert rem[i] == [x] + rest;
    assert rem[i := rest][..i] == rem[..i] && rem[i := rest][i + 1..] == rem[i + 1..];
    assert Concat(rem) == a + [x] + b;
    assert Concat(rem[i := rest]) == a + b;
    forall y | y in a
      ensures !Le(KeyOf(y), KeyOf(x))
    {
      InConcat(rem[..i], y);
      var j :| 0 <= j < i && y in rem[..i][j];
      LeHead(rem[j], y);
      LeTotal(KeyOf(y), KeyOf(x));
      LeTotal(KeyOf(rem[j][0]), KeyOf(x));
      if Le(KeyOf(y), KeyOf(x)) { LeTransitive(KeyOf(rem[j][0]), KeyOf(y), KeyOf(x)); }
    }
    forall y | y in b
      ensures Le(KeyOf(x), KeyOf(y))
    {
      if y in rest {
        assert y in rem[i];
        LeHead(rem[i], y);
      } else {
        InConcat(rem[i + 1..], y);
        var j :| 0 <= j < |rem[i + 1..]| && y in rem[i + 1..][j];
        LeHead(rem[i + 1 + j], y);
        LeTransitive(KeyOf(x), KeyOf(rem[i + 1 + j][0]), KeyOf(y));
      }
    }
    SortTakesLeast(a, x, b);
  }

  lemma {:induction false} LeHead(s: seq<Row>, y: Row)
    requires Sorted(s) && y in s
    ensures s != [] && Le(KeyOf(s[0]), KeyOf(y))
  {
    LeTotal(KeyOf(y), KeyOf(y));
  }

  lemma {:induction false} ConcatAt(lists: seq<seq<Row>>, i: nat)
    requires i < |lists|
    ensures Concat(lists) == Concat(lists[..i]) + lists[i] + Concat(lists[i + 1..])
  {
    var t := lists[i..];
    assert t[0] == lists[i] && t[1..] == lists[i + 1..];
    assert lists == lists[..i] + t;
    ConcatConcat(lists[..i], t);
    assert Concat(lists[..i]) + (lists[i] + Concat(t[1..])) == Concat(lists[..i]) + lists[i] + Concat(t[1..]);
  }

  // ----- pass 2, all inputs

  /** c is at the first of the rows rem its input still has to give. */
  ghost predicate Held(groups: Groups, bits: seq<Word>, rem: seq<Row>, c: Cursor) {
    && Stopped(groups, bits, Passed0(groups, c), c)
    && rem == Left(Concat(groups), bits, Passed(groups, c) - 1)
  }

  /** The rows passed before c's own. */
  ghost function Passed0(groups: Groups, c: Cursor): nat {
    if At(groups, c) && Passed(groups, c) > 0 then Passed(groups, c) - 1 else 0
  }

  lemma {:induction false} HeldHead(groups: Groups, bits: seq<Word>, rem: seq<Row>, c: Cursor)
    requires Held(groups, bits, rem, c)
    ensures At(groups, c) && c.g >= 0 && rem != [] && rem[0] == groups[c.g][c.r]
    ensures c.key == Some(KeyOf(rem[0]))
    ensures rem[1..] == Left(Concat(groups), bits, Passed(groups, c))
    ensures Sorted(Concat(groups)) ==> Sorted(rem)
  {
    var rows, p := Concat(groups), Passed(groups, c);
    assert At(groups, c) && p > 0 && p <= |rows| && !Bit(bits, p - 1);
    RowOfGroup(groups, c.g, c.r);
    assert rem == [rows[p - 1]] + Left(rows, bits, p) by { LeftStep(rows, bits, p - 1); }
    if Sorted(rows) { LeftSorted(rows, bits, p - 1); }
  }

  lemma {:induction false} StoppedIsHeld(groups: Groups, bits: seq<Word>, p0: nat, c: Cursor)
    requires Stopped(groups, bits, p0, c)
    ensures Held(groups, bits, Left(Concat(groups), bits, p0), c)
  {
  }

  ghost predicate Present(items: seq<Cursor>, i: nat) {
    exists c :: c in items && c.order == i
  }

  /** Each cursor holds the rest of its input; an input without one is done,
      and was in order. */
  ghost predicate Holds(inputs: seq<Groups>, drop: seq<seq<Word>>, items: seq<Cursor>, rem: seq<seq<Row>>) {
    && Sized(inputs, drop) && |rem| == |inputs| && OnePerInput(items)
    && (forall c :: c in items ==> c.order < |inputs| && Held(inputs[c.order], drop[c.order], rem[c.order], c))
    && (forall i :: 0 <= i < |inputs| ==> Present(items, i) || (rem[i] == [] && Sorted(Concat(inputs[i]))))
  }

  lemma {:induction false} HoldsAt(inputs: seq<Groups>, drop: seq<seq<Word>>, items: seq<Cursor>, rem: seq<seq<Row>>)
    requires Holds(inputs, drop, items, rem)
    ensures AllAt(items)
  {
    forall i | 0 <= i < |items|
      ensures items[i].key.Some?
    {
      var c := items[i];
      assert c in items;
      HeldHead(inputs[c.order], drop[c.order], rem[c.order], c);
    }
  }

  lemma {:induction false} HoldsReordered(inputs: seq<Groups>, drop: seq<seq<Word>>, items: seq<Cursor>, rem: seq<seq<Row>>, t: seq<Cursor>)
    requires Holds(inputs, drop, items, rem) && SameCursors(items, t) && OnePerInput(t)
    ensures Holds(inputs, drop, t, rem)
  {
    forall i | 0 <= i < |inputs| && Present(items, i)
      ensures Present(t, i)
    {
      var c :| c in items && c.order == i;
      assert c in t;
    }
  }

  /** The root of the heap is at the next row of the stable sort of what is left. */
  lemma {:induction false} TakeRoot(inputs: seq<Groups>, drop: seq<seq<Word>>, items: seq<Cursor>, rem: seq<seq<Row>>)
    requires Heap(items) && items != [] && Holds(inputs, drop, items, rem) && AllSorted(inputs)
    ensures var o := items[0].order;
            o < |rem| && rem[o] != [] && Sort(Concat(rem)) == [rem[o][0]] + Sort(Concat(rem[o := rem[o][1..]]))
  {
    var o := items[0].order;
    HeldHead(inputs[o], drop[o], rem[o], items[0]);
    forall j | 0 <= j < |rem|
      ensures Sorted(rem[j])
      ensures rem[j] != [] && j < o ==> !Le(KeyOf(rem[j][0]), KeyOf(rem[o][0]))
      ensures rem[j] != [] && j > o ==> Le(KeyOf(rem[o][0]), KeyOf(rem[j][0]))
    {
      if Present(items, j) {
        var c :| c in items && c.order == j;
        var k :| 0 <= k < |items| && items[k] == c;
        HeldHead(inputs[j], drop[j], rem[j], c);
        RootIsLeast(items, k);
        CompareKeysAntisymmetric(c.key.value, items[0].key.value);
      }
    }
    TakeLeast(rem, o);
  }

  /** Of sorted inputs, out is the first rows of all, what is left sorts to the rest. */
  ghost predicate Written(inputs: seq<Groups>, out: seq<Row>, rem: seq<seq<Row>>, all: seq<Row>) {
    AllSorted(inputs) ==> out + Sort(Concat(rem)) == all
  }

  lemma {:induction false} OneLess(rem: seq<seq<Row>>, o: nat)
    requires o < |rem| && rem[o] != []
    ensures |Concat(rem[o := rem[o][1..]])| + 1 == |Concat(rem)|
  {
    var left := rem[o := rem[o][1..]];
    ConcatAt(rem, o);
    ConcatAt(left, o);
    assert left[..o] == rem[..o] && left[o + 1..] == rem[o + 1..];
  }

  /** Writing the root's row. */
  lemma {:induction false} TakeStep(inputs: seq<Groups>, drop: seq<seq<Word>>, items: seq<Cursor>, rem: seq<seq<Row>>,
                 out: seq<Row>, all: seq<Row>)
    requires Heap(items) && items != [] && Holds(inputs, drop, items, rem) && Written(inputs, out, rem, all)
    ensures items[0] in items && items[0].order < |inputs|
    ensures At(inputs[items[0].order], items[0]) && items[0].g >= 0
    ensures rem[items[0].order] != []
    ensures |Concat(rem[items[0].order := rem[items[0].order][1..]])| + 1 == |Concat(rem)|
    ensures Written(inputs, out + [inputs[items[0].order][items[0].g][items[0].r]],
                    rem[items[0].order := rem[items[0].order][1..]], all)
  {
    var c := items[0];
    var o := c.order;
    HeldHead(inputs[o], drop[o], rem[o], c);
    OneLess(rem, o);
    TakeWritten(inputs, drop, items, rem, out, all);
  }

  lemma {:induction false} TakeWritten(inputs: seq<Groups>, drop: seq<seq<Word>>, items: seq<Cursor>, rem: seq<seq<Row>>,
                                       out: seq<Row>, all: seq<Row>)
    requires Heap(items) && items != [] && Holds(inputs, drop, items, rem) && Written(inputs, out, rem, all)
    requires items[0].order < |rem| && rem[items[0].order] != []
    ensures Written(inputs, out + [rem[items[0].order][0]], rem[items[0].order := rem[items[0].order][1..]], all)
  {
    if AllSorted(inputs) {
      TakeRoot(inputs, drop, items, rem);
      Onto(out, rem[items[0].order][0], Sort(Concat(rem[items[0].order := rem[items[0].order][1..]])));
    }
  }

  lemma {:induction false} Onto(a: seq<Row>, x: Row, b: seq<Row>)
    ensures a + ([x] + b) == (a + [x]) + b
  {
  }

  /** The root's cursor moved on to c. */
  lemma {:induction false} RootMoved(inputs: seq<Groups>, drop: seq<seq<Word>>, items: seq<Cursor>, rem: seq<seq<Row>>, c: Cursor, t: seq<Cursor>)
    requires items != [] && Holds(inputs, drop, items, rem) && c.order == items[0].order
    requires rem[c.order] != [] && Held(inputs[c.order], drop[c.order], rem[c.order][1..], c)
    requires OnePerInput(t) && SameCursors(items[0 := c], t)
    ensures Holds(inputs, drop, t, rem[c.order := rem[c.order][1..]])
  {
    var rem' := rem[c.order := rem[c.order][1..]];
    var s := items[0 := c];
    forall d | d in t
      ensures d.order < |inputs| && Held(inputs[d.order], drop[d.order], rem'[d.order], d)
    {
      var i :| 0 <= i < |s| && s[i] == d;
      if i > 0 {
        assert d == items[i] && d in items;
      }
    }
    forall i | 0 <= i < |inputs|
      ensures Present(t, i) || (rem'[i] == [] && Sorted(Concat(inputs[i])))
    {
      if Present(items, i) { StillPresent(items, s, t, i); }
    }
  }

  lemma {:induction false} StillPresent(items: seq<Cursor>, s: seq<Cursor>, t: seq<Cursor>, i: nat)
    requires Present(items, i) && |s| == |items| && SameCursors(s, t)
    requires forall k :: 0 <= k < |s| ==> s[k].order == items[k].order
    ensures Present(t, i)
  {
    var d :| d in items && d.order == i;
    var k :| 0 <= k < |items| && items[k] == d;
    assert s[k] in s && s[k] in t;
  }

  /** The root's input is done. */
  lemma {:induction false} RootDone(inputs: seq<Groups>, drop: seq<seq<Word>>, items: seq<Cursor>, rem: seq<seq<Row>>, t: seq<Cursor>)
    requires items != [] && Holds(inputs, drop, items, rem)
    requires var o := items[0].order; o < |inputs| && Sorted(Concat(inputs[o])) && |rem[o]| == 1
    requires OnePerInput(t) && SameCursors(items[1..], t)
    ensures Holds(inputs, drop, t, rem[items[0].order := rem[items[0].order][1..]])
  {
    var o := items[0].order;
    var rem' := rem[o := rem[o][1..]];
    forall d | d in t
      ensures d.order < |inputs| && Held(inputs[d.order], drop[d.order], rem'[d.order], d)
    {
      var i :| 0 <= i < |items[1..]| && items[1..][i] == d;
      assert d == items[i + 1] && d in items;
    }
    forall i | 0 <= i < |inputs|
      ensures Present(t, i) || (rem'[i] == [] && Sorted(Concat(inputs[i])))
    {
      if i != o && Present(items, i) { PresentInRest(items, t, i); }
    }
  }

  lemma {:induction false} PresentInRest(items: seq<Cursor>, t: seq<Cursor>, i: nat)
    requires items != [] && Present(items, i) && items[0].order != i && SameCursors(items[1..], t)
    ensures Present(t, i)
  {
    var d :| d in items && d.order == i;
    var k :| 0 <= k < |items| && items[k] == d;
    assert items[1..][k - 1] == d;
    assert d in items[1..] && d in t;
  }

  lemma {:induction false} AllDone(inputs: seq<Groups>, drop: seq<seq<Word>>, rem: seq<seq<Row>>)
    requires Holds(inputs, drop, [], rem)
    ensures AllSorted(inputs) && Concat(rem) == []
  {
    forall i | 0 <= i < |inputs|
      ensures rem[i] == [] && Sorted(Concat(inputs[i]))
    {
      assert !Present([], i);
    }
    ConcatEmpty(rem);
  }

  lemma {:induction false} ConcatEmpty(lists: seq<seq<Row>>)
    requires forall i :: 0 <= i < |lists| ==> lists[i] == []
    ensures Concat(lists) == []
  {
    if lists != [] {
      ConcatEmpty(lists[1..]);
    }
  }

  /** The cursors of the first i inputs. */
  ghost predicate OpenTo(inputs: seq<Groups>, drop: seq<seq<Word>>, items: seq<Cursor>, rem: seq<seq<Row>>, i: nat) {
    && i <= |inputs| == |drop| == |rem| && OnePerInput(items)
    && (forall c {:trigger c in items} :: c in items ==> c.order < i && Held(inputs[c.order], drop[c.order], rem[c.order], c))
    && (forall j {:trigger Present(items, j)} :: 0 <= j < i ==> Present(items, j) || (rem[j] == [] && Sorted(Concat(inputs[j]))))
  }

  lemma {:induction false} NotOpened(inputs: seq<Groups>, drop: seq<seq<Word>>, items: seq<Cursor>, rem: seq<seq<Row>>, i: nat)
    requires OpenTo(inputs, drop, items, rem, i) && i < |inputs| && rem[i] == [] && Sorted(Concat(inputs[i]))
    ensures OpenTo(inputs, drop, items, rem, i + 1)
  {
  }

  lemma {:induction false} OneOpened(inputs: seq<Groups>, drop: seq<seq<Word>>, items: seq<Cursor>, rem: seq<seq<Row>>, i: nat, c: Cursor)
    requires OpenTo(inputs, drop, items, rem, i) && i < |inputs| && c.order == i && Held(inputs[i], drop[i], rem[i], c)
    ensures OpenTo(inputs, drop, items + [c], rem, i + 1)
  {
    var more := items + [c];
    assert forall d :: d in more <==> d in items || d == c;
    forall k | 0 <= k < |items|
      ensures items[k].order < i
    {
      assert items[k] in items;
    }
    forall j | 0 <= j < i + 1
      ensures Present(more, j) || (rem[j] == [] && Sorted(Concat(inputs[j])))
    {
      if j == i {
        assert c in more;
      } else if Present(items, j) {
        var d :| d in items && d.order == j;
        assert d in more;
      }
    }
  }

  class MonthMerge {
    const inputs: seq<Groups>
    const hash: string -> Hash
    var drop: seq<seq<Word>> // each input's drop bits
    var kept: nat            // rows pass 1 kept

    constructor (inputs: seq<Groups>, hash: string -> Hash)
      ensures this.inputs == inputs && this.hash == hash
    {
      this.inputs, this.hash := inputs, hash;
      drop, kept := [], 0;
    }

    /** Pass 1: marks each row whose id an earlier row had, input by input. */
    method MarkRepeats()
      requires Injective(hash)
      modifies this
      ensures Sized(inputs, drop)
      ensures Concat(KeptLists(inputs, drop)) == First({}, Concat(Files(inputs)))
      ensures kept == |First({}, Concat(Files(inputs)))|
    {
      var s := Seen({}, false, [], 0);
      kept, drop := 0, [];
      ghost var before := {};
      for i := 0 to |inputs|
        invariant |drop| == i && Sized(inputs[..i], drop)
        invariant Stands(hash, s.seen, s.nullSeen, before)
        invariant before == Ids(Concat(Files(inputs[..i])))
        invariant Concat(KeptLists(inputs[..i], drop)) == First({}, Concat(Files(inputs[..i])))
        invariant kept == |First({}, Concat(Files(inputs[..i])))|
      {
        var n := GroupRow(inputs[i], |inputs[i]|);
        GroupRowIsPrefix(inputs[i], |inputs[i]|);
        assert inputs[i][..|inputs[i]|] == inputs[i];
        s := MarkInput(inputs[i], hash, s, before);
        ghost var was := drop;
        drop := drop + [s.bits];
        kept := kept + (n - s.repeats);
        MarkedUpTo(inputs, i, was, s.bits);
        before := before + Ids(Concat(inputs[i]));
      }
      assert inputs[..|inputs|] == inputs;
    }

    /** The cursors of the inputs with a row to give, each at its first; an
        unsorted input found on the way. */
    method Open() returns (items: seq<Cursor>, bad: Option<nat>)
      requires Sized(inputs, drop)
      ensures bad.Some? ==> bad.value < |inputs| && !Sorted(Concat(inputs[bad.value]))
      ensures bad.None? ==> Holds(inputs, drop, items, KeptLists(inputs, drop))
    {
      items := [];
      ghost var rem := KeptLists(inputs, drop);
      for i := 0 to |inputs|
        invariant OpenTo(inputs, drop, items, rem, i)
      {
        var c, ok := Advance(inputs[i], drop[i], Cursor(i, -1, -1, 0, false, None));
        if !ok {
          return [], Some(i);
        }
        if c.done {
          NotOpened(inputs, drop, items, rem, i);
        } else {
          StoppedIsHeld(inputs[i], drop[i], 0, c);
          OneOpened(inputs, drop, items, rem, i, c);
          items := items + [c];
        }
      }
      bad := None;
    }

    /** Moves the root's cursor to its next row, out of the heap when it has none. */
    method MoveRoot(items: seq<Cursor>, ghost rem: seq<seq<Row>>) returns (t: seq<Cursor>, ok: bool)
      requires Heap(items) && items != [] && Holds(inputs, drop, items, rem)
      requires rem[items[0].order] != []
      ensures !ok ==> !Sorted(Concat(inputs[items[0].order]))
      ensures ok ==> Heap(t) && Holds(inputs, drop, t, rem[items[0].order := rem[items[0].order][1..]])
    {
      var c := items[0];
      ghost var o := c.order;
      assert c in items;
      HeldHead(inputs[o], drop[o], rem[o], c);
      var d;
      d, ok := Advance(inputs[c.order], drop[c.order], c);
      if !ok {
        return [], false;
      }
      if d.done {
        t := PopRoot(items);
        RootDone(inputs, drop, items, rem, t);
      } else {
        StoppedIsHeld(inputs[o], drop[o], Passed(inputs[o], c), d);
        HeldHead(inputs[o], drop[o], rem[o][1..], d);
        t := FixRoot(items, d);
        RootMoved(inputs, drop, items, rem, d, t);
      }
    }

    /** Pass 2: the rows of the merged file, or the input found unsorted; the
        count of rows written is checked against pass 1's. */
    method WriteRows() returns (r: Result)
      requires Sized(inputs, drop)
      requires kept == |Concat(KeptLists(inputs, drop))|
      ensures r.Ok? <==> AllSorted(inputs)
      ensures r.Ok? ==> r.rows == Sort(Concat(KeptLists(inputs, drop)))
      ensures r.Unsorted? ==> r.input < |inputs| && !Sorted(Concat(inputs[r.input]))
      ensures !r.Miscounted?
    {
      var items, bad := Open();
      if bad.Some? {
        return Unsorted(bad.value);
      }
      ghost var rem := KeptLists(inputs, drop);
      HoldsAt(inputs, drop, items, rem);
      ghost var was0 := items;
      items := Init(items);
      HoldsReordered(inputs, drop, was0, rem, items);
      var out := [];
      var written := 0;
      while items != []
        invariant Heap(items) && Holds(inputs, drop, items, rem)
        invariant written == |out| && written + |Concat(rem)| == kept
        invariant Written(inputs, out, rem, Sort(Concat(KeptLists(inputs, drop))))
        decreases |Concat(rem)|
      {
        TakeStep(inputs, drop, items, rem, out, Sort(Concat(KeptLists(inputs, drop))));
        var c := items[0];
        out := out + [inputs[c.order][c.g][c.r]];
        written := written + 1;
        var ok;
        ghost var o := c.order;
        items, ok := MoveRoot(items, rem);
        if !ok {
          return Unsorted(c.order);
        }
        rem := rem[o := rem[o][1..]];
      }
      AllDone(inputs, drop, rem);
      if written != kept {
        return Miscounted;
      }
      return Ok(out);
    }
  }

  lemma {:induction false} MarkedUpTo(inputs: seq<Groups>, i: nat, drop: seq<seq<Word>>, bits: seq<Word>)
    requires i < |inputs| && Sized(inputs[..i], drop) && |bits| == Words(|Concat(inputs[i])|)
    requires Concat(KeptLists(inputs[..i], drop)) == First({}, Concat(Files(inputs[..i])))
    requires Left(Concat(inputs[i]), bits, 0) == First(Ids(Concat(Files(inputs[..i]))), Concat(inputs[i]))
    ensures Sized(inputs[..i + 1], drop + [bits])
    ensures Concat(KeptLists(inputs[..i + 1], drop + [bits])) == First({}, Concat(Files(inputs[..i + 1])))
    ensures |First({}, Concat(Files(inputs[..i + 1])))| ==
            |First({}, Concat(Files(inputs[..i])))| + |First(Ids(Concat(Files(inputs[..i]))), Concat(inputs[i]))|
    ensures Ids(Concat(Files(inputs[..i + 1]))) == Ids(Concat(Files(inputs[..i]))) + Ids(Concat(inputs[i]))
  {
    FirstOfInputs(inputs, i);
    assert KeptLists(inputs[..i + 1], drop + [bits]) ==
           KeptLists(inputs[..i], drop) + [Left(Concat(inputs[i]), bits, 0)];
    ConcatSnoc(KeptLists(inputs[..i], drop), Left(Concat(inputs[i]), bits, 0));
  }

  /** The first rows of an input more, and its ids. */
  lemma {:induction false} FirstOfInputs(inputs: seq<Groups>, i: nat)
    requires i < |inputs|
    ensures First({}, Concat(Files(inputs[..i + 1]))) ==
            First({}, Concat(Files(inputs[..i]))) + First(Ids(Concat(Files(inputs[..i]))), Concat(inputs[i]))
    ensures Ids(Concat(Files(inputs[..i + 1]))) == Ids(Concat(Files(inputs[..i]))) + Ids(Concat(inputs[i]))
  {
    var before := Concat(Files(inputs[..i]));
    assert Files(inputs[..i + 1]) == Files(inputs[..i]) + [Concat(inputs[i])];
    ConcatSnoc(Files(inputs[..i]), Concat(inputs[i]));
    FirstOfConcat({}, before, Concat(inputs[i]));
    assert {} + Ids(before) == Ids(before);
  }

  /** mergeFiles: inputs in order merge to the first row of each id over all of
      them, by family and ts; an input out of order is reported, and nothing is
      written. */
  method MergeFiles(inputs: seq<Groups>, hash: string -> Hash) returns (r: Result)
    requires Injective(hash)
    ensures r.Ok? <==> AllSorted(inputs)
    ensures r.Ok? ==> r.rows == MergeOf(Files(inputs))
    ensures r.Ok? ==> InFileOrder(r.rows) && exists at :: AreFirstRows(inputs, r.rows, at)
    ensures r.Ok? <==> forall f :: 0 <= f < |inputs| ==> !OutOfOrder(inputs, f)
    ensures r.Unsorted? ==> r.input < |inputs| && OutOfOrder(inputs, r.input)
    ensures !r.Miscounted?
  {
    ghost var at := MergeMeans(inputs);
    var m := new MonthMerge(inputs, hash);
    m.MarkRepeats();
    r := m.WriteRows();
  }

  /** The dumps of the logs of a month always merge, row for row to the dump of
      all of its lines in one log. */
  lemma {:induction false} DumpsMerge(inputs: seq<Groups>, logs: seq<seq<Row>>)
    requires Files(inputs) == DumpsOf(logs)
    ensures AllSorted(inputs) && MergeOf(Files(inputs)) == DumpOf(Concat(logs))
  {
    MergeOfDumps(logs);
    forall i | 0 <= i < |inputs|
      ensures Sorted(Concat(inputs[i]))
    {
      assert Files(inputs)[i] == DumpsOf(logs)[i];
      SortSorted(First({}, logs[i]));
    }
  }
}
