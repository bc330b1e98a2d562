/** The run of one family a cursor holds: the columns held a value per row, and
    the cells of the mostly-NULL ones by row, in a counting-sorted index. */
module Runs {
  import opened Rows
  import opened Vectors

  /** A column of an input: its chunk in the group at hand, where it lands in the
      output, and whether the chunk's statistics call it mostly NULL. */
  datatype Column = Column(chunk: seq<Page>, text: bool, out: nat, mostlyNull: bool)

  predicate ColumnsOk(cols: seq<Column>) {
    (forall i :: 0 <= i < |cols| ==> ChunkOk(cols[i].chunk, cols[i].text)) &&
    (forall i, j :: 0 <= i < j < |cols| ==> cols[i].out != cols[j].out)
  }

  /** The cells of column i of the group. */
  function CellsOf(cols: seq<Column>, i: nat): seq<CellValue>
    requires ColumnsOk(cols) && i < |cols|
  {
    ChunkCells(cols[i].chunk, cols[i].text)
  }

  // ----- the cells of the compact columns, by row

  /** The k-th value of column col, in row row of the run. */
  datatype CellRef = CellRef(col: nat, k: nat, row: nat)

  function PosOf(v: Vector): seq<nat> {
    if v.pos.None? then [] else v.pos.value
  }

  function ColumnRefs(i: nat, pos: seq<nat>, k: nat): seq<CellRef>
    requires k <= |pos|
  {
    seq(k, j requires 0 <= j < k => CellRef(i, j, pos[j]))
  }

  /** The cells of the first i columns, column by column. */
  function Refs(vals: seq<Vector>, i: nat): seq<CellRef>
    requires i <= |vals|
  {
    if i == 0 then [] else Refs(vals, i - 1) + ColumnRefs(i - 1, PosOf(vals[i - 1]), |PosOf(vals[i - 1])|)
  }

  /** The cells of row p, in s's order. */
  function RowRefs(s: seq<CellRef>, p: nat): seq<CellRef> {
    if s == [] then []
    else
      var n := |s| - 1;
      RowRefs(s[..n], p) + if s[n].row == p then [s[n]] else []
  }

  /** How many cells are in rows before p. */
  function Start(s: seq<CellRef>, p: nat): nat {
    if p == 0 then 0 else Start(s, p - 1) + |RowRefs(s, p - 1)|
  }

  lemma {:induction false} RowRefsSnoc(s: seq<CellRef>, c: CellRef, p: nat)
    ensures RowRefs(s + [c], p) == RowRefs(s, p) + if c.row == p then [c] else []
  {
    assert (s + [c])[..|s|] == s;
  }

  lemma {:induction false} RowRefsPrefix(s: seq<CellRef>, t: seq<CellRef>, p: nat)
    requires s <= t
    ensures RowRefs(s, p) <= RowRefs(t, p)
    decreases |t|
  {
    if |s| == |t| {
      assert s == t;
    } else {
      RowRefsPrefix(s, t[..|t| - 1], p);
    }
  }

  ghost predicate RowsBelow(s: seq<CellRef>, rows: nat) {
    forall k :: 0 <= k < |s| ==> s[k].row < rows
  }

  /** The k-th cell of s is one of its row's. */
  lemma {:induction false} RowRefAt(s: seq<CellRef>, k: nat) returns (j: nat)
    requires k < |s|
    ensures j < |RowRefs(s, s[k].row)| && RowRefs(s, s[k].row)[j] == s[k]
  {
    var n := |s| - 1;
    if k == n {
      j := |RowRefs(s[..n], s[k].row)|;
    } else {
      j := RowRefAt(s[..n], k);
    }
  }

  lemma {:induction false} StartSnoc(s: seq<CellRef>, c: CellRef, p: nat)
    ensures Start(s + [c], p) == Start(s, p) + if c.row < p then 1 else 0
  {
    if p > 0 {
      StartSnoc(s, c, p - 1);
      RowRefsSnoc(s, c, p - 1);
    }
  }

  lemma {:induction false} StartOfAll(s: seq<CellRef>, rows: nat)
    requires RowsBelow(s, rows)
    ensures Start(s, rows) == |s|
  {
    if s == [] {
      StartOfNone(rows);
    } else {
      var n := |s| - 1;
      assert s == s[..n] + [s[n]];
      assert forall k :: 0 <= k < n ==> s[..n][k] == s[k];
      StartOfAll(s[..n], rows);
      StartSnoc(s[..n], s[n], rows);
    }
  }

  lemma {:induction false} StartOfNone(p: nat)
    ensures Start([], p) == 0
  {
    if p > 0 { StartOfNone(p - 1); }
  }

  lemma {:induction false} StartMonotone(s: seq<CellRef>, p: nat, q: nat)
    requires p <= q
    ensures Start(s, p) <= Start(s, q)
    decreases q
  {
    if p < q { StartMonotone(s, p, q - 1); }
  }

  /** c is a cell of one of the first i columns. */
  ghost predicate IsCell(vals: seq<Vector>, i: nat, c: CellRef)
    requires i <= |vals|
  {
    c.col < i && c.k < |PosOf(vals[c.col])| && PosOf(vals[c.col])[c.k] == c.row
  }

  ghost predicate AllCellsOf(vals: seq<Vector>, i: nat, s: seq<CellRef>)
    requires i <= |vals|
  {
    forall k :: 0 <= k < |s| ==> IsCell(vals, i, s[k])
  }

  lemma {:induction false} RefsAreCells(vals: seq<Vector>, i: nat)
    requires i <= |vals|
    ensures AllCellsOf(vals, i, Refs(vals, i))
  {
    if i > 0 {
      RefsAreCells(vals, i - 1);
      var was, pos := Refs(vals, i - 1), PosOf(vals[i - 1]);
      forall k | 0 <= k < |Refs(vals, i)|
        ensures IsCell(vals, i, Refs(vals, i)[k])
      {
        assert k < |was| ==> IsCell(vals, i - 1, was[k]);
        assert k >= |was| ==> Refs(vals, i)[k] == CellRef(i - 1, k - |was|, pos[k - |was|]);
      }
    }
  }

  /** The j-th cell of row p is a cell of s, of row p. */
  lemma {:induction false} RowRefFrom(s: seq<CellRef>, p: nat, j: nat) returns (k: nat)
    requires j < |RowRefs(s, p)|
    ensures k < |s| && s[k] == RowRefs(s, p)[j] && s[k].row == p
  {
    var n := |s| - 1;
    if j < |RowRefs(s[..n], p)| {
      k := RowRefFrom(s[..n], p, j);
    } else {
      k := n;
    }
  }

  /** Each cell of the first i columns is listed. */
  lemma {:induction false} CellListed(vals: seq<Vector>, i: nat, c: CellRef) returns (k: nat)
    requires i <= |vals| && IsCell(vals, i, c)
    ensures k < |Refs(vals, i)| && Refs(vals, i)[k] == c
  {
    if c.col == i - 1 {
      k := |Refs(vals, i - 1)| + c.k;
    } else {
      k := CellListed(vals, i - 1, c);
    }
  }

  lemma {:induction false} RefsPrefix(vals: seq<Vector>, i: nat, j: nat)
    requires i <= j <= |vals|
    ensures Refs(vals, i) <= Refs(vals, j)
    decreases j
  {
    if i < j { RefsPrefix(vals, i, j - 1); }
  }

  /** The cells up to the k-th of column i, and the one after them, are the
      first of all. */
  lemma {:induction false} RefsStep(vals: seq<Vector>, i: nat, k: nat)
    requires i < |vals| && k < |PosOf(vals[i])|
    ensures var pos := PosOf(vals[i]);
            var done := Refs(vals, i) + ColumnRefs(i, pos, k);
            Refs(vals, i) + ColumnRefs(i, pos, k + 1) == done + [CellRef(i, k, pos[k])] <= Refs(vals, |vals|)
  {
    var pos := PosOf(vals[i]);
    assert ColumnRefs(i, pos, k + 1) == ColumnRefs(i, pos, k) + [CellRef(i, k, pos[k])];
    assert ColumnRefs(i, pos, k + 1) <= ColumnRefs(i, pos, |pos|);
    RefsPrefix(vals, i + 1, |vals|);
  }

  // ----- the counting sort

  /** start counts the cells done, by row. */
  ghost predicate Counted(start: seq<nat>, done: seq<CellRef>, rows: nat) {
    |start| == rows + 1 && start[0] == 0 && forall q :: 0 < q <= rows ==> start[q] == |RowRefs(done, q - 1)|
  }

  /** start[p] is where row p's cells begin. */
  method Starts(vals: seq<Vector>, rows: nat) returns (start: seq<nat>)
    requires RowsBelow(Refs(vals, |vals|), rows)
    ensures |start| == rows + 1 && forall p :: 0 <= p <= rows ==> start[p] == Start(Refs(vals, |vals|), p)
  {
    ghost var all := Refs(vals, |vals|);
    start := seq(rows + 1, _ => 0);
    for i := 0 to |vals|
      invariant Counted(start, Refs(vals, i), rows)
    {
      var pos := PosOf(vals[i]);
      assert Refs(vals, i) + ColumnRefs(i, pos, 0) == Refs(vals, i);
      for k := 0 to |pos|
        invariant Counted(start, Refs(vals, i) + ColumnRefs(i, pos, k), rows)
      {
        CountedStep(vals, start, i, k, rows);
        start := start[pos[k] + 1 := start[pos[k] + 1] + 1];
      }
    }
    start := PrefixSums(start, RowCounts(all, rows));
    forall p | 0 <= p <= rows
      ensures start[p] == Start(all, p)
    {
      StartIsSum(all, RowCounts(all, rows), p);
    }
  }

  /** How many cells each row has. */
  ghost function RowCounts(s: seq<CellRef>, rows: nat): seq<nat> {
    seq(rows, p requires 0 <= p < rows => |RowRefs(s, p)|)
  }

  /** The k-th cell of column i counted. */
  lemma {:induction false} CountedStep(vals: seq<Vector>, start: seq<nat>, i: nat, k: nat, rows: nat)
    requires RowsBelow(Refs(vals, |vals|), rows) && i < |vals| && k < |PosOf(vals[i])|
    requires Counted(start, Refs(vals, i) + ColumnRefs(i, PosOf(vals[i]), k), rows)
    ensures var row := PosOf(vals[i])[k];
            row < rows && Counted(start[row + 1 := start[row + 1] + 1], Refs(vals, i) + ColumnRefs(i, PosOf(vals[i]), k + 1), rows)
  {
    var done := Refs(vals, i) + ColumnRefs(i, PosOf(vals[i]), k);
    var c := CellRef(i, k, PosOf(vals[i])[k]);
    RefsStep(vals, i, k);
    assert (done + [c])[|done|] == c && Refs(vals, |vals|)[|done|] == c;
    CountedNext(start, done, c, rows);
  }

  function Sum(counts: seq<nat>, p: nat): nat
    requires p <= |counts|
  {
    if p == 0 then 0 else Sum(counts, p - 1) + counts[p - 1]
  }

  method PrefixSums(start0: seq<nat>, ghost counts: seq<nat>) returns (start: seq<nat>)
    requires |start0| == |counts| + 1 && start0[0] == 0 && start0[1..] == counts
    ensures |start| == |start0| && forall p :: 0 <= p < |start| ==> start[p] == Sum(counts, p)
  {
    start := start0;
    for r := 0 to |start| - 1
      invariant |start| == |start0|
      invariant forall p :: 0 <= p <= r ==> start[p] == Sum(counts, p)
      invariant forall q :: r < q < |start| ==> start[q] == start0[q]
    {
      assert start0[r + 1] == start0[1..][r];
      start := start[r + 1 := start[r + 1] + start[r]];
    }
  }

  lemma {:induction false} StartIsSum(s: seq<CellRef>, counts: seq<nat>, p: nat)
    requires p <= |counts| && forall q :: 0 <= q < |counts| ==> counts[q] == |RowRefs(s, q)|
    ensures Start(s, p) == Sum(counts, p)
  {
    if p > 0 { StartIsSum(s, counts, p - 1); }
  }

  lemma {:induction false} CountedNext(start: seq<nat>, done: seq<CellRef>, c: CellRef, rows: nat)
    requires Counted(start, done, rows) && c.row < rows
    ensures Counted(start[c.row + 1 := start[c.row + 1] + 1], done + [c], rows)
  {
    var next := start[c.row + 1 := start[c.row + 1] + 1];
    forall q | 0 < q < |next|
      ensures next[q] == |RowRefs(done + [c], q - 1)|
    {
      RowRefsSnoc(done, c, q - 1);
    }
  }

  /** The cells done stand at their rows' places of sparse and sparseAt, in order. */
  ghost predicate Placed(all: seq<CellRef>, done: seq<CellRef>, rows: nat, next: seq<nat>, sparse: seq<nat>, sparseAt: seq<nat>) {
    && done <= all
    && |sparse| == |sparseAt| == |all| && |next| == rows
    && (forall p :: 0 <= p < rows ==> next[p] == Start(all, p) + |RowRefs(done, p)|)
    && CellsPlaced(all, done, rows, sparse, sparseAt)
  }

  ghost predicate PlacedAt(all: seq<CellRef>, sparse: seq<nat>, sparseAt: seq<nat>, p: nat, j: nat, c: CellRef)
    requires |sparse| == |sparseAt|
  {
    var k := Start(all, p) + j;
    k < |sparse| && sparse[k] == c.col && sparseAt[k] == c.k
  }

  /** Row p's cells, in order, stand from Start(all, p) on. */
  ghost predicate Indexed(all: seq<CellRef>, rows: nat, sparse: seq<nat>, sparseAt: seq<nat>) {
    && |sparse| == |sparseAt| == |all|
    && CellsPlaced(all, all, rows, sparse, sparseAt)
  }

  /** The place of a cell done is not the place of the next, c. */
  lemma {:induction false} SlotsApart(all: seq<CellRef>, done: seq<CellRef>, c: CellRef, p: nat, j: nat)
    requires done + [c] <= all && j < |RowRefs(done, p)|
    ensures Start(all, p) + j != Start(all, c.row) + |RowRefs(done, c.row)|
  {
    RoomForNext(all, done, c);
    RowRefsPrefix(done, all, p);
    if p != c.row {
      StartsApart(all, p, j, c.row, |RowRefs(done, c.row)|);
    }
  }

  lemma {:induction false} RoomForNext(all: seq<CellRef>, done: seq<CellRef>, c: CellRef)
    requires done + [c] <= all
    ensures |RowRefs(done, c.row)| < |RowRefs(all, c.row)|
    ensures done <= all
  {
    RowRefsSnoc(done, c, c.row);
    RowRefsPrefix(done + [c], all, c.row);
  }

  lemma {:induction false} StartsApart(all: seq<CellRef>, p: nat, j: nat, q: nat, k: nat)
    requires p != q && j < |RowRefs(all, p)| && k < |RowRefs(all, q)|
    ensures Start(all, p) + j != Start(all, q) + k
  {
    if p < q {
      StartMonotone(all, p + 1, q);
    } else {
      StartMonotone(all, q + 1, p);
    }
  }

  ghost predicate CellsPlaced(all: seq<CellRef>, done: seq<CellRef>, rows: nat, sparse: seq<nat>, sparseAt: seq<nat>)
    requires |sparse| == |sparseAt|
  {
    forall p, j :: 0 <= p < rows && 0 <= j < |RowRefs(done, p)| ==> PlacedAt(all, sparse, sparseAt, p, j, RowRefs(done, p)[j])
  }

  lemma {:induction false} CellsPlacedNext(all: seq<CellRef>, done: seq<CellRef>, c: CellRef, rows: nat, sparse: seq<nat>, sparseAt: seq<nat>)
    requires done + [c] <= all && |sparse| == |sparseAt| && CellsPlaced(all, done, rows, sparse, sparseAt)
    requires Start(all, c.row) + |RowRefs(done, c.row)| < |sparse|
    ensures var at := Start(all, c.row) + |RowRefs(done, c.row)|;
            CellsPlaced(all, done + [c], rows, sparse[at := c.col], sparseAt[at := c.k])
  {
    var at := Start(all, c.row) + |RowRefs(done, c.row)|;
    var sparse', at' := sparse[at := c.col], sparseAt[at := c.k];
    forall p, j | 0 <= p < rows && 0 <= j < |RowRefs(done + [c], p)|
      ensures PlacedAt(all, sparse', at', p, j, RowRefs(done + [c], p)[j])
    {
      RowRefsSnoc(done, c, p);
      if j < |RowRefs(done, p)| {
        SlotsApart(all, done, c, p, j);
        StillPlaced(all, sparse, sparseAt, p, j, RowRefs(done, p)[j], at, c);
      }
    }
  }

  lemma {:induction false} PlacedNext(all: seq<CellRef>, done: seq<CellRef>, c: CellRef, rows: nat,
                   next: seq<nat>, sparse: seq<nat>, sparseAt: seq<nat>)
    requires Placed(all, done, rows, next, sparse, sparseAt)
    requires done + [c] <= all && RowsBelow(all, rows)
    ensures c.row < rows && next[c.row] < |sparse|
    ensures Placed(all, done + [c], rows, next[c.row := next[c.row] + 1],
                   sparse[next[c.row] := c.col], sparseAt[next[c.row] := c.k])
  {
    assert all[|done|] == c by { assert (done + [c])[|done|] == c; }
    var at := next[c.row];
    SlotInRange(all, done, c, rows);
    CellsPlacedNext(all, done, c, rows, sparse, sparseAt);
    NextPlaces(all, done, c, rows, next);
  }

  lemma {:induction false} SlotInRange(all: seq<CellRef>, done: seq<CellRef>, c: CellRef, rows: nat)
    requires done + [c] <= all && RowsBelow(all, rows) && c.row < rows
    ensures Start(all, c.row) + |RowRefs(done, c.row)| < |all|
  {
    RoomForNext(all, done, c);
    StartsSpan(all, rows, c.row);
  }

  lemma {:induction false} NextPlaces(all: seq<CellRef>, done: seq<CellRef>, c: CellRef, rows: nat, next: seq<nat>)
    requires |next| == rows && c.row < rows
    requires forall p :: 0 <= p < rows ==> next[p] == Start(all, p) + |RowRefs(done, p)|
    ensures forall p :: 0 <= p < rows ==>
              next[c.row := next[c.row] + 1][p] == Start(all, p) + |RowRefs(done + [c], p)|
  {
    forall p | 0 <= p < rows
      ensures next[c.row := next[c.row] + 1][p] == Start(all, p) + |RowRefs(done + [c], p)|
    {
      RowRefsSnoc(done, c, p);
    }
  }

  lemma {:induction false} StillPlaced(all: seq<CellRef>, sparse: seq<nat>, sparseAt: seq<nat>, p: nat, j: nat, d: CellRef, at: nat, c: CellRef)
    requires |sparse| == |sparseAt| && at < |sparse| && PlacedAt(all, sparse, sparseAt, p, j, d)
    requires at != Start(all, p) + j
    ensures PlacedAt(all, sparse[at := c.col], sparseAt[at := c.k], p, j, d)
  {
  }

  /** Each cell put in its row's place. */
  method Place(vals: seq<Vector>, rows: nat, start: seq<nat>, cells: nat) returns (sparse: seq<nat>, sparseAt: seq<nat>)
    requires RowsBelow(Refs(vals, |vals|), rows)
    requires |start| == rows + 1 && forall p :: 0 <= p <= rows ==> start[p] == Start(Refs(vals, |vals|), p)
    requires cells == |Refs(vals, |vals|)|
    ensures Indexed(Refs(vals, |vals|), rows, sparse, sparseAt)
  {
    ghost var all := Refs(vals, |vals|);
    sparse, sparseAt := seq(cells, _ => 0), seq(cells, _ => 0);
    var next := start[..rows];
    for i := 0 to |vals|
      invariant Placed(all, Refs(vals, i), rows, next, sparse, sparseAt)
    {
      var pos := PosOf(vals[i]);
      assert Refs(vals, i) + ColumnRefs(i, pos, 0) == Refs(vals, i);
      for k := 0 to |pos|
        invariant Placed(all, Refs(vals, i) + ColumnRefs(i, pos, k), rows, next, sparse, sparseAt)
      {
        RefsStep(vals, i, k);
        PlacedNext(all, Refs(vals, i) + ColumnRefs(i, pos, k), CellRef(i, k, pos[k]), rows, next, sparse, sparseAt);
        var at := next[pos[k]];
        sparse, sparseAt := sparse[at := i], sparseAt[at := k];
        next := next[pos[k] := at + 1];
      }
    }
  }

  // ----- the run a cursor holds

  /** A column's cells of a group, row by row, for each column. */
  type Table = seq<seq<CellValue>>

  function TableOf(cols: seq<Column>): Table
    requires ColumnsOk(cols)
  {
    seq(|cols|, i requires 0 <= i < |cols| => CellsOf(cols, i))
  }

  function Outs(cols: seq<Column>): seq<nat> {
    seq(|cols|, i requires 0 <= i < |cols| => cols[i].out)
  }

  ghost predicate GivesRow(v: Vector, cells: seq<CellValue>, r: nat) {
    v.from <= r < |cells| && HasRow(v, r - v.from) && At(v, r - v.from) == cells[r]
  }

  /** v gives the cells of rows lo to hi of its column. */
  ghost predicate Gives(v: Vector, cells: seq<CellValue>, lo: nat, hi: nat) {
    && lo <= hi <= |cells|
    && if v.pos.Some? then v.from == lo && Compact(v, cells[lo..hi])
       else forall r: nat :: lo <= r < hi ==> GivesRow(v, cells, r)
  }

  lemma {:induction false} GivesAll(v: Vector, cells: seq<CellValue>, lo: nat, hi: nat)
    requires Dense(v, cells) && v.from == 0 && lo <= hi <= |cells|
    ensures Gives(v, cells, lo, hi)
  {
    forall r: nat | lo <= r < hi
      ensures GivesRow(v, cells, r)
    {
      assert At(v, r) == cells[r];
    }
  }

  lemma {:induction false} GivesRead(v: Vector, compact: bool, cells: seq<CellValue>, lo: nat, hi: nat)
    requires lo < hi <= |cells| && v.from == lo && Reads(v, compact, Window(cells, lo, hi))
    ensures Gives(v, cells, lo, hi)
  {
    assert Window(cells, lo, hi) == cells[lo..hi];
    if !compact {
      forall r: nat | lo <= r < hi
        ensures GivesRow(v, cells, r)
      {
        assert At(v, r - lo) == cells[lo..hi][r - lo];
      }
    }
  }

  /** vals gives rows lo to hi of the first columns; ds lists the dense ones. */
  ghost predicate ColumnsHeld(t: Table, vals: seq<Vector>, ds: seq<nat>, lo: nat, hi: nat) {
    && |vals| <= |t|
    && (forall i {:trigger Gives(vals[i], t[i], lo, hi)} :: 0 <= i < |vals| ==> Gives(vals[i], t[i], lo, hi))
    && (forall i: nat :: i in ds <==> i < |vals| && vals[i].pos.None?)
  }

  lemma {:induction false} HeldNext(t: Table, vals: seq<Vector>, ds: seq<nat>, lo: nat, hi: nat, v: Vector)
    requires ColumnsHeld(t, vals, ds, lo, hi) && |vals| < |t| && Gives(v, t[|vals|], lo, hi)
    ensures ColumnsHeld(t, vals + [v], if v.pos.Some? then ds else ds + [|vals|], lo, hi)
  {
  }

  /** The first columns held, and how many cells the compact ones have. */
  ghost predicate HeldTo(t: Table, vals: seq<Vector>, ds: seq<nat>, lo: nat, hi: nat, cells: nat) {
    ColumnsHeld(t, vals, ds, lo, hi) && cells == |Refs(vals, |vals|)|
  }

  lemma {:induction false} HeldMore(t: Table, vals: seq<Vector>, ds: seq<nat>, lo: nat, hi: nat, cells: nat, v: Vector)
    requires HeldTo(t, vals, ds, lo, hi, cells) && |vals| < |t| && Gives(v, t[|vals|], lo, hi)
    ensures HeldTo(t, vals + [v], if v.pos.Some? then ds else ds + [|vals|], lo, hi, cells + |PosOf(v)|)
  {
    HeldNext(t, vals, ds, lo, hi, v);
    RefsOfPrefix(vals, v, |vals|);
  }

  lemma {:induction false} CellInRun(t: Table, vals: seq<Vector>, ds: seq<nat>, lo: nat, hi: nat, c: CellRef)
    requires ColumnsHeld(t, vals, ds, lo, hi) && lo <= hi && IsCell(vals, |vals|, c)
    ensures c.row < hi - lo
  {
    assert Gives(vals[c.col], t[c.col], lo, hi);
  }

  /** The cells of the compact columns are in the run's rows. */
  lemma {:induction false} RefsInRun(t: Table, vals: seq<Vector>, ds: seq<nat>, lo: nat, hi: nat)
    requires ColumnsHeld(t, vals, ds, lo, hi)
    requires lo <= hi
    ensures RowsBelow(Refs(vals, |vals|), hi - lo)
  {
    var all := Refs(vals, |vals|);
    RefsAreCells(vals, |vals|);
    forall k | 0 <= k < |all|
      ensures all[k].row < hi - lo
    {
      CellInRun(t, vals, ds, lo, hi, all[k]);
    }
  }

  ghost predicate Span(start: seq<nat>, p: nat, n: nat) {
    p + 1 < |start| && start[p] <= start[p + 1] <= n
  }

  ghost predicate InSpan(start: seq<nat>, p: nat, k: nat) {
    p + 1 < |start| && start[p] <= k < start[p + 1]
  }

  /** Cell c stands in the index among its row's. */
  ghost predicate Stands(start: seq<nat>, sparse: seq<nat>, sparseAt: seq<nat>, c: CellRef)
    requires c.row + 1 < |start| && |sparse| == |sparseAt|
  {
    exists k :: start[c.row] <= k < start[c.row + 1] && k < |sparse| && sparse[k] == c.col && sparseAt[k] == c.k
  }

  /** The cells of row p of the compact columns are those from start[p] to
      start[p + 1] of the index; without start they have none. */
  ghost predicate IndexOk(vals: seq<Vector>, rows: nat, start: Option<seq<nat>>, sparse: seq<nat>, sparseAt: seq<nat>) {
    if start.None? then forall c :: !IsCell(vals, |vals|, c)
    else
      && |start.value| == rows + 1 && |sparse| == |sparseAt|
      && (forall p: nat :: p < rows ==> Span(start.value, p, |sparse|))
      && (forall p: nat, k: nat :: p < rows && InSpan(start.value, p, k) ==>
            k < |sparse| && IsCell(vals, |vals|, CellRef(sparse[k], sparseAt[k], p)))
      && (forall c :: IsCell(vals, |vals|, c) ==> c.row < rows && Stands(start.value, sparse, sparseAt, c))
  }

  /** The compact columns' cells by row, unless they have none. */
  method Index(vals: seq<Vector>, rows: nat, cells: nat)
    returns (start: Option<seq<nat>>, sparse: seq<nat>, sparseAt: seq<nat>)
    requires cells == |Refs(vals, |vals|)|
    requires RowsBelow(Refs(vals, |vals|), rows)
    ensures IndexOk(vals, rows, start, sparse, sparseAt)
  {
    if cells == 0 {
      forall c
        ensures !IsCell(vals, |vals|, c)
      {
        if IsCell(vals, |vals|, c) { var k := CellListed(vals, |vals|, c); }
      }
      return None, [], [];
    }
    var s := Starts(vals, rows);
    start := Some(s);
    sparse, sparseAt := Place(vals, rows, s, cells);
    PlacedIsIndex(vals, rows, s, sparse, sparseAt);
  }

  lemma {:induction false} PlacedIsIndex(vals: seq<Vector>, rows: nat, start: seq<nat>, sparse: seq<nat>, sparseAt: seq<nat>)
    requires RowsBelow(Refs(vals, |vals|), rows)
    requires |start| == rows + 1 && forall p :: 0 <= p <= rows ==> start[p] == Start(Refs(vals, |vals|), p)
    requires Indexed(Refs(vals, |vals|), rows, sparse, sparseAt)
    ensures IndexOk(vals, rows, Some(start), sparse, sparseAt)
  {
    var all := Refs(vals, |vals|);
    forall p: nat | p < rows
      ensures Span(start, p, |sparse|)
    {
      StartsSpan(all, rows, p);
    }
    forall p: nat, k: nat | p < rows && InSpan(start, p, k)
      ensures k < |sparse| && IsCell(vals, |vals|, CellRef(sparse[k], sparseAt[k], p))
    {
      StandingCell(vals, rows, sparse, sparseAt, p, k);
    }
    forall c | IsCell(vals, |vals|, c)
      ensures c.row < rows && Stands(start, sparse, sparseAt, c)
    {
      IsCellStands(vals, rows, start, sparse, sparseAt, c);
    }
  }

  lemma {:induction false} StartsSpan(all: seq<CellRef>, rows: nat, p: nat)
    requires RowsBelow(all, rows) && p < rows
    ensures Start(all, p) <= Start(all, p + 1) <= |all|
  {
    StartMonotone(all, p, p + 1);
    StartMonotone(all, p + 1, rows);
    StartOfAll(all, rows);
  }

  lemma {:induction false} IsCellStands(vals: seq<Vector>, rows: nat, start: seq<nat>, sparse: seq<nat>, sparseAt: seq<nat>, c: CellRef)
    requires RowsBelow(Refs(vals, |vals|), rows)
    requires |start| == rows + 1 && forall p :: 0 <= p <= rows ==> start[p] == Start(Refs(vals, |vals|), p)
    requires Indexed(Refs(vals, |vals|), rows, sparse, sparseAt)
    requires IsCell(vals, |vals|, c)
    ensures c.row < rows && Stands(start, sparse, sparseAt, c)
  {
    var m := CellListed(vals, |vals|, c);
    var k := CellStands(Refs(vals, |vals|), rows, sparse, sparseAt, m);
  }

  /** The place of a slot of row p's among its cells. */
  lemma {:induction false} SlotOfRow(all: seq<CellRef>, p: nat, k: nat) returns (j: nat)
    requires Start(all, p) <= k < Start(all, p + 1)
    ensures j < |RowRefs(all, p)| && k == Start(all, p) + j
  {
    j := k - Start(all, p);
  }

  lemma {:induction false} PlacedCell(all: seq<CellRef>, rows: nat, sparse: seq<nat>, sparseAt: seq<nat>, p: nat, j: nat)
    requires Indexed(all, rows, sparse, sparseAt) && p < rows && j < |RowRefs(all, p)|
    ensures PlacedAt(all, sparse, sparseAt, p, j, RowRefs(all, p)[j])
  {
  }

  lemma {:induction false} StandingCell(vals: seq<Vector>, rows: nat, sparse: seq<nat>, sparseAt: seq<nat>, p: nat, k: nat)
    requires Indexed(Refs(vals, |vals|), rows, sparse, sparseAt) && p < rows
    requires Start(Refs(vals, |vals|), p) <= k < Start(Refs(vals, |vals|), p + 1)
    ensures k < |sparse| == |sparseAt| && IsCell(vals, |vals|, CellRef(sparse[k], sparseAt[k], p))
  {
    var j := SlotOfRow(Refs(vals, |vals|), p, k);
    PlacedCell(Refs(vals, |vals|), rows, sparse, sparseAt, p, j);
    RowRefIsCell(vals, p, j);
  }

  lemma {:induction false} RowRefIsCell(vals: seq<Vector>, p: nat, j: nat)
    requires j < |RowRefs(Refs(vals, |vals|), p)|
    ensures IsCell(vals, |vals|, RowRefs(Refs(vals, |vals|), p)[j]) && RowRefs(Refs(vals, |vals|), p)[j].row == p
  {
    RefsAreCells(vals, |vals|);
    var k := RowRefFrom(Refs(vals, |vals|), p, j);
  }

  lemma {:induction false} CellStands(all: seq<CellRef>, rows: nat, sparse: seq<nat>, sparseAt: seq<nat>, m: nat) returns (k: nat)
    requires Indexed(all, rows, sparse, sparseAt) && m < |all| && all[m].row < rows
    ensures Start(all, all[m].row) <= k < Start(all, all[m].row + 1)
    ensures k < |sparse| == |sparseAt| && sparse[k] == all[m].col && sparseAt[k] == all[m].k
  {
    var p := all[m].row;
    var j := RowRefAt(all, m);
    assert PlacedAt(all, sparse, sparseAt, p, j, RowRefs(all, p)[j]);
    k := Start(all, p) + j;
  }

  lemma {:induction false} RefsOfPrefix(vals: seq<Vector>, v: Vector, i: nat)
    requires i <= |vals|
    ensures Refs(vals + [v], i) == Refs(vals, i)
    ensures i == |vals| ==> |Refs(vals + [v], i + 1)| == |Refs(vals, i)| + |PosOf(v)|
  {
    if i > 0 {
      RefsOfPrefix(vals, v, i - 1);
    }
  }

  /** A run as it is held. */
  datatype Held = Held(lo: nat, hi: nat, vals: seq<Vector>, dense: seq<nat>,
                       start: Option<seq<nat>>, sparse: seq<nat>, sparseAt: seq<nat>)

  ghost predicate RunOk(t: Table, h: Held) {
    h.lo < h.hi && ColumnsHeld(t, h.vals, h.dense, h.lo, h.hi) && |h.vals| == |t| &&
    IndexOk(h.vals, h.hi - h.lo, h.start, h.sparse, h.sparseAt)
  }

  /** Cell c is its column's non-NULL value of row r. */
  ghost predicate CellHolds(t: Table, vals: seq<Vector>, r: nat, c: CellRef) {
    && c.col < |vals| && c.col < |t| && r < |t[c.col]|
    && var v := vals[c.col];
    && IdxOk(v) && (v.text ==> c.k < |v.idx| && v.idx[c.k] >= 0) && (!v.text ==> c.k < |v.nums|)
    && t[c.col][r] == Some(ValueAt(v, c.k))
  }

  lemma {:induction false} CompactHolds(v: Vector, cells: seq<CellValue>, lo: nat, hi: nat, k: nat)
    requires Gives(v, cells, lo, hi) && k < |PosOf(v)|
    ensures IdxOk(v) && (v.text ==> k < |v.idx| && v.idx[k] >= 0) && (!v.text ==> k < |v.nums|)
    ensures lo + PosOf(v)[k] < hi && cells[lo + PosOf(v)[k]] == Some(ValueAt(v, k))
  {
    var p := PosOf(v)[k];
    assert cells[lo..hi][p] == cells[lo + p];
  }

  lemma {:induction false} ColumnGives(t: Table, h: Held, i: nat)
    requires ColumnsHeld(t, h.vals, h.dense, h.lo, h.hi) && i < |h.vals|
    ensures Gives(h.vals[i], t[i], h.lo, h.hi)
  {
  }

  lemma {:induction false} GivenCell(t: Table, vals: seq<Vector>, lo: nat, hi: nat, r: nat, c: CellRef)
    requires |vals| == |t| && IsCell(vals, |vals|, c) && r == lo + c.row
    requires Gives(vals[c.col], t[c.col], lo, hi)
    ensures CellHolds(t, vals, r, c)
  {
    CompactHolds(vals[c.col], t[c.col], lo, hi, c.k);
  }

  /** A cell of row r of the run is its column's value. */
  lemma {:induction false} CellIsValue(t: Table, h: Held, r: nat, c: CellRef)
    requires ColumnsHeld(t, h.vals, h.dense, h.lo, h.hi) && |h.vals| == |t|
    requires IsCell(h.vals, |h.vals|, c) && r == h.lo + c.row
    ensures CellHolds(t, h.vals, r, c)
  {
    ColumnGives(t, h, c.col);
    GivenCell(t, h.vals, h.lo, h.hi, r, c);
  }

  /** A compact column's non-NULL value of row r is a cell. */
  lemma {:induction false} ValueIsCell(t: Table, h: Held, r: nat, i: nat) returns (c: CellRef)
    requires ColumnsHeld(t, h.vals, h.dense, h.lo, h.hi) && |h.vals| == |t|
    requires h.lo <= r < h.hi && i < |t| && h.vals[i].pos.Some? && r < |t[i]| && t[i][r].Some?
    ensures IsCell(h.vals, |h.vals|, c) && c.col == i && c.row == r - h.lo
  {
    ColumnGives(t, h, i);
    assert t[i][h.lo..h.hi][r - h.lo] == t[i][r];
    var pos := PosOf(h.vals[i]);
    var k :| 0 <= k < |pos| && pos[k] == r - h.lo;
    c := CellRef(i, k, r - h.lo);
  }

  // ----- filling the row buffer

  ghost predicate OutsOk(outs: seq<nat>, t: Table, buf: seq<CellValue>) {
    && |outs| == |t|
    && (forall i :: 0 <= i < |outs| ==> outs[i] < |buf|)
    && (forall i, j :: 0 <= i < j < |outs| ==> outs[i] != outs[j])
  }

  /** buf holds some of row r's values, each in its output column, and every
      column set is in set'. */
  ghost predicate PartRow(outs: seq<nat>, t: Table, buf: seq<CellValue>, r: nat, set': seq<nat>) {
    && OutsOk(outs, t, buf)
    && (forall i :: 0 <= i < |t| ==> r < |t[i]| && (buf[outs[i]] == None || buf[outs[i]] == t[i][r]))
    && (forall o :: 0 <= o < |buf| && o !in outs ==> buf[o] == None)
    && (forall o :: 0 <= o < |buf| && buf[o].Some? ==> o in set')
    && (forall o :: o in set' ==> o < |buf|)
  }

  /** buf holds row r of the group: each column's cell in its output column,
      every other output column NULL. */
  ghost predicate IsRow(outs: seq<nat>, t: Table, buf: seq<CellValue>, r: nat) {
    && OutsOk(outs, t, buf)
    && (forall i :: 0 <= i < |t| ==> r < |t[i]| && buf[outs[i]] == t[i][r])
    && (forall o :: 0 <= o < |buf| && o !in outs ==> buf[o] == None)
  }

  /** Putting column i's cell of row r keeps what is there. */
  lemma {:induction false} PutCell(outs: seq<nat>, t: Table, buf: seq<CellValue>, r: nat, set': seq<nat>, i: nat)
    requires PartRow(outs, t, buf, r, set') && i < |t| && t[i][r].Some?
    ensures PartRow(outs, t, buf[outs[i] := t[i][r]], r, set' + [outs[i]])
    ensures forall k :: 0 <= k < |t| && buf[outs[k]] == t[k][r] ==> buf[outs[i] := t[i][r]][outs[k]] == t[k][r]
  {
    var b := buf[outs[i] := t[i][r]];
    forall k | 0 <= k < |t|
      ensures b[outs[k]] == if k == i then t[i][r] else buf[outs[k]]
    {
      if k < i { assert outs[k] != outs[i]; }
      if i < k { assert outs[i] != outs[k]; }
    }
    assert outs[i] in outs;
  }

  /** The cells the index gives row r are its columns' values. */
  lemma {:induction false} RowCells(t: Table, h: Held, r: nat)
    requires RunOk(t, h) && h.start.Some? && h.lo <= r < h.hi
    ensures Span(h.start.value, r - h.lo, |h.sparse|) && |h.sparse| == |h.sparseAt|
    ensures forall k: nat :: h.start.value[r - h.lo] <= k < h.start.value[r - h.lo + 1] ==>
              CellHolds(t, h.vals, r, CellRef(h.sparse[k], h.sparseAt[k], r - h.lo))
  {
    var p: nat := r - h.lo;
    assert Span(h.start.value, p, |h.sparse|);
    forall k: nat | h.start.value[p] <= k < h.start.value[p + 1]
      ensures CellHolds(t, h.vals, r, CellRef(h.sparse[k], h.sparseAt[k], p))
    {
      assert InSpan(h.start.value, p, k);
      CellIsValue(t, h, r, CellRef(h.sparse[k], h.sparseAt[k], p));
    }
  }

  /** With every dense column and every cell of the index put, the row is whole. */
  lemma {:induction false} RowWhole(outs: seq<nat>, t: Table, h: Held, r: nat, buf: seq<CellValue>, set': seq<nat>)
    requires RunOk(t, h) && h.lo <= r < h.hi && PartRow(outs, t, buf, r, set')
    requires forall i :: 0 <= i < |t| && h.vals[i].pos.None? ==> buf[outs[i]] == t[i][r]
    requires h.start.Some? ==> Span(h.start.value, r - h.lo, |h.sparse|)
    requires h.start.Some? ==>
      forall k: nat :: h.start.value[r - h.lo] <= k < h.start.value[r - h.lo + 1] ==>
        h.sparse[k] < |t| && buf[outs[h.sparse[k]]] == t[h.sparse[k]][r]
    ensures IsRow(outs, t, buf, r)
  {
    forall i | 0 <= i < |t|
      ensures buf[outs[i]] == t[i][r]
    {
      if h.vals[i].pos.Some? && t[i][r].Some? {
        var c := ValueIsCell(t, h, r, i);
        assert h.start.Some? && Stands(h.start.value, h.sparse, h.sparseAt, c);
      }
    }
  }

  /** Puts the cells sparse[first..last] of row r into buf. */
  method FillSparse(cols: seq<Column>, vals: seq<Vector>, sparse: seq<nat>, sparseAt: seq<nat>, first: nat, last: nat,
                    buf: array<CellValue>, set0: seq<nat>, ghost t: Table, ghost r: nat, ghost p: nat)
    returns (set': seq<nat>)
    requires first <= last <= |sparse| == |sparseAt|
    requires forall k: nat :: first <= k < last ==> CellHolds(t, vals, r, CellRef(sparse[k], sparseAt[k], p))
    requires PartRow(Outs(cols), t, buf[..], r, set0)
    modifies buf
    ensures PartRow(Outs(cols), t, buf[..], r, set')
    ensures forall i :: 0 <= i < |t| && old(buf[..])[Outs(cols)[i]] == t[i][r] ==> buf[..][Outs(cols)[i]] == t[i][r]
    ensures forall k: nat :: first <= k < last ==> sparse[k] < |t| && buf[..][Outs(cols)[sparse[k]]] == t[sparse[k]][r]
  {
    ghost var outs := Outs(cols);
    set' := set0;
    for k := first to last
      invariant PartRow(outs, t, buf[..], r, set')
      invariant forall i :: 0 <= i < |t| && old(buf[..])[outs[i]] == t[i][r] ==> buf[..][outs[i]] == t[i][r]
      invariant forall j: nat :: first <= j < k ==> sparse[j] < |t| && buf[..][outs[sparse[j]]] == t[sparse[j]][r]
    {
      assert CellHolds(t, vals, r, CellRef(sparse[k], sparseAt[k], p));
      var i := sparse[k];
      PutCell(outs, t, buf[..], r, set', i);
      buf[cols[i].out] := Some(ValueAt(vals[i], sparseAt[k]));
      set' := set' + [cols[i].out];
    }
  }

  /** The group's first k columns have n rows. */
  ghost predicate AllRows(t: Table, n: nat, k: nat) {
    k <= |t| && forall i {:trigger t[i]} :: 0 <= i < k ==> |t[i]| == n
  }

  /** The columns buf has a value in are among set'. */
  ghost predicate Tracked(buf: seq<CellValue>, set': seq<nat>) {
    && (forall o :: 0 <= o < |buf| && buf[o].Some? ==> o in set')
    && (forall o :: o in set' ==> o < |buf|)
  }

  /** The first n rows that are not dropped. */
  function Kept(drop: seq<bool>, n: nat): seq<nat>
    requires n <= |drop|
  {
    if n == 0 then [] else Kept(drop, n - 1) + if drop[n - 1] then [] else [n - 1]
  }

  /** rows are those of the first n that are not dropped, in order. */
  ghost predicate AreKept(drop: seq<bool>, n: nat, rows: seq<nat>)
    requires n <= |drop|
  {
    && (forall r: nat {:trigger r in rows} :: r in rows <==> r < n && !drop[r])
    && (forall i, j :: 0 <= i < j < |rows| ==> rows[i] < rows[j])
  }

  lemma {:induction false} KeptAre(drop: seq<bool>, n: nat)
    requires n <= |drop|
    ensures AreKept(drop, n, Kept(drop, n))
  {
    if n > 0 {
      KeptAre(drop, n - 1);
      var was := Kept(drop, n - 1);
      assert forall i :: 0 <= i < |was| ==> was[i] in was;
    }
  }

  ghost predicate AreRows(outs: seq<nat>, t: Table, taken: seq<seq<CellValue>>, rows: seq<nat>) {
    |taken| == |rows| && forall k {:trigger taken[k]} :: 0 <= k < |taken| ==> IsRow(outs, t, taken[k], rows[k])
  }

  class Run {
    const cols: seq<Column>
    const fam: int // index in cols of family, -1 when missing
    const ts: int
    var loaded: bool // whether a run is held: rows lo to hi of the group
    var h: Held

    constructor (cols: seq<Column>, fam: int, ts: int)
      ensures this.cols == cols && this.fam == fam && this.ts == ts && !loaded
    {
      this.cols, this.fam, this.ts, this.loaded := cols, fam, ts, false;
      h := Held(0, 0, [], [], None, [], []);
    }

    /** The group's family or ts, read whole: v is column i's vector, None when
        the input lacks it. */
    ghost predicate KeyColumn(i: int, v: Option<Vector>, n: nat) {
      && ColumnsOk(cols) && -1 <= i < |cols|
      && (v.Some? <==> i >= 0)
      && (i >= 0 ==> v.value.from == 0 && Dense(v.value, CellsOf(cols, i)) && |CellsOf(cols, i)| == n)
    }

    function KeyAt(v: Option<Vector>, r: nat): CellValue
      requires v.Some? ==> HasRow(v.value, r)
    {
      if v.None? then None else At(v.value, r)
    }

    /** The end of the run of one family that row r is in. */
    method RunEnd(famv: Option<Vector>, r: nat, n: nat) returns (end: nat)
      requires KeyColumn(fam, famv, n) && r < n
      ensures r < end <= n
      ensures forall q :: r <= q < end ==> KeyAt(famv, q) == KeyAt(famv, r)
      ensures end < n ==> KeyAt(famv, end) != KeyAt(famv, r)
    {
      end := r + 1;
      var f := KeyAt(famv, r);
      while end < n && KeyAt(famv, end) == f
        invariant r < end <= n
        invariant forall q :: r <= q < end ==> KeyAt(famv, q) == f
      {
        end := end + 1;
      }
    }

    /** Column i's values of rows from to to: the ones read already for the
        order, or its chunk's, compactly when it is mostly NULL. */
    method ReadColumn(i: nat, famv: Option<Vector>, tsv: Option<Vector>, from: nat, to: nat, n: nat) returns (r: Option<Vector>)
      requires KeyColumn(fam, famv, n) && KeyColumn(ts, tsv, n) && i < |cols| && from < to <= n
      ensures r.Some? <==> |TableOf(cols)[i]| == n
      ensures r.Some? ==> Gives(r.value, TableOf(cols)[i], from, to)
    {
      if i == fam {
        GivesAll(famv.value, CellsOf(cols, i), from, to);
        r := famv;
      } else if i == ts {
        GivesAll(tsv.value, CellsOf(cols, i), from, to);
        r := tsv;
      } else {
        r := ReadVector(cols[i].chunk, cols[i].text, n, from, to, cols[i].mostlyNull);
        if r.Some? {
          GivesRead(r.value, cols[i].mostlyNull, CellsOf(cols, i), from, to);
        }
      }
    }

    /** Every column's values of rows from to to, which are held dense, and how
        many cells the others have. */
    method ReadColumns(famv: Option<Vector>, tsv: Option<Vector>, from: nat, to: nat, n: nat)
      returns (ok: bool, vs: seq<Vector>, ds: seq<nat>, cells: nat)
      requires KeyColumn(fam, famv, n) && KeyColumn(ts, tsv, n) && from < to <= n
      ensures ok <==> AllRows(TableOf(cols), n, |cols|)
      ensures ok ==> ColumnsHeld(TableOf(cols), vs, ds, from, to) && |vs| == |cols| && cells == |Refs(vs, |vs|)|
    {
      vs, ds, cells, ok := [], [], 0, true;
      for i := 0 to |cols|
        invariant |vs| == i && AllRows(TableOf(cols), n, i)
        invariant HeldTo(TableOf(cols), vs, ds, from, to, cells)
      {
        ok, vs, ds, cells := ReadNextColumn(famv, tsv, from, to, n, vs, ds, cells);
        if !ok { return; }
      }
    }

    /** One column more. */
    method ReadNextColumn(famv: Option<Vector>, tsv: Option<Vector>, from: nat, to: nat, n: nat, vs0: seq<Vector>, ds0: seq<nat>, cells0: nat)
      returns (ok: bool, vs: seq<Vector>, ds: seq<nat>, cells: nat)
      requires KeyColumn(fam, famv, n) && KeyColumn(ts, tsv, n) && from < to <= n
      requires |vs0| < |cols| && HeldTo(TableOf(cols), vs0, ds0, from, to, cells0)
      ensures ok <==> |TableOf(cols)[|vs0|]| == n
      ensures ok ==> |vs| == |vs0| + 1 && HeldTo(TableOf(cols), vs, ds, from, to, cells)
    {
      vs, ds, cells := vs0, ds0, cells0;
      var read := ReadColumn(|vs0|, famv, tsv, from, to, n);
      ok := read.Some?;
      if ok {
        HeldMore(TableOf(cols), vs, ds, from, to, cells, read.value);
        vs := vs + [read.value];
        if read.value.pos.Some? {
          cells := cells + |read.value.pos.value|;
        } else {
          ds := ds + [|vs0|];
        }
      }
    }

    /** Holds the run that begins at row r: each column's vector, and an index by row
        of the compact ones' cells. It fails on a column of another number of rows. */
    method ReadRun(famv: Option<Vector>, tsv: Option<Vector>, r: nat, n: nat) returns (ok: bool)
      requires KeyColumn(fam, famv, n) && KeyColumn(ts, tsv, n) && r < n
      modifies this
      ensures ok <==> AllRows(TableOf(cols), n, |cols|)
      ensures ok ==> loaded && RunOk(TableOf(cols), h) && h.lo == r && h.hi <= n
      ensures ok ==> forall q :: r <= q < h.hi ==> KeyAt(famv, q) == KeyAt(famv, r)
      ensures ok && h.hi < n ==> KeyAt(famv, h.hi) != KeyAt(famv, r)
    {
      ghost var t := TableOf(cols);
      var end := RunEnd(famv, r, n);
      var vs, ds, cells;
      ok, vs, ds, cells := ReadColumns(famv, tsv, r, end, n);
      if !ok {
        return;
      }
      RefsInRun(t, vs, ds, r, end);
      var start, sparse, sparseAt := Index(vs, end - r, cells);
      h, loaded := Held(r, end, vs, ds, start, sparse, sparseAt), true;
    }

    /** A run held is of the group's n rows, and row r is in it. */
    ghost predicate HeldAt(r: nat, n: nat)
      reads this
    {
      loaded ==> ColumnsOk(cols) && RunOk(TableOf(cols), h) && h.lo <= r < h.hi <= n && AllRows(TableOf(cols), n, |cols|)
    }

    /** load: the run row r is in, unless it is held. */
    method Load(famv: Option<Vector>, tsv: Option<Vector>, r: nat, n: nat) returns (ok: bool)
      requires KeyColumn(fam, famv, n) && KeyColumn(ts, tsv, n) && r < n && HeldAt(r, n)
      modifies this
      ensures ok <==> AllRows(TableOf(cols), n, |cols|)
      ensures ok ==> loaded && HeldAt(r, n)
    {
      if loaded { return true; }
      ok := ReadRun(famv, tsv, r, n);
    }

    /** advance, to row r of the group: a run it has passed is let go. */
    method Pass(r: nat, n: nat)
      requires r > 0 && HeldAt(r - 1, n)
      modifies this
      ensures HeldAt(r, n) && (r == n ==> !loaded)
    {
      if loaded && r >= h.hi { loaded := false; }
    }

    /** Rows of other inputs in the same buffer: the columns the last row set cleared,
        any others set. */
    static method OtherRows(buf: array<CellValue>, set0: seq<nat>) returns (set': seq<nat>)
      requires Tracked(buf[..], set0)
      modifies buf
      ensures Tracked(buf[..], set')
    {
      set' := set0;
      var rows: nat := *;
      while rows > 0
        invariant Tracked(buf[..], set')
      {
        Clear(buf, set');
        set' := [];
        var cells: nat := *;
        while cells > 0
          invariant Tracked(buf[..], set')
        {
          var o: nat, v: CellValue := *, *;
          if o < buf.Length {
            buf[o] := v;
            set' := set' + [o];
          }
          cells := cells - 1;
        }
        rows := rows - 1;
      }
    }

    /** The columns the last row set, cleared. */
    static method Clear(buf: array<CellValue>, set0: seq<nat>)
      requires Tracked(buf[..], set0)
      modifies buf
      ensures forall o :: 0 <= o < buf.Length ==> buf[o] == None
    {
      for k := 0 to |set0|
        invariant forall o :: 0 <= o < buf.Length && buf[o].Some? ==> o in set0[k..]
      {
        assert set0[k] in set0;
        buf[set0[k]] := None;
        assert set0[k..] == [set0[k]] + set0[k + 1..];
      }
    }

    /** The rows of a group a merge takes, whatever other inputs put into the buffer in
        between: each is the group's row, and no run is left for the next group. A
        column of another number of rows fails it. */
    method TakeRows(famv: Option<Vector>, tsv: Option<Vector>, n: nat, drop: seq<bool>, buf: array<CellValue>, set0: seq<nat>)
      returns (ok: bool, taken: seq<seq<CellValue>>, set': seq<nat>)
      requires KeyColumn(fam, famv, n) && KeyColumn(ts, tsv, n) && |drop| == n && !loaded
      requires OutsOk(Outs(cols), TableOf(cols), buf[..]) && Tracked(buf[..], set0)
      modifies this, buf
      ensures ok <==> (exists r :: 0 <= r < n && !drop[r]) ==> AllRows(TableOf(cols), n, |cols|)
      ensures ok ==> !loaded && exists rows :: AreKept(drop, n, rows) && AreRows(Outs(cols), TableOf(cols), taken, rows)
      ensures ok ==> Tracked(buf[..], set')
    {
      KeptAre(drop, n);
      ok, taken, set' := true, [], set0;
      for r := 0 to n
        invariant HeldAt(r, n) && (r == n ==> !loaded)
        invariant OutsOk(Outs(cols), TableOf(cols), buf[..]) && Tracked(buf[..], set')
        invariant AreRows(Outs(cols), TableOf(cols), taken, Kept(drop, r))
        invariant (exists q :: 0 <= q < r && !drop[q]) ==> AllRows(TableOf(cols), n, |cols|)
      {
        if !drop[r] {
          ok := Load(famv, tsv, r, n);
          if !ok { return; }
          set' := NextRow(r, buf, set', TableOf(cols));
          taken := taken + [buf[..]];
          set' := OtherRows(buf, set');
        }
        Pass(r + 1, n);
      }
    }

    /** Puts row r's values of the dense columns into buf, which is clear. */
    method FillDense(r: nat, buf: array<CellValue>, ghost t: Table) returns (set': seq<nat>)
      requires RunOk(t, h) && h.lo <= r < h.hi && |cols| == |t|
      requires PartRow(Outs(cols), t, buf[..], r, [])
      modifies buf
      ensures PartRow(Outs(cols), t, buf[..], r, set')
      ensures forall i :: 0 <= i < |t| && h.vals[i].pos.None? ==> buf[..][Outs(cols)[i]] == t[i][r]
    {
      set' := [];
      for d := 0 to |h.dense|
        invariant PartRow(Outs(cols), t, buf[..], r, set')
        invariant forall i :: 0 <= i < |t| && i in h.dense[..d] ==> buf[..][Outs(cols)[i]] == t[i][r]
      {
        var i := h.dense[d];
        assert i in h.dense && h.dense[..d + 1] == h.dense[..d] + [i];
        assert Gives(h.vals[i], t[i], h.lo, h.hi) && GivesRow(h.vals[i], t[i], r);
        var x := At(h.vals[i], r - h.vals[i].from);
        if x.Some? {
          PutCell(Outs(cols), t, buf[..], r, set', i);
          buf[cols[i].out] := x;
          set' := set' + [cols[i].out];
        }
      }
      assert h.dense[..|h.dense|] == h.dense;
    }

    /** Puts row r's values into buf, which is clear, in their output columns,
        and lists the columns set. */
    method Fill(r: nat, buf: array<CellValue>, ghost t: Table) returns (set': seq<nat>)
      requires RunOk(t, h) && h.lo <= r < h.hi && |cols| == |t|
      requires PartRow(Outs(cols), t, buf[..], r, [])
      modifies buf
      ensures IsRow(Outs(cols), t, buf[..], r)
      ensures PartRow(Outs(cols), t, buf[..], r, set')
    {
      set' := FillDense(r, buf, t);
      if h.start.Some? {
        RowCells(t, h, r);
        var first, last := h.start.value[r - h.lo], h.start.value[r - h.lo + 1];
        set' := FillSparse(cols, h.vals, h.sparse, h.sparseAt, first, last, buf, set', t, r, r - h.lo);
      }
      RowWhole(Outs(cols), t, h, r, buf[..], set');
    }

    /** The next row written: the columns the last row set are cleared, then row
        r is put. */
    method NextRow(r: nat, buf: array<CellValue>, set0: seq<nat>, ghost t: Table) returns (set': seq<nat>)
      requires RunOk(t, h) && h.lo <= r < h.hi && |cols| == |t| && OutsOk(Outs(cols), t, buf[..])
      requires Tracked(buf[..], set0)
      modifies buf
      ensures IsRow(Outs(cols), t, buf[..], r) && Tracked(buf[..], set')
    {
      Clear(buf, set0);
      forall i | 0 <= i < |t|
        ensures r < |t[i]|
      {
        assert Gives(h.vals[i], t[i], h.lo, h.hi);
      }
      set' := Fill(r, buf, t);
    }
  }
}
