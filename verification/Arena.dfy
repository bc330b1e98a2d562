/** A file of many columns, written one column at a time: the open group's
    values of each column in one run of bytes, until the group is cut. */
module Arena {
  import opened Bytes

  datatype ColType = BigInt | Varchar | Date | Double | Timestamp

  /** A cell: NULL, a text's bytes, or a number, a Double's its 64 bits. */
  datatype Value = Null | Str(s: seq<Byte>) | Num(n: int)

  predicate IsOf(v: Value, t: ColType) {
    match v
    case Null => true
    case Str(_) => t.Varchar?
    case Num(n) => !t.Varchar? && Fits(n, Width(t))
  }

  ghost predicate AllOf(col: seq<Value>, t: ColType) {
    forall k {:trigger IsOf(col[k], t)} :: 0 <= k < |col| ==> IsOf(col[k], t)
  }

  function Width(t: ColType): nat {
    if t.Date? then 4 else 8
  }

  // ----- a column's values as bytes

  /** A value of the column and its row in the group. */
  datatype Entry = Entry(row: nat, value: Value)

  function ValueBytes(t: ColType, v: Value): seq<Byte> {
    match v
    case Null => []
    case Str(s) => Uvarint(|s|) + s
    case Num(n) => LittleEndian(Word(n, Width(t)), Width(t))
  }

  /** How far a value's row is from the one before, then the value. */
  function EntryBytes(t: ColType, e: Entry, last: int): seq<Byte> {
    Uvarint(if e.row > last then e.row - last else 0) + ValueBytes(t, e.value)
  }

  /** One after another, each given the row before it. */
  function Chain(bytes: (Entry, int) -> seq<Byte>, es: seq<Entry>, last: int): seq<Byte> {
    if es == [] then [] else bytes(es[0], last) + Chain(bytes, es[1..], es[0].row)
  }

  function ArenaOf(t: ColType, es: seq<Entry>, last: int): seq<Byte> {
    Chain((e, l) => EntryBytes(t, e, l), es, last)
  }

  function LastRow(es: seq<Entry>, last: int): int {
    if es == [] then last else es[|es| - 1].row
  }

  lemma {:induction false} ChainMore(bytes: (Entry, int) -> seq<Byte>, es: seq<Entry>, last: int, e: Entry)
    ensures Chain(bytes, es + [e], last) == Chain(bytes, es, last) + bytes(e, LastRow(es, last))
  {
    if es == [] {
      assert (es + [e])[1..] == [] && Chain(bytes, [], e.row) == [];
    } else {
      ChainMore(bytes, es[1..], es[0].row, e);
      assert (es + [e])[1..] == es[1..] + [e] && (es + [e])[0] == es[0];
      assert LastRow(es[1..], es[0].row) == LastRow(es, last);
    }
  }

  lemma {:induction false} ArenaMore(t: ColType, es: seq<Entry>, last: int, e: Entry)
    ensures ArenaOf(t, es + [e], last) == ArenaOf(t, es, last) + EntryBytes(t, e, LastRow(es, last))
  {
    ChainMore((x, l) => EntryBytes(t, x, l), es, last, e);
  }

  /** The values of a column of rows, those from row i. */
  function EntriesOf(col: seq<Value>, i: nat): seq<Entry>
    requires i <= |col|
    decreases |col| - i
  {
    if i == |col| then []
    else if col[i].Null? then EntriesOf(col, i + 1)
    else [Entry(i, col[i])] + EntriesOf(col, i + 1)
  }

  lemma {:induction false} EntryRows(col: seq<Value>, i: nat)
    requires i <= |col|
    ensures forall k :: 0 <= k < |EntriesOf(col, i)| ==> i <= EntriesOf(col, i)[k].row < |col|
    decreases |col| - i
  {
    if i < |col| {
      EntryRows(col, i + 1);
    }
  }

  lemma {:induction false} EntriesMore(col: seq<Value>, v: Value, i: nat)
    requires i <= |col|
    ensures EntriesOf(col + [v], i) == EntriesOf(col, i) + if v.Null? then [] else [Entry(|col|, v)]
    decreases |col| - i
  {
    var more := col + [v];
    if i == |col| {
      assert EntriesOf(more, i + 1) == [];
    } else {
      EntriesMore(col, v, i + 1);
      assert more[i] == col[i];
    }
  }

  // ----- reading them back

  /** The value at the start of a, and how many bytes it takes. */
  function ReadValue(t: ColType, a: seq<Byte>): (r: (Value, nat))
    ensures r.1 <= |a|
  {
    if t.Varchar? then
      var (l, k) := ReadUvarint(a);
      if k + l <= |a| then (Str(a[k..k + l]), k + l) else (Null, 0)
    else if Width(t) <= |a| then
      (Num(Signed(FromLittleEndian(a[..Width(t)]), Width(t))), Width(t))
    else (Null, 0)
  }

  lemma {:induction false} StrReads(t: ColType, s: seq<Byte>, a: seq<Byte>, rest: seq<Byte>)
    requires t.Varchar? && a == Uvarint(|s|) + (s + rest)
    ensures ReadValue(t, a).0 == Str(s) && a[ReadValue(t, a).1..] == rest
  {
    BeginsWithUvarint(a, |s|, s + rest);
    var k := ReadUvarint(a).1;
    DropTwice(a, k, |s|);
    assert a[k..k + |s|] == a[k..][..|s|] == s;
    assert a[k..][|s|..] == rest;
  }

  lemma {:induction false} NumReads(t: ColType, n: int, a: seq<Byte>, rest: seq<Byte>)
    requires !t.Varchar? && Fits(n, Width(t)) && a == LittleEndian(Word(n, Width(t)), Width(t)) + rest
    ensures ReadValue(t, a).0 == Num(n) && a[ReadValue(t, a).1..] == rest
  {
    SignedReads(n, Width(t));
    BeginsWithWord(a, Word(n, Width(t)), Width(t), rest);
  }

  lemma {:induction false} StrThenRest(s: seq<Byte>, rest: seq<Byte>)
    ensures Uvarint(|s|) + s + rest == Uvarint(|s|) + (s + rest)
  {
  }

  lemma {:induction false} ValueReads(t: ColType, v: Value, a: seq<Byte>, rest: seq<Byte>)
    requires !v.Null? && IsOf(v, t) && a == ValueBytes(t, v) + rest
    ensures ReadValue(t, a).0 == v && a[ReadValue(t, a).1..] == rest
  {
    match v
    case Str(s) =>
      StrThenRest(s, rest);
      StrReads(t, s, a, rest);
    case Num(n) => NumReads(t, n, a, rest);
  }

  /** Reading has come to row r: next is the row of the value at pos. */
  ghost predicate ReadTo(t: ColType, col: seq<Value>, a: seq<Byte>, r: nat, pos: nat, next: int)
    requires r <= |col|
  {
    forall rest: seq<Entry> {:trigger IsLeft(t, rest, a, pos)} :: rest == EntriesOf(col, r) ==>
      IsLeft(t, rest, a, pos) && next == if rest == [] then |col| else rest[0].row
  }

  /** What is left at pos: a value, and the others after it. */
  ghost predicate IsLeft(t: ColType, rest: seq<Entry>, a: seq<Byte>, pos: nat) {
    && pos <= |a|
    && a[pos..] == if rest == [] then [] else ValueBytes(t, rest[0].value) + ArenaOf(t, rest[1..], rest[0].row)
  }

  lemma {:induction false} ReadDelta(t: ColType, rest: seq<Entry>, a: seq<Byte>, pos: nat, last: int)
    requires pos <= |a| && a[pos..] == ArenaOf(t, rest, last) && rest != [] && rest[0].row > last
    ensures pos < |a| && ReadUvarint(a[pos..]).0 == rest[0].row - last
    ensures IsLeft(t, rest, a, pos + ReadUvarint(a[pos..]).1)
  {
    var b, d := a[pos..], rest[0].row - last;
    var more := ValueBytes(t, rest[0].value) + ArenaOf(t, rest[1..], rest[0].row);
    assert b == Uvarint(d) + more;
    BeginsWithUvarint(b, d, more);
    DropTwice(a, pos, ReadUvarint(b).1);
  }

  /** advance: on to the next value, or past the last one. */
  method Advance(t: ColType, ghost col: seq<Value>, a: seq<Byte>, n: nat, ghost r: nat, pos0: nat, next0: int) returns (pos: nat, next: int)
    requires n == |col| && r <= n && pos0 <= |a| && -1 <= next0 < r && AllOf(col, t)
    requires a[pos0..] == ArenaOf(t, EntriesOf(col, r), next0)
    ensures ReadTo(t, col, a, r, pos, next)
  {
    pos, next := pos0, next0;
    ghost var rest := EntriesOf(col, r);
    EntryRows(col, r);
    if rest != [] { ReadDelta(t, rest, a, pos, next0); }
    if pos < |a| {
      var (d, k) := ReadUvarint(a[pos..]);
      pos := pos + k;
      next := next + d;
    } else {
      next := n;
    }
  }

  lemma {:induction false} ReadNull(t: ColType, col: seq<Value>, a: seq<Byte>, r: nat, pos: nat, next: int)
    requires r < |col| && ReadTo(t, col, a, r, pos, next) && AllOf(col, t)
    ensures (next == r) == !col[r].Null?
    ensures next != r ==> ReadTo(t, col, a, r + 1, pos, next)
  {
    assert IsLeft(t, EntriesOf(col, r), a, pos);
    EntryRows(col, r + 1);
    assert EntriesOf(col, r + 1) != [] ==> EntriesOf(col, r + 1)[0].row > r;
  }

  lemma {:induction false} ReadCell(t: ColType, col: seq<Value>, a: seq<Byte>, r: nat, pos: nat)
    requires r < |col| && !col[r].Null? && IsOf(col[r], t) && IsLeft(t, EntriesOf(col, r), a, pos)
    ensures ReadValue(t, a[pos..]).0 == col[r]
    ensures a[pos + ReadValue(t, a[pos..]).1..] == ArenaOf(t, EntriesOf(col, r + 1), r)
  {
    assert EntriesOf(col, r)[1..] == EntriesOf(col, r + 1);
    ValueReads(t, col[r], a[pos..], ArenaOf(t, EntriesOf(col, r + 1), r));
    DropTwice(a, pos, ReadValue(t, a[pos..]).1);
  }

  /** The value of row r, and on to the next. */
  method ReadRow(t: ColType, ghost col: seq<Value>, a: seq<Byte>, n: nat, r: nat, pos0: nat) returns (v: Value, pos: nat, next: int)
    requires n == |col| && r < n && !col[r].Null? && ReadTo(t, col, a, r, pos0, r) && AllOf(col, t)
    ensures v == col[r] && ReadTo(t, col, a, r + 1, pos, next)
  {
    assert IsLeft(t, EntriesOf(col, r), a, pos0) && IsOf(col[r], t);
    ReadCell(t, col, a, r, pos0);
    var k;
    v, k := ReadValue(t, a[pos0..]).0, ReadValue(t, a[pos0..]).1;
    pos, next := Advance(t, col, a, n, r + 1, pos0 + k, r);
  }

  const BY_COLUMN_ROWS := 512

  /** encode: the column's n values, NULL where there is none, handed on rows at a
      time; every value of the arena is within them. */
  method Encode(t: ColType, a: seq<Byte>, n: nat, rows: nat, ghost col: seq<Value>) returns (ok: bool, out: seq<Value>)
    requires rows > 0 && n == |col| && AllOf(col, t) && a == ArenaOf(t, EntriesOf(col, 0), -1)
    ensures ok && out == col
  {
    out := [];
    assert a[0..] == a;
    var pos, next := Advance(t, col, a, n, 0, 0, -1);
    var start := 0;
    while start < n
      invariant start <= n + rows
      invariant var r := if start < n then start else n; ReadTo(t, col, a, r, pos, next) && out == col[..r]
    {
      var end := if start + rows < n then start + rows else n;
      var vals: seq<Value>;
      vals, pos, next := EncodeChunk(t, a, n, col, start, end, pos, next);
      assert col[..end] == col[..start] + col[start..end];
      out := out + vals;
      start := start + rows;
    }
    assert IsLeft(t, EntriesOf(col, n), a, pos) && col[..n] == col;
    ok := next == n;
  }

  /** The values of rows start to end. */
  method EncodeChunk(t: ColType, a: seq<Byte>, n: nat, ghost col: seq<Value>, start: nat, end: nat, pos0: nat, next0: int)
    returns (vals: seq<Value>, pos: nat, next: int)
    requires n == |col| && AllOf(col, t) && start <= end <= n
    requires ReadTo(t, col, a, start, pos0, next0)
    ensures ReadTo(t, col, a, end, pos, next) && vals == col[start..end]
  {
    vals, pos, next := [], pos0, next0;
    for r := start to end
      invariant ReadTo(t, col, a, r, pos, next) && vals == col[start..r]
    {
      ReadNull(t, col, a, r, pos, next);
      assert col[start..r + 1] == col[start..r] + [col[r]];
      if r != next {
        vals := vals + [Null];
        continue;
      }
      var v;
      v, pos, next := ReadRow(t, col, a, n, r, pos);
      vals := vals + [v];
    }
  }

  // ----- the file

  /** A column's values in the open group: their bytes, and the row of the last, -1
      for none. */
  datatype ColValues = ColValues(arena: seq<Byte>, last: int)

  ghost predicate Holds(t: ColType, col: seq<Value>, c: ColValues) {
    c.arena == ArenaOf(t, EntriesOf(col, 0), -1) && c.last == LastRow(EntriesOf(col, 0), -1)
  }

  /** The values with one more, at row i: the rows since the last, then the value. */
  function Added(t: ColType, c: ColValues, v: Value, i: nat): ColValues
    requires c.last < i
  {
    ColValues(c.arena + (Uvarint(i - c.last) + ValueBytes(t, v)), i)
  }

  /** A row's cell more. */
  lemma {:induction false} HoldsMore(t: ColType, col: seq<Value>, c: ColValues, v: Value)
    requires Holds(t, col, c) && AllOf(col, t)
    ensures c.last < |col|
    ensures v.Null? ==> Holds(t, col + [v], c)
    ensures !v.Null? ==> Holds(t, col + [v], Added(t, c, v, |col|))
  {
    EntryRows(col, 0);
    EntriesMore(col, v, 0);
    var es := EntriesOf(col, 0);
    assert es + [] == es;
    ArenaMore(t, es, -1, Entry(|col|, v));
  }

  function Column(rows: seq<seq<Value>>, j: nat): seq<Value>
    requires forall i :: 0 <= i < |rows| ==> j < |rows[i]|
  {
    seq(|rows|, i requires 0 <= i < |rows| => rows[i][j])
  }

  /** Rows, column by column. */
  function Columns(types: seq<ColType>, rows: seq<seq<Value>>): seq<seq<Value>>
    requires forall i :: 0 <= i < |rows| ==> |rows[i]| == |types|
  {
    seq(|types|, j requires 0 <= j < |types| => Column(rows, j))
  }

  ghost predicate RowOk(types: seq<ColType>, r: seq<Value>) {
    |r| == |types| && forall j {:trigger IsOf(r[j], types[j])} :: 0 <= j < |r| ==> IsOf(r[j], types[j])
  }

  ghost predicate RowsOk(types: seq<ColType>, rows: seq<seq<Value>>) {
    forall i {:trigger RowOk(types, rows[i])} {:trigger rows[i]} :: 0 <= i < |rows| ==> RowOk(types, rows[i])
  }

  /** The group's columns from j on hold rows. */
  ghost predicate Hold(types: seq<ColType>, rows: seq<seq<Value>>, group: seq<ColValues>, lo: nat, hi: nat)
    requires RowsOk(types, rows) && hi <= |types| == |group|
  {
    forall j {:trigger HoldsColumn(types, rows, group, j)} :: lo <= j < hi ==> HoldsColumn(types, rows, group, j)
  }

  ghost predicate HoldsColumn(types: seq<ColType>, rows: seq<seq<Value>>, group: seq<ColValues>, j: nat)
    requires RowsOk(types, rows) && j < |types| == |group|
  {
    Holds(types[j], Column(rows, j), group[j])
  }

  function Held(group: seq<ColValues>): nat {
    if group == [] then 0 else |group[0].arena| + Held(group[1..])
  }

  lemma {:induction false} HeldUpdate(group: seq<ColValues>, j: nat, c: ColValues)
    requires j < |group|
    ensures Held(group[j := c]) == Held(group) - |group[j].arena| + |c.arena|
  {
    if j > 0 {
      assert group[j := c][1..] == group[1..][j - 1 := c];
      HeldUpdate(group[1..], j - 1, c);
    } else {
      assert group[j := c][1..] == group[1..];
    }
  }

  lemma {:induction false} ColumnIs(types: seq<ColType>, rows: seq<seq<Value>>, j: nat)
    requires RowsOk(types, rows) && j < |types|
    ensures AllOf(Column(rows, j), types[j])
  {
    forall i | 0 <= i < |rows|
      ensures IsOf(rows[i][j], types[j])
    {
      assert RowOk(types, rows[i]);
    }
  }

  lemma {:induction false} ColumnMore(types: seq<ColType>, rows: seq<seq<Value>>, r: seq<Value>, j: nat)
    requires RowsOk(types, rows) && RowOk(types, r) && j < |types|
    ensures RowsOk(types, rows + [r]) && Column(rows + [r], j) == Column(rows, j) + [r[j]]
  {
  }

  class WideFile {
    const types: seq<ColType>
    const maxGroups: nat                     // MaxRowGroups
    const writeFails: nat -> bool            // whether the n-th write of a column fails
    var writes: nat
    var group: seq<ColValues>                // the open group's values, by column
    var held: nat                            // bytes in its arenas
    var rowGroups: seq<seq<seq<Value>>>      // the written groups, each its columns' values
    var failed: bool
    ghost var rows: seq<seq<Value>>          // the open group's rows

    ghost predicate Valid()
      reads this
    {
      && |group| == |types| && RowsOk(types, rows)
      && Hold(types, rows, group, 0, |types|)
      && held == Held(group)
    }

    constructor (types: seq<ColType>, maxGroups: nat, writeFails: nat -> bool)
      ensures Valid() && rows == [] && rowGroups == [] && !failed && this.types == types
      ensures this.maxGroups == maxGroups && this.writeFails == writeFails
    {
      this.types, this.maxGroups, this.writeFails := types, maxGroups, writeFails;
      failed, writes := false, 0;
      group := seq(|types|, i => ColValues([], -1));
      held, rowGroups, rows := 0, [], [];
      new;
      NothingHeld(group);
    }

    static lemma {:induction false} NothingHeld(group: seq<ColValues>)
      requires forall j :: 0 <= j < |group| ==> group[j] == ColValues([], -1)
      ensures Held(group) == 0
    {
      if group != [] { NothingHeld(group[1..]); }
    }

    /** A value of column j, the one at row i, after the column's others. */
    method AddValue(j: nat, i: nat, v: Value, ghost col: seq<Value>)
      requires j < |types| == |group| && held == Held(group)
      requires i == |col| && AllOf(col, types[j]) && Holds(types[j], col, group[j])
      modifies `group, `held
      ensures |group| == |types| && group == old(group)[j := group[j]] && held == Held(group)
      ensures Holds(types[j], col + [v], group[j])
    {
      var c := group[j];
      HoldsMore(types[j], col, c, v);
      if !v.Null? {
        var d := Added(types[j], c, v, i);
        HeldUpdate(group, j, d);
        group := group[j := d];
        held := held + (|d.arena| - |c.arena|);
      }
    }

    /** add: row i of the open group's values, each after its column's others. */
    method Add(i: nat, r: seq<Value>)
      requires Valid() && i == |rows| && RowOk(types, r)
      modifies this
      ensures Valid() && rows == old(rows) + [r] && rowGroups == old(rowGroups) && failed == old(failed)
    {
      ghost var more := rows + [r];
      ghost var began := rows;
      assert RowsOk(types, more);
      for j := 0 to |r|
        invariant rows == began && |group| == |types| && held == Held(group)
        invariant Hold(types, more, group, 0, j) && Hold(types, began, group, j, |types|)
        invariant rowGroups == old(rowGroups) && failed == old(failed)
      {
        assert HoldsColumn(types, began, group, j);
        ColumnMore(types, began, r, j);
        ColumnIs(types, began, j);
        ghost var was := group;
        AddValue(j, i, r[j], Column(began, j));
        HoldUpdate(types, began, more, was, group, j);
      }
      rows := more;
    }

    static lemma {:induction false} HoldUpdate(types: seq<ColType>, rows: seq<seq<Value>>, more: seq<seq<Value>>,
                                               was: seq<ColValues>, group: seq<ColValues>, j: nat)
      requires RowsOk(types, rows) && RowsOk(types, more) && |group| == |was| == |types| && j < |types|
      requires Hold(types, more, was, 0, j) && Hold(types, rows, was, j, |types|)
      requires HoldsColumn(types, more, group, j) && group == was[j := group[j]]
      ensures Hold(types, more, group, 0, j + 1) && Hold(types, rows, group, j + 1, |types|)
    {
      forall k | 0 <= k < j + 1
        ensures HoldsColumn(types, more, group, k)
      {
        if k < j { assert HoldsColumn(types, more, was, k); }
      }
      forall k | j + 1 <= k < |types|
        ensures HoldsColumn(types, rows, group, k)
      {
        assert HoldsColumn(types, rows, was, k);
      }
    }

    /** No write of a column of the next group fails. */
    ghost predicate Writes()
      reads this
    {
      forall w :: writes <= w < writes + |types| ==> !writeFails(w)
    }

    /** writeGroup: the open group's n rows, column by column. Nothing fails it but a
        write, a file of as many groups as one may have, or an earlier failure. */
    method WriteGroup(n: nat) returns (ok: bool)
      requires Valid() && n == |rows|
      modifies this
      ensures !old(failed) && n == 0 ==> ok && Valid() && rows == old(rows) && rowGroups == old(rowGroups)
      ensures ok && n > 0 ==> Valid() && rows == [] && held == 0 && |rowGroups| == |old(rowGroups)| + 1
      ensures ok && n > 0 ==> rowGroups == old(rowGroups) + [Columns(types, old(rows))]
      ensures ok <==> !old(failed) && (n == 0 || (|old(rowGroups)| != maxGroups && old(Writes())))
      ensures !ok <==> failed
    {
      if failed { return false; }
      if n == 0 { return true; }
      if |rowGroups| == maxGroups {
        failed := true;
        return false;
      }
      var columns: seq<seq<Value>> := [];
      for j := 0 to |types|
        invariant rows == old(rows) && rowGroups == old(rowGroups) && !failed
        invariant writes == old(writes) + j && forall w :: old(writes) <= w < writes ==> !writeFails(w)
        invariant Written(j, columns)
      {
        ok, columns := WriteColumn(j, n, columns);
        if !ok {
          assert !old(Writes());
          return;
        }
      }
      rowGroups := rowGroups + [columns];
      assert columns == Columns(types, rows);
      held := 0;
      rows := [];
      Emptied(types, group);
      ok := true;
    }

    /** The first j columns are written and let go, the others still held. */
    ghost predicate Written(j: nat, columns: seq<seq<Value>>)
      reads this
    {
      && j <= |types| == |group| && RowsOk(types, rows)
      && Hold(types, rows, group, j, |types|) && Hold(types, [], group, 0, j)
      && |columns| == j && forall k :: 0 <= k < j ==> columns[k] == Column(rows, k)
    }

    /** A column's chunk encoded and written. */
    method WriteColumn(j: nat, n: nat, columns0: seq<seq<Value>>) returns (ok: bool, columns: seq<seq<Value>>)
      requires j < |types| && n == |rows| && Written(j, columns0) && !failed
      modifies `group, `writes, `failed
      ensures writes == old(writes) + 1 && (ok <==> !writeFails(old(writes))) && failed == !ok
      ensures ok ==> Written(j + 1, columns)
    {
      columns := columns0;
      assert HoldsColumn(types, rows, group, j);
      ColumnIs(types, rows, j);
      var encoded, vals := Encode(types[j], group[j].arena, n, BY_COLUMN_ROWS, Column(rows, j));
      assert encoded;
      writes := writes + 1;
      ok := !writeFails(writes - 1);
      if !ok {
        failed := true;
        return;
      }
      columns := columns + [vals];
      ghost var was := group;
      group := group[j := ColValues([], -1)];
      HoldUpdate(types, rows, [], was, group, j);
    }

    static lemma {:induction false} Emptied(types: seq<ColType>, group: seq<ColValues>)
      requires |group| == |types| && Hold(types, [], group, 0, |types|)
      ensures Held(group) == 0
    {
      forall j | 0 <= j < |types|
        ensures group[j] == ColValues([], -1)
      {
        assert Column([], j) == [] && EntriesOf([], 0) == [];
        assert HoldsColumn(types, [], group, j);
      }
      NothingHeld(group);
    }
  }
}
