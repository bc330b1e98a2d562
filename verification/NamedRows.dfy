/** Rows as a Parquet file holds them, by column: when files of columns named log
    by log merge to what one log's file would hold. */
module NamedRows {
  import opened Rows
  import opened StableSort
  import opened FirstRows
  import opened Segments
  import opened Columns

  // ----- rows changed one by one, their ids and keys kept

  ghost predicate KeepsKeys(f: Row -> Row) {
    forall r {:trigger f(r)} :: f(r).id == r.id && KeyOf(f(r)) == KeyOf(r)
  }

  ghost function Mapped(f: Row -> Row, s: seq<Row>): (t: seq<Row>)
    ensures |t| == |s| && forall i :: 0 <= i < |s| ==> t[i] == f(s[i])
  {
    seq(|s|, i requires 0 <= i < |s| => f(s[i]))
  }

  lemma {:induction false} MappedHead(f: Row -> Row, s: seq<Row>)
    requires s != []
    ensures Mapped(f, s) == [f(s[0])] + Mapped(f, s[1..])
  {
  }

  lemma {:induction false} MappedConcat(f: Row -> Row, a: seq<Row>, b: seq<Row>)
    ensures Mapped(f, a + b) == Mapped(f, a) + Mapped(f, b)
  {
  }

  lemma {:induction false} FirstOfMapped(f: Row -> Row, seen: set<Id>, s: seq<Row>)
    requires KeepsKeys(f)
    ensures First(seen, Mapped(f, s)) == Mapped(f, First(seen, s))
    decreases s
  {
    if s != [] {
      MappedHead(f, s);
      assert Mapped(f, s)[1..] == Mapped(f, s[1..]);
      if s[0].id in seen {
        FirstOfMapped(f, seen, s[1..]);
      } else {
        FirstOfMapped(f, seen + {s[0].id}, s[1..]);
        MappedConcat(f, [s[0]], First(seen + {s[0].id}, s[1..]));
      }
    }
  }

  lemma {:induction false} InsertMapped(f: Row -> Row, x: Row, s: seq<Row>)
    requires KeepsKeys(f)
    ensures Insert(f(x), Mapped(f, s)) == Mapped(f, Insert(x, s))
  {
    if s != [] && !Le(KeyOf(x), KeyOf(s[0])) {
      InsertMapped(f, x, s[1..]);
      assert Mapped(f, s)[1..] == Mapped(f, s[1..]);
    }
  }

  lemma {:induction false} SortOfMapped(f: Row -> Row, s: seq<Row>)
    requires KeepsKeys(f)
    ensures Sort(Mapped(f, s)) == Mapped(f, Sort(s))
  {
    if s != [] {
      assert Mapped(f, s)[1..] == Mapped(f, s[1..]);
      SortOfMapped(f, s[1..]);
      InsertMapped(f, s[0], Sort(s[1..]));
    }
  }

  lemma {:induction false} DumpOfMapped(f: Row -> Row, s: seq<Row>)
    requires KeepsKeys(f)
    ensures DumpOf(Mapped(f, s)) == Mapped(f, DumpOf(s))
  {
    FirstOfMapped(f, {}, s);
    SortOfMapped(f, First({}, s));
  }

  // ----- the columns' names

  ghost predicate HasKey(cols: seq<Column>, k: string) {
    exists i :: 0 <= i < |cols| && cols[i].key == k
  }

  /** The name of key k's column. */
  ghost function NameOf(cols: seq<Column>, k: string): string {
    if HasKey(cols, k) then
      var i :| 0 <= i < |cols| && cols[i].key == k;
      cols[i].name
    else ""
  }

  ghost predicate DistinctKeys(cols: seq<Column>) {
    forall i, j :: 0 <= i < j < |cols| ==> cols[i].key != cols[j].key
  }

  /** Each key has one column, each column its own name. */
  ghost predicate ColumnsOk(lower: char -> char, cols: seq<Column>) {
    DistinctKeys(cols) && DistinctNames(lower, cols)
  }

  lemma {:induction false} KeyColumnsOk(lower: char -> char, fields: seq<Field>, keys: set<string>, cols: seq<Column>)
    requires FieldsOk(lower, fields) && AreKeyColumns(lower, fields, keys, cols)
    ensures ColumnsOk(lower, cols)
    ensures forall k :: HasKey(cols, k) <==> k in keys || IsField(fields, k)
    ensures forall f :: 0 <= f < |fields| ==> NameOf(cols, fields[f].name) == fields[f].name
  {
    var rest :| IsRest(fields, keys, rest) && AreColumns(lower, fields, rest, cols);
    forall i | 0 <= i < |cols|
      ensures cols[i].key in keys || IsField(fields, cols[i].key)
      ensures forall j :: 0 <= j < i ==> cols[j].key != cols[i].key
    {
      KeyOfColumn(lower, fields, keys, rest, cols, i);
    }
    forall k | k in keys || IsField(fields, k)
      ensures HasKey(cols, k)
    {
      if IsField(fields, k) {
        var f :| 0 <= f < |fields| && fields[f].name == k;
        assert cols[f].key == k;
      } else {
        assert k in rest;
        var r :| 0 <= r < |rest| && rest[r] == k;
        var i := KeyHasColumn(lower, fields, rest, cols, r);
      }
    }
    forall f | 0 <= f < |fields|
      ensures NameOf(cols, fields[f].name) == fields[f].name
    {
      assert cols[f].key == fields[f].name;
      NameIs(lower, cols, f);
    }
  }

  lemma {:induction false} NameIs(lower: char -> char, cols: seq<Column>, i: nat)
    requires ColumnsOk(lower, cols) && i < |cols|
    ensures HasKey(cols, cols[i].key) && NameOf(cols, cols[i].key) == cols[i].name
  {
  }

  lemma {:induction false} NamesDiffer(lower: char -> char, cols: seq<Column>, j: string, k: string)
    requires ColumnsOk(lower, cols) && HasKey(cols, j) && HasKey(cols, k) && j != k
    ensures Lower(lower, NameOf(cols, j)) != Lower(lower, NameOf(cols, k))
  {
    var x :| 0 <= x < |cols| && cols[x].key == j;
    var y :| 0 <= y < |cols| && cols[y].key == k;
    NameIs(lower, cols, x);
    NameIs(lower, cols, y);
  }

  /** The name of a key that is no field is its text, or that with a suffix. */
  lemma {:induction false} NameIsSuffixed(lower: char -> char, fields: seq<Field>, keys: set<string>, cols: seq<Column>, k: string) returns (n: nat)
    requires FieldsOk(lower, fields) && AreKeyColumns(lower, fields, keys, cols) && k in keys && !IsField(fields, k)
    ensures NameOf(cols, k) == Suffixed(k, n)
  {
    KeyColumnsOk(lower, fields, keys, cols);
    var rest :| IsRest(fields, keys, rest) && AreColumns(lower, fields, rest, cols);
    assert k in rest;
    var r :| 0 <= r < |rest| && rest[r] == k;
    var i := KeyHasColumn(lower, fields, rest, cols, r);
    NameIs(lower, cols, i);
    assert NameOk(lower, cols[..i], cols[i]);
    n :| IsFirstFree(lower, cols[..i], cols[i], n);
  }

  // ----- rows by column

  ghost predicate IsNamed(lower: char -> char, cols: seq<Column>, n: string, k: string) {
    Lower(lower, NameOf(cols, k)) == n
  }

  ghost function CellNames(lower: char -> char, cols: seq<Column>, keys: set<string>): set<string> {
    set k | k in keys :: Lower(lower, NameOf(cols, k))
  }

  /** The cells of a line, by the column each key is read into, but for case. */
  ghost function Cells(lower: char -> char, cols: seq<Column>, cells: map<string, Cell>): map<string, Cell> {
    map n | n in CellNames(lower, cols, cells.Keys) ::
      (assert exists k :: k in cells && IsNamed(lower, cols, n, k);
       var k :| k in cells && IsNamed(lower, cols, n, k); cells[k])
  }

  ghost function Named(lower: char -> char, cols: seq<Column>, r: Row): Row {
    r.(cells := Cells(lower, cols, r.cells))
  }

  ghost function Namer(lower: char -> char, cols: seq<Column>): (f: Row -> Row)
    ensures KeepsKeys(f)
  {
    r => Named(lower, cols, r)
  }

  lemma {:induction false} CellNamed(lower: char -> char, cols: seq<Column>, cells: map<string, Cell>, k: string)
    requires ColumnsOk(lower, cols) && k in cells && forall j :: j in cells ==> HasKey(cols, j)
    ensures Lower(lower, NameOf(cols, k)) in Cells(lower, cols, cells)
    ensures Cells(lower, cols, cells)[Lower(lower, NameOf(cols, k))] == cells[k]
  {
    var n := Lower(lower, NameOf(cols, k));
    forall j | j in cells && IsNamed(lower, cols, n, j)
      ensures j == k
    {
      if j != k { NamesDiffer(lower, cols, j, k); }
    }
    assert IsNamed(lower, cols, n, k);
  }

  /** Columns that name a line's keys alike hold its cells alike. */
  lemma {:induction false} SameCells(lower: char -> char, a: seq<Column>, b: seq<Column>, cells: map<string, Cell>)
    requires ColumnsOk(lower, a) && ColumnsOk(lower, b)
    requires forall k :: k in cells ==> HasKey(a, k) && HasKey(b, k) && NameOf(a, k) == NameOf(b, k)
    ensures Cells(lower, a, cells) == Cells(lower, b, cells)
  {
    var x, y := Cells(lower, a, cells), Cells(lower, b, cells);
    assert x.Keys == y.Keys;
    forall n | n in x
      ensures x[n] == y[n]
    {
      var k :| k in cells && Lower(lower, NameOf(a, k)) == n;
      CellNamed(lower, a, cells, k);
      CellNamed(lower, b, cells, k);
    }
  }

  // ----- files

  /** A file: its columns' names as spelled, and its rows, a cell by its column's
      name but for case. */
  datatype NamedFile = NamedFile(names: seq<string>, rows: seq<Row>)

  /** The same columns, in whatever order, and the same rows. */
  ghost predicate SameFile(a: NamedFile, b: NamedFile) {
    a.rows == b.rows && forall n :: n in a.names <==> n in b.names
  }

  function Names(cols: seq<Column>): seq<string> {
    seq(|cols|, i requires 0 <= i < |cols| => cols[i].name)
  }

  /** What a dump of log writes. */
  ghost function DumpFile(lower: char -> char, cols: seq<Column>, log: seq<Row>): NamedFile {
    NamedFile(Names(cols), Mapped(Namer(lower, cols), DumpOf(log)))
  }

  ghost function DumpFiles(lower: char -> char, cols: seq<seq<Column>>, logs: seq<seq<Row>>): seq<NamedFile>
    requires |cols| == |logs|
  {
    seq(|logs|, i requires 0 <= i < |logs| => DumpFile(lower, cols[i], logs[i]))
  }

  /** A name but for case among names. */
  predicate IsKnown(lower: char -> char, names: seq<string>, n: string) {
    exists i :: 0 <= i < |names| && Lower(lower, names[i]) == Lower(lower, n)
  }

  /** The names of a file added to an output's, the first spelling kept. */
  function Union(lower: char -> char, names: seq<string>, more: seq<string>): seq<string>
    decreases more
  {
    if more == [] then names
    else Union(lower, if IsKnown(lower, names, more[0]) then names else names + [more[0]], more[1..])
  }

  function UnionOfAll(lower: char -> char, names: seq<string>, files: seq<seq<string>>): seq<string>
    decreases files
  {
    if files == [] then names else UnionOfAll(lower, Union(lower, names, files[0]), files[1..])
  }

  function FieldNames(fields: seq<Field>): seq<string> {
    seq(|fields|, i requires 0 <= i < |fields| => fields[i].name)
  }

  /** The columns of a merge: the files', then the fields no file has. */
  function MergedNames(lower: char -> char, fields: seq<Field>, files: seq<seq<string>>): seq<string> {
    Union(lower, UnionOfAll(lower, [], files), FieldNames(fields))
  }

  ghost function NamesOfFiles(files: seq<NamedFile>): seq<seq<string>> {
    seq(|files|, i requires 0 <= i < |files| => files[i].names)
  }

  ghost function RowsOfFiles(files: seq<NamedFile>): seq<seq<Row>> {
    seq(|files|, i requires 0 <= i < |files| => files[i].rows)
  }

  /** What a merge of files writes: a cell lands in the column of its name, but for
      case. */
  ghost function MergeFile(lower: char -> char, fields: seq<Field>, files: seq<NamedFile>): NamedFile {
    NamedFile(MergedNames(lower, fields, NamesOfFiles(files)), MergeOf(RowsOfFiles(files)))
  }

  // ----- the columns of a merge, as it lists them

  ghost predicate ByNameOk(lower: char -> char, names: seq<string>, byName: map<string, nat>) {
    && (forall i :: 0 <= i < |names| ==> Lower(lower, names[i]) in byName && byName[Lower(lower, names[i])] == i)
    && (forall n :: n in byName ==> byName[n] < |names| && Lower(lower, names[byName[n]]) == n)
  }

  predicate NamesApart(lower: char -> char, names: seq<string>) {
    forall i, j :: 0 <= i < j < |names| ==> Lower(lower, names[i]) != Lower(lower, names[j])
  }

  /** outs are the output columns of a file's first ones, each of the same name but
      for case. */
  ghost predicate OutsOk(lower: char -> char, names: seq<string>, input: seq<string>, outs: seq<nat>) {
    |outs| <= |input| && forall i :: 0 <= i < |outs| ==> outs[i] < |names| && Lower(lower, names[outs[i]]) == Lower(lower, input[i])
  }

  lemma {:induction false} UnionNext(lower: char -> char, names: seq<string>, more: seq<string>, i: nat)
    requires i < |more|
    ensures Union(lower, names, more[..i + 1]) ==
            var u := Union(lower, names, more[..i]); if IsKnown(lower, u, more[i]) then u else u + [more[i]]
    decreases i
  {
    if i > 0 {
      var first := if IsKnown(lower, names, more[0]) then names else names + [more[0]];
      UnionNext(lower, first, more[1..], i - 1);
      assert more[..i + 1][1..] == more[1..][..i] && more[..i][1..] == more[1..][..i - 1];
    } else {
      assert more[..1][1..] == [] && more[..0] == [];
    }
  }

  /** A name's output column, added when no file before had it. */
  method AddColumn(lower: char -> char, names0: seq<string>, byName0: map<string, nat>, n: string)
    returns (names: seq<string>, byName: map<string, nat>, out: nat)
    requires ByNameOk(lower, names0, byName0)
    ensures ByNameOk(lower, names, byName) && names0 <= names
    ensures names == if IsKnown(lower, names0, n) then names0 else names0 + [n]
    ensures out < |names| && Lower(lower, names[out]) == Lower(lower, n)
  {
    names, byName := names0, byName0;
    var l := Lower(lower, n);
    if l in byName {
      assert IsKnown(lower, names, n);
    } else {
      assert !IsKnown(lower, names, n);
      byName := byName[l := |names|];
      names := names + [n];
    }
    out := byName[l];
  }

  ghost predicate SeenTo(lower: char -> char, input: seq<string>, i: nat, seen: set<string>)
    requires i <= |input|
  {
    && NamesApart(lower, input[..i])
    && forall n {:trigger n in seen} :: n in seen <==> exists j :: 0 <= j < i && Lower(lower, input[j]) == n
  }

  lemma {:induction false} SeenNext(lower: char -> char, input: seq<string>, i: nat, seen: set<string>)
    requires i < |input| && SeenTo(lower, input, i, seen)
    ensures Lower(lower, input[i]) in seen ==> !NamesApart(lower, input)
    ensures Lower(lower, input[i]) !in seen ==> SeenTo(lower, input, i + 1, seen + {Lower(lower, input[i])})
  {
    assert input[..i + 1] == input[..i] + [input[i]];
    assert forall j :: 0 <= j < i ==> input[..i][j] == input[j] == input[..i + 1][j];
  }

  lemma {:induction false} OutsMore(lower: char -> char, names: seq<string>, more: seq<string>, input: seq<string>, outs: seq<nat>, out: nat)
    requires OutsOk(lower, names, input, outs) && names <= more && |outs| < |input|
    requires out < |more| && Lower(lower, more[out]) == Lower(lower, input[|outs|])
    ensures OutsOk(lower, more, input, outs + [out])
  {
    assert forall i :: 0 <= i < |names| ==> more[i] == names[i];
  }

  /** The first i columns of a file added to those there were. */
  ghost predicate AddedTo(lower: char -> char, names0: seq<string>, input: seq<string>, i: nat,
                          names: seq<string>, byName: map<string, nat>, outs: seq<nat>)
    requires i <= |input|
  {
    && ByNameOk(lower, names, byName) && names == Union(lower, names0, input[..i]) && names0 <= names
    && |outs| == i && OutsOk(lower, names, input, outs)
  }

  method AddNext(lower: char -> char, ghost names0: seq<string>, input: seq<string>, i: nat, names1: seq<string>, byName1: map<string, nat>, outs1: seq<nat>)
    returns (names: seq<string>, byName: map<string, nat>, outs: seq<nat>)
    requires i < |input| && AddedTo(lower, names0, input, i, names1, byName1, outs1)
    ensures AddedTo(lower, names0, input, i + 1, names, byName, outs)
  {
    UnionNext(lower, names0, input, i);
    var out;
    names, byName, out := AddColumn(lower, names1, byName1, input[i]);
    OutsMore(lower, names1, names, input, outs1, out);
    outs := outs1 + [out];
  }

  /** addColumns: a file of two columns equal but for case fails. */
  method AddColumns(lower: char -> char, names0: seq<string>, byName0: map<string, nat>, input: seq<string>)
    returns (ok: bool, names: seq<string>, byName: map<string, nat>, outs: seq<nat>)
    requires ByNameOk(lower, names0, byName0)
    ensures ok <==> NamesApart(lower, input)
    ensures ok ==> ByNameOk(lower, names, byName) && names == Union(lower, names0, input) && names0 <= names
    ensures ok ==> |outs| == |input| && OutsOk(lower, names, input, outs)
  {
    names, byName, outs := names0, byName0, [];
    var seen: set<string> := {};
    assert input[..0] == [];
    for i := 0 to |input|
      invariant AddedTo(lower, names0, input, i, names, byName, outs)
      invariant SeenTo(lower, input, i, seen)
    {
      SeenNext(lower, input, i, seen);
      if Lower(lower, input[i]) in seen {
        return false, names, byName, outs;
      }
      seen := seen + {Lower(lower, input[i])};
      names, byName, outs := AddNext(lower, names0, input, i, names, byName, outs);
    }
    assert input[..|input|] == input;
    ok := true;
  }

  lemma {:induction false} UnionOfAllNext(lower: char -> char, names: seq<string>, files: seq<seq<string>>, i: nat)
    requires i < |files|
    ensures UnionOfAll(lower, names, files[..i + 1]) == Union(lower, UnionOfAll(lower, names, files[..i]), files[i])
    decreases i
  {
    if i > 0 {
      UnionOfAllNext(lower, Union(lower, names, files[0]), files[1..], i - 1);
      assert files[..i + 1][1..] == files[1..][..i] && files[..i][1..] == files[1..][..i - 1];
    } else {
      assert files[..1][1..] == [] && files[..0] == [];
    }
  }

  ghost predicate AllOuts(lower: char -> char, names: seq<string>, inputs: seq<seq<string>>, outs: seq<seq<nat>>) {
    |outs| <= |inputs| && forall i {:trigger outs[i]} :: 0 <= i < |outs| ==> |outs[i]| == |inputs[i]| && OutsOk(lower, names, inputs[i], outs[i])
  }

  lemma {:induction false} AllOutsMore(lower: char -> char, names: seq<string>, more: seq<string>, inputs: seq<seq<string>>, outs: seq<seq<nat>>)
    requires AllOuts(lower, names, inputs, outs) && names <= more
    ensures AllOuts(lower, more, inputs, outs)
  {
    forall i | 0 <= i < |outs|
      ensures OutsOk(lower, more, inputs[i], outs[i])
    {
      assert OutsOk(lower, names, inputs[i], outs[i]);
    }
  }

  /** The columns of the first i files. */
  ghost predicate JoinedTo(lower: char -> char, inputs: seq<seq<string>>, i: nat, names: seq<string>, byName: map<string, nat>, outs: seq<seq<nat>>)
    requires i <= |inputs|
  {
    && ByNameOk(lower, names, byName) && names == UnionOfAll(lower, [], inputs[..i])
    && (forall j {:trigger inputs[j]} :: 0 <= j < i ==> NamesApart(lower, inputs[j]))
    && |outs| == i && AllOuts(lower, names, inputs, outs)
  }

  method JoinNext(lower: char -> char, inputs: seq<seq<string>>, i: nat, names0: seq<string>, byName0: map<string, nat>, outs0: seq<seq<nat>>)
    returns (ok: bool, names: seq<string>, byName: map<string, nat>, outs: seq<seq<nat>>)
    requires i < |inputs| && JoinedTo(lower, inputs, i, names0, byName0, outs0)
    ensures ok <==> NamesApart(lower, inputs[i])
    ensures ok ==> JoinedTo(lower, inputs, i + 1, names, byName, outs)
  {
    UnionOfAllNext(lower, [], inputs, i);
    var one;
    outs := outs0;
    ok, names, byName, one := AddColumns(lower, names0, byName0, inputs[i]);
    if ok {
      AllOutsMore(lower, names0, names, inputs, outs);
      outs := outs + [one];
    }
  }

  /** openMerge: the files' columns, in order of their first appearance, then the
      fields none has; where each file's columns land. It fails exactly on a file of
      two columns equal but for case. */
  method MergeColumns(lower: char -> char, fields: seq<Field>, inputs: seq<seq<string>>)
    returns (ok: bool, names: seq<string>, outs: seq<seq<nat>>)
    ensures ok <==> forall i :: 0 <= i < |inputs| ==> NamesApart(lower, inputs[i])
    ensures ok ==> names == MergedNames(lower, fields, inputs) && NamesApart(lower, names)
    ensures ok ==> |outs| == |inputs| && AllOuts(lower, names, inputs, outs)
  {
    names, outs := [], [];
    var byName: map<string, nat> := map[];
    assert inputs[..0] == [];
    for i := 0 to |inputs|
      invariant JoinedTo(lower, inputs, i, names, byName, outs)
    {
      ok, names, byName, outs := JoinNext(lower, inputs, i, names, byName, outs);
      if !ok { return; }
    }
    assert inputs[..|inputs|] == inputs;
    ghost var filed := names;
    names := AddFields(lower, fields, names, byName);
    AllOutsMore(lower, filed, names, inputs, outs);
    ok := true;
  }

  /** The fields no file has. */
  method AddFields(lower: char -> char, fields: seq<Field>, names0: seq<string>, byName0: map<string, nat>) returns (names: seq<string>)
    requires ByNameOk(lower, names0, byName0)
    ensures names == Union(lower, names0, FieldNames(fields)) && names0 <= names && NamesApart(lower, names)
  {
    var byName;
    names, byName := names0, byName0;
    var all := FieldNames(fields);
    assert all[..0] == [];
    for i := 0 to |all|
      invariant ByNameOk(lower, names, byName) && names == Union(lower, names0, all[..i]) && names0 <= names
    {
      UnionNext(lower, names0, all, i);
      var out;
      names, byName, out := AddColumn(lower, names, byName, all[i]);
    }
    assert all[..|all|] == all;
  }
}
