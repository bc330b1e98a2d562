/** Where one log ends and the next begins shows in the merged file exactly when
    some key's column is named otherwise in its own log than among all keys. */
module LogNames {
  import opened Rows
  import opened StableSort
  import opened FirstRows
  import opened Segments
  import opened Columns
  import opened NamedRows

  /** The keys of the lines of each log, and of all. */
  function AllKeys(keys: seq<set<string>>): set<string> {
    set i, k | 0 <= i < |keys| && k in keys[i] :: k
  }

  /** The keys of a log's lines that are no field. */
  ghost function KeysOf(fields: seq<Field>, log: seq<Row>): set<string> {
    set r, k | r in log && k in r.cells && !IsField(fields, k) :: k
  }

  /** Logs with lines, which have just these keys beside the fields. */
  ghost predicate AreLogs(fields: seq<Field>, logs: seq<seq<Row>>, keys: seq<set<string>>) {
    |logs| == |keys| && forall i {:trigger logs[i]} :: 0 <= i < |logs| ==> logs[i] != [] && KeysOf(fields, logs[i]) == keys[i]
  }

  /** Logs whose lines have no other keys. */
  ghost predicate AreWithin(fields: seq<Field>, logs: seq<seq<Row>>, keys: seq<set<string>>) {
    |logs| == |keys| && forall i, r, k :: 0 <= i < |logs| && r in logs[i] && k in r.cells ==> k in keys[i] || IsField(fields, k)
  }

  lemma {:induction false} LogsAreWithin(fields: seq<Field>, logs: seq<seq<Row>>, keys: seq<set<string>>)
    requires AreLogs(fields, logs, keys)
    ensures AreWithin(fields, logs, keys)
  {
    forall i, r, k | 0 <= i < |logs| && r in logs[i] && k in r.cells
      ensures k in keys[i] || IsField(fields, k)
    {
      assert IsField(fields, k) || k in KeysOf(fields, logs[i]);
    }
  }

  /** The columns of each log, and of all their lines in one log. */
  ghost predicate AreNamings(lower: char -> char, fields: seq<Field>, keys: seq<set<string>>, cols: seq<seq<Column>>, all: seq<Column>) {
    && FieldsOk(lower, fields) && KeepsDigits(lower)
    && |cols| == |keys|
    && (forall i, k :: 0 <= i < |keys| && k in keys[i] ==> !IsField(fields, k))
    && (forall i :: 0 <= i < |cols| ==> AreKeyColumns(lower, fields, keys[i], cols[i]))
    && AreKeyColumns(lower, fields, AllKeys(keys), all)
  }

  /** Every log names its keys' columns as one log of all lines would. */
  ghost predicate NamedAlike(keys: seq<set<string>>, cols: seq<seq<Column>>, all: seq<Column>)
    requires |cols| == |keys|
  {
    forall i, k :: 0 <= i < |keys| && k in keys[i] ==> NameOf(cols[i], k) == NameOf(all, k)
  }

  ghost function Merged(lower: char -> char, fields: seq<Field>, cols: seq<seq<Column>>, logs: seq<seq<Row>>): NamedFile
    requires |cols| == |logs|
  {
    MergeFile(lower, fields, DumpFiles(lower, cols, logs))
  }

  // ----- named alike, the rows are the same

  lemma {:induction false} DumpIn(log: seq<Row>, r: Row)
    requires r in DumpOf(log)
    ensures r in log
  {
    FirstKeeps({}, log);
    SortSorted(First({}, log));
  }

  ghost function MappedLogs(f: Row -> Row, logs: seq<seq<Row>>): (t: seq<seq<Row>>) {
    seq(|logs|, i requires 0 <= i < |logs| => Mapped(f, logs[i]))
  }

  lemma {:induction false} ConcatMapped(f: Row -> Row, logs: seq<seq<Row>>)
    ensures Concat(MappedLogs(f, logs)) == Mapped(f, Concat(logs))
  {
    if logs != [] {
      assert MappedLogs(f, logs)[1..] == MappedLogs(f, logs[1..]);
      ConcatMapped(f, logs[1..]);
      MappedConcat(f, logs[0], Concat(logs[1..]));
    }
  }

  lemma {:induction false} AlikeDump(lower: char -> char, fields: seq<Field>, keys: seq<set<string>>, cols: seq<seq<Column>>, all: seq<Column>,
                                     logs: seq<seq<Row>>, i: nat)
    requires AreNamings(lower, fields, keys, cols, all) && AreWithin(fields, logs, keys) && NamedAlike(keys, cols, all) && i < |logs|
    ensures Mapped(Namer(lower, cols[i]), DumpOf(logs[i])) == DumpOf(Mapped(Namer(lower, all), logs[i]))
  {
    KeyColumnsOk(lower, fields, keys[i], cols[i]);
    KeyColumnsOk(lower, fields, AllKeys(keys), all);
    var d := DumpOf(logs[i]);
    forall x | 0 <= x < |d|
      ensures Named(lower, cols[i], d[x]) == Named(lower, all, d[x])
    {
      DumpIn(logs[i], d[x]);
      forall k | k in d[x].cells
        ensures HasKey(cols[i], k) && HasKey(all, k) && NameOf(cols[i], k) == NameOf(all, k)
      {
        assert k in keys[i] ==> k in AllKeys(keys);
        FieldNamed(lower, fields, keys, cols, all, i, k);
      }
      SameCells(lower, cols[i], all, d[x].cells);
    }
    assert Mapped(Namer(lower, cols[i]), d) == Mapped(Namer(lower, all), d);
    DumpOfMapped(Namer(lower, all), logs[i]);
  }

  lemma {:induction false} AlikeRows(lower: char -> char, fields: seq<Field>, keys: seq<set<string>>, cols: seq<seq<Column>>, all: seq<Column>,
                                     logs: seq<seq<Row>>)
    requires AreNamings(lower, fields, keys, cols, all) && AreWithin(fields, logs, keys) && NamedAlike(keys, cols, all)
    ensures Merged(lower, fields, cols, logs).rows == DumpFile(lower, all, Concat(logs)).rows
  {
    var f := Namer(lower, all);
    var files := DumpFiles(lower, cols, logs);
    forall i | 0 <= i < |logs|
      ensures files[i].rows == DumpOf(MappedLogs(f, logs)[i])
    {
      AlikeDump(lower, fields, keys, cols, all, logs, i);
    }
    assert RowsOfFiles(files) == DumpsOf(MappedLogs(f, logs));
    MergeOfDumps(MappedLogs(f, logs));
    ConcatMapped(f, logs);
    DumpOfMapped(f, Concat(logs));
  }

  // ----- and so are the columns

  lemma {:induction false} UnionHas(lower: char -> char, names: seq<string>, more: seq<string>)
    ensures forall n :: n in Union(lower, names, more) ==> n in names || n in more
    ensures forall n :: n in names ==> n in Union(lower, names, more)
    ensures forall n :: n in more ==> IsKnown(lower, Union(lower, names, more), n)
    decreases more
  {
    if more != [] {
      var first := if IsKnown(lower, names, more[0]) then names else names + [more[0]];
      UnionHas(lower, first, more[1..]);
      assert more == [more[0]] + more[1..];
      assert IsKnown(lower, first, more[0]) by {
        if first != names { assert first[|names|] == more[0]; }
      }
      KnownStays(lower, first, Union(lower, first, more[1..]), more[0]);
    }
  }

  lemma {:induction false} KnownStays(lower: char -> char, names: seq<string>, more: seq<string>, n: string)
    requires IsKnown(lower, names, n) && forall x :: x in names ==> x in more
    ensures IsKnown(lower, more, n)
  {
    var i :| 0 <= i < |names| && Lower(lower, names[i]) == Lower(lower, n);
    assert names[i] in more;
    var j :| 0 <= j < |more| && more[j] == names[i];
  }

  lemma {:induction false} UnionOfAllHas(lower: char -> char, names: seq<string>, files: seq<seq<string>>)
    ensures forall n :: n in UnionOfAll(lower, names, files) ==> n in names || exists i :: 0 <= i < |files| && n in files[i]
    ensures forall n :: n in names ==> n in UnionOfAll(lower, names, files)
    ensures forall i, n :: 0 <= i < |files| && n in files[i] ==> IsKnown(lower, UnionOfAll(lower, names, files), n)
    decreases files
  {
    if files != [] {
      var first := Union(lower, names, files[0]);
      var u := UnionOfAll(lower, first, files[1..]);
      UnionHas(lower, names, files[0]);
      UnionOfAllHas(lower, first, files[1..]);
      forall n | n in u
        ensures n in names || exists i :: 0 <= i < |files| && n in files[i]
      {
        if i :| 0 <= i < |files[1..]| && n in files[1..][i] { assert n in files[i + 1]; }
      }
      forall i, n | 0 <= i < |files| && n in files[i]
        ensures IsKnown(lower, u, n)
      {
        if i == 0 { KnownStays(lower, first, u, n); } else { assert n in files[1..][i - 1]; }
      }
    }
  }

  lemma {:induction false} NameIn(lower: char -> char, cols: seq<Column>, n: string) returns (k: string)
    requires ColumnsOk(lower, cols) && n in Names(cols)
    ensures HasKey(cols, k) && NameOf(cols, k) == n
  {
    var i :| 0 <= i < |cols| && Names(cols)[i] == n;
    NameIs(lower, cols, i);
    k := cols[i].key;
  }

  lemma {:induction false} KeyIn(lower: char -> char, cols: seq<Column>, k: string)
    requires ColumnsOk(lower, cols) && HasKey(cols, k)
    ensures NameOf(cols, k) in Names(cols)
  {
    var i :| 0 <= i < |cols| && cols[i].key == k;
    NameIs(lower, cols, i);
    assert Names(cols)[i] == cols[i].name;
  }

  /** A log's columns are among those of all. */
  lemma {:induction false} AlikeIn(lower: char -> char, fields: seq<Field>, keys: seq<set<string>>, cols: seq<seq<Column>>, all: seq<Column>, i: nat, n: string)
    requires AreNamings(lower, fields, keys, cols, all) && NamedAlike(keys, cols, all) && i < |keys| && n in Names(cols[i])
    ensures n in Names(all)
  {
    KeyColumnsOk(lower, fields, keys[i], cols[i]);
    KeyColumnsOk(lower, fields, AllKeys(keys), all);
    var k := NameIn(lower, cols[i], n);
    if IsField(fields, k) {
      var f :| 0 <= f < |fields| && fields[f].name == k;
    } else {
      assert k in keys[i] && k in AllKeys(keys);
    }
    KeyIn(lower, all, k);
  }

  /** Every column of all is some log's, or a field. */
  lemma {:induction false} AllIn(lower: char -> char, fields: seq<Field>, keys: seq<set<string>>, cols: seq<seq<Column>>, all: seq<Column>, n: string)
    requires AreNamings(lower, fields, keys, cols, all) && NamedAlike(keys, cols, all) && n in Names(all)
    ensures n in FieldNames(fields) || exists i :: 0 <= i < |keys| && n in Names(cols[i])
  {
    KeyColumnsOk(lower, fields, AllKeys(keys), all);
    var k := NameIn(lower, all, n);
    if IsField(fields, k) {
      var f :| 0 <= f < |fields| && fields[f].name == k;
      assert FieldNames(fields)[f] == n;
    } else {
      var i :| 0 <= i < |keys| && k in keys[i];
      KeyColumnsOk(lower, fields, keys[i], cols[i]);
      KeyIn(lower, cols[i], k);
    }
  }

  lemma {:induction false} FieldsIn(lower: char -> char, fields: seq<Field>, keys: set<string>, cols: seq<Column>, n: string)
    requires FieldsOk(lower, fields) && AreKeyColumns(lower, fields, keys, cols) && n in FieldNames(fields)
    ensures n in Names(cols)
  {
    KeyColumnsOk(lower, fields, keys, cols);
    var f :| 0 <= f < |fields| && FieldNames(fields)[f] == n;
    assert IsField(fields, n);
    KeyIn(lower, cols, n);
  }

  lemma {:induction false} NamesApartIn(lower: char -> char, cols: seq<Column>, m: string, n: string)
    requires ColumnsOk(lower, cols) && m in Names(cols) && n in Names(cols) && Lower(lower, m) == Lower(lower, n)
    ensures m == n
  {
    var i :| 0 <= i < |cols| && Names(cols)[i] == m;
    var j :| 0 <= j < |cols| && Names(cols)[j] == n;
  }

  lemma {:induction false} MergedIn(lower: char -> char, fields: seq<Field>, keys: seq<set<string>>, cols: seq<seq<Column>>, all: seq<Column>,
                                    files: seq<seq<string>>, n: string)
    requires AreNamings(lower, fields, keys, cols, all) && NamedAlike(keys, cols, all)
    requires |files| == |cols| && forall i :: 0 <= i < |files| ==> files[i] == Names(cols[i])
    requires n in MergedNames(lower, fields, files)
    ensures n in Names(all)
  {
    var u := UnionOfAll(lower, [], files);
    UnionOfAllHas(lower, [], files);
    UnionHas(lower, u, FieldNames(fields));
    if n in u {
      var i :| 0 <= i < |files| && n in files[i];
      AlikeIn(lower, fields, keys, cols, all, i, n);
    } else {
      FieldsIn(lower, fields, AllKeys(keys), all, n);
    }
  }

  lemma {:induction false} MergedHas(lower: char -> char, fields: seq<Field>, keys: seq<set<string>>, cols: seq<seq<Column>>, all: seq<Column>,
                                     files: seq<seq<string>>, n: string)
    requires AreNamings(lower, fields, keys, cols, all) && NamedAlike(keys, cols, all)
    requires |files| == |cols| && forall i :: 0 <= i < |files| ==> files[i] == Names(cols[i])
    requires n in Names(all)
    ensures n in MergedNames(lower, fields, files)
  {
    var u, m := UnionOfAll(lower, [], files), MergedNames(lower, fields, files);
    UnionOfAllHas(lower, [], files);
    UnionHas(lower, u, FieldNames(fields));
    AllIn(lower, fields, keys, cols, all, n);
    if i :| 0 <= i < |keys| && n in Names(cols[i]) {
      assert n in files[i];
      KnownStays(lower, u, m, n);
    }
    var j :| 0 <= j < |m| && Lower(lower, m[j]) == Lower(lower, n);
    MergedIn(lower, fields, keys, cols, all, files, m[j]);
    KeyColumnsOk(lower, fields, AllKeys(keys), all);
    NamesApartIn(lower, all, m[j], n);
  }

  /** Logs that name their keys alike merge to the file one log of all their lines
      is dumped to. */
  lemma {:induction false} AlikeMerges(lower: char -> char, fields: seq<Field>, keys: seq<set<string>>, cols: seq<seq<Column>>, all: seq<Column>,
                                       logs: seq<seq<Row>>)
    requires AreNamings(lower, fields, keys, cols, all) && AreWithin(fields, logs, keys) && NamedAlike(keys, cols, all)
    ensures SameFile(Merged(lower, fields, cols, logs), DumpFile(lower, all, Concat(logs)))
  {
    AlikeRows(lower, fields, keys, cols, all, logs);
    var files := NamesOfFiles(DumpFiles(lower, cols, logs));
    assert forall i :: 0 <= i < |files| ==> files[i] == Names(cols[i]);
    forall n
      ensures n in MergedNames(lower, fields, files) <==> n in Names(all)
    {
      if n in MergedNames(lower, fields, files) { MergedIn(lower, fields, keys, cols, all, files, n); }
      if n in Names(all) { MergedHas(lower, fields, keys, cols, all, files, n); }
    }
  }

  // ----- named otherwise, some rows are not

  lemma {:induction false} InConcat(lists: seq<seq<Row>>, y: Row)
    ensures y in Concat(lists) <==> exists j :: 0 <= j < |lists| && y in lists[j]
  {
    if lists != [] {
      InConcat(lists[1..], y);
      if j :| 0 <= j < |lists[1..]| && y in lists[1..][j] { assert y in lists[j + 1]; }
      if j :| 0 <= j < |lists| && y in lists[j] {
        if j > 0 { assert y in lists[1..][j - 1]; }
      }
    }
  }

  /** The one row of its id is kept, and no other of that id. */
  lemma {:induction false} OneKept(log: seq<Row>, r: Row)
    requires r in log && forall x :: x in log && x.id == r.id ==> x == r
    ensures r in DumpOf(log) && forall x :: x in DumpOf(log) && x.id == r.id ==> x == r
  {
    DumpKeepsIds(log);
    assert r.id in Ids(log);
    var y :| y in DumpOf(log) && y.id == r.id;
    DumpIn(log, y);
    forall x | x in DumpOf(log) && x.id == r.id
      ensures x == r
    {
      DumpIn(log, x);
    }
  }

  ghost predicate OnlyOne(logs: seq<seq<Row>>, i: nat, r: Row) {
    && i < |logs| && r in logs[i]
    && forall j, x {:trigger x in logs[j]} :: 0 <= j < |logs| && x in logs[j] && x.id == r.id ==> j == i && x == r
  }

  lemma {:induction false} MergedOne(lower: char -> char, fields: seq<Field>, cols: seq<seq<Column>>, logs: seq<seq<Row>>, i: nat, r: Row)
    requires |cols| == |logs| && OnlyOne(logs, i, r)
    ensures forall y :: y in Merged(lower, fields, cols, logs).rows && y.id == r.id ==> y == Named(lower, cols[i], r)
  {
    var files := RowsOfFiles(DumpFiles(lower, cols, logs));
    forall y | y in MergeOf(files) && y.id == r.id
      ensures y == Named(lower, cols[i], r)
    {
      DumpIn(Concat(files), y);
      InConcat(files, y);
      var j :| 0 <= j < |files| && y in files[j];
      var d := DumpOf(logs[j]);
      assert files[j] == Mapped(Namer(lower, cols[j]), d);
      var x :| 0 <= x < |d| && files[j][x] == y;
      assert y == Named(lower, cols[j], d[x]);
      DumpIn(logs[j], d[x]);
    }
  }

  lemma {:induction false} RowDiffers(lower: char -> char, fields: seq<Field>, cols: seq<seq<Column>>, all: seq<Column>,
                                      logs: seq<seq<Row>>, i: nat, r: Row)
    requires |cols| == |logs| && OnlyOne(logs, i, r) && Named(lower, cols[i], r) != Named(lower, all, r)
    ensures Named(lower, all, r) in DumpFile(lower, all, Concat(logs)).rows
    ensures Named(lower, all, r) !in Merged(lower, fields, cols, logs).rows
  {
    MergedOne(lower, fields, cols, logs, i, r);
    var log := Concat(logs);
    InConcat(logs, r);
    forall x | x in log && x.id == r.id
      ensures x == r
    {
      InConcat(logs, x);
    }
    OneKept(log, r);
    var d := DumpOf(log);
    var x :| 0 <= x < |d| && d[x] == r;
    assert Mapped(Namer(lower, all), d)[x] == Named(lower, all, r);
  }

  lemma {:induction false} FieldNamed(lower: char -> char, fields: seq<Field>, keys: seq<set<string>>, cols: seq<seq<Column>>, all: seq<Column>,
                                      i: nat, k: string)
    requires AreNamings(lower, fields, keys, cols, all) && i < |keys|
    ensures IsField(fields, k) ==> NameOf(cols[i], k) == NameOf(all, k)
  {
    if IsField(fields, k) {
      var f :| 0 <= f < |fields| && fields[f].name == k;
      KeyColumnsOk(lower, fields, keys[i], cols[i]);
      KeyColumnsOk(lower, fields, AllKeys(keys), all);
    }
  }

  /** A line with every key. */
  function Fill(keys: set<string>): Row {
    Row(Some("y"), None, None, map k | k in keys :: Text(""))
  }

  /** Logs of such a line each, one after a line more. */
  function Filled(keys: seq<set<string>>, i: nat, r: Row): seq<seq<Row>> {
    seq(|keys|, j requires 0 <= j < |keys| => (if j == i then [r] else []) + [Fill(keys[j])])
  }

  lemma {:induction false} KeysOfFilled(fields: seq<Field>, log: seq<Row>, keys: set<string>, r: Row)
    requires log == [Fill(keys)] || (log == [r] + [Fill(keys)] && r.cells.Keys <= keys)
    requires forall k :: k in keys ==> !IsField(fields, k)
    ensures KeysOf(fields, log) == keys
  {
    var f := Fill(keys);
    assert f in log && f.cells.Keys == keys;
    forall k
      ensures k in KeysOf(fields, log) <==> k in keys
    {
      if k in keys { assert f in log && k in f.cells && !IsField(fields, k); }
    }
  }

  lemma {:induction false} FilledAre(fields: seq<Field>, keys: seq<set<string>>, i: nat, r: Row)
    requires i < |keys| && r.cells.Keys <= keys[i] && r.id == Some("x")
    requires forall j, k :: 0 <= j < |keys| && k in keys[j] ==> !IsField(fields, k)
    ensures AreLogs(fields, Filled(keys, i, r), keys) && OnlyOne(Filled(keys, i, r), i, r)
  {
    var logs := Filled(keys, i, r);
    forall j | 0 <= j < |logs|
      ensures logs[j] != [] && KeysOf(fields, logs[j]) == keys[j]
    {
      KeysOfFilled(fields, logs[j], keys[j], r);
    }
    assert Some("x") != Some("y");
    assert logs[i][0] == r;
  }

  /** A key named otherwise: a line with that key alone, beside lines with every key
      of their log. */
  lemma {:induction false} UnlikeDiffers(lower: char -> char, fields: seq<Field>, keys: seq<set<string>>, cols: seq<seq<Column>>, all: seq<Column>,
                                         i: nat, k: string) returns (logs: seq<seq<Row>>)
    requires AreNamings(lower, fields, keys, cols, all)
    requires i < |keys| && k in keys[i] && NameOf(cols[i], k) != NameOf(all, k)
    ensures AreLogs(fields, logs, keys) && Merged(lower, fields, cols, logs).rows != DumpFile(lower, all, Concat(logs)).rows
  {
    var r := Row(Some("x"), None, None, map[k := Text("")]);
    logs := Filled(keys, i, r);
    FilledAre(fields, keys, i, r);
    CellDiffers(lower, fields, keys, cols, all, i, k, r);
    RowDiffers(lower, fields, cols, all, logs, i, r);
  }

  lemma {:induction false} UnlikeNames(lower: char -> char, fields: seq<Field>, keys: seq<set<string>>, cols: seq<seq<Column>>, all: seq<Column>,
                                       i: nat, k: string)
    requires AreNamings(lower, fields, keys, cols, all)
    requires i < |keys| && k in keys[i] && NameOf(cols[i], k) != NameOf(all, k)
    ensures Lower(lower, NameOf(cols[i], k)) != Lower(lower, NameOf(all, k))
  {
    FieldNamed(lower, fields, keys, cols, all, i, k);
    assert k in AllKeys(keys);
    var m := NameIsSuffixed(lower, fields, keys[i], cols[i], k);
    var n := NameIsSuffixed(lower, fields, AllKeys(keys), all, k);
    SuffixesDiffer(lower, k, m, n);
  }

  lemma {:induction false} CellDiffers(lower: char -> char, fields: seq<Field>, keys: seq<set<string>>, cols: seq<seq<Column>>, all: seq<Column>,
                                       i: nat, k: string, r: Row)
    requires AreNamings(lower, fields, keys, cols, all)
    requires i < |keys| && k in keys[i] && NameOf(cols[i], k) != NameOf(all, k) && r.cells.Keys == {k}
    ensures Lower(lower, NameOf(cols[i], k)) in Named(lower, cols[i], r).cells
    ensures Lower(lower, NameOf(cols[i], k)) !in Named(lower, all, r).cells
  {
    UnlikeNames(lower, fields, keys, cols, all, i, k);
    KeyColumnsOk(lower, fields, keys[i], cols[i]);
    CellElsewhere(lower, cols[i], all, k, r);
  }

  /** The cell of a line's one key, in columns that name the key otherwise. */
  lemma {:induction false} CellElsewhere(lower: char -> char, a: seq<Column>, b: seq<Column>, k: string, r: Row)
    requires ColumnsOk(lower, a) && HasKey(a, k) && r.cells.Keys == {k}
    requires Lower(lower, NameOf(a, k)) != Lower(lower, NameOf(b, k))
    ensures Lower(lower, NameOf(a, k)) in Named(lower, a, r).cells
    ensures Lower(lower, NameOf(a, k)) !in Named(lower, b, r).cells
  {
    CellNamed(lower, a, r.cells, k);
    assert CellNames(lower, b, r.cells.Keys) == {Lower(lower, NameOf(b, k))};
  }

  /** Whatever logs have these keys, their dumps merge to the dump of all the lines
      in one log, if and only if each names its keys' columns as that one does. */
  lemma {:induction false} SegmentationShows(lower: char -> char, fields: seq<Field>, keys: seq<set<string>>, cols: seq<seq<Column>>, all: seq<Column>)
    requires AreNamings(lower, fields, keys, cols, all)
    ensures NamedAlike(keys, cols, all) <==>
            forall logs :: AreLogs(fields, logs, keys) ==> SameFile(Merged(lower, fields, cols, logs), DumpFile(lower, all, Concat(logs)))
  {
    if NamedAlike(keys, cols, all) {
      forall logs | AreLogs(fields, logs, keys)
        ensures SameFile(Merged(lower, fields, cols, logs), DumpFile(lower, all, Concat(logs)))
      {
        LogsAreWithin(fields, logs, keys);
        AlikeMerges(lower, fields, keys, cols, all, logs);
      }
    } else {
      var i, k :| 0 <= i < |keys| && k in keys[i] && NameOf(cols[i], k) != NameOf(all, k);
      var logs := UnlikeDiffers(lower, fields, keys, cols, all, i, k);
      assert !SameFile(Merged(lower, fields, cols, logs), DumpFile(lower, all, Concat(logs)));
    }
  }

  // ----- which keys are named otherwise

  lemma {:induction false} PlainIffApart(lower: char -> char, fields: seq<Field>, keys: set<string>, cols: seq<Column>, k: string)
    requires FieldsOk(lower, fields) && AreKeyColumns(lower, fields, keys, cols) && k in keys && !IsField(fields, k)
    ensures NameOf(cols, k) == Visible(k) <==> !Clashes(lower, fields, keys, k)
  {
    KeyColumnsOk(lower, fields, keys, cols);
    var rest :| IsRest(fields, keys, rest) && AreColumns(lower, fields, rest, cols);
    assert k in rest;
    var r :| 0 <= r < |rest| && rest[r] == k;
    var i := KeyHasColumn(lower, fields, rest, cols, r);
    NameIs(lower, cols, i);
    NameWithinLog(lower, fields, keys, rest, cols, i);
  }

  /** A key that clashes with none in its log is named as among all keys exactly
      when it clashes with none of those. */
  lemma {:induction false} PlainNamedAlike(lower: char -> char, fields: seq<Field>, keys: seq<set<string>>, cols: seq<seq<Column>>, all: seq<Column>,
                                           i: nat, k: string)
    requires AreNamings(lower, fields, keys, cols, all)
    requires i < |keys| && k in keys[i] && !IsField(fields, k) && !Clashes(lower, fields, keys[i], k)
    ensures NameOf(cols[i], k) == NameOf(all, k) <==> !Clashes(lower, fields, AllKeys(keys), k)
  {
    assert k in AllKeys(keys);
    PlainIffApart(lower, fields, keys[i], cols[i], k);
    PlainIffApart(lower, fields, AllKeys(keys), all, k);
  }

  /** So logs among whose keys none clashes merge as one. */
  lemma {:induction false} NoClashNamedAlike(lower: char -> char, fields: seq<Field>, keys: seq<set<string>>, cols: seq<seq<Column>>, all: seq<Column>)
    requires AreNamings(lower, fields, keys, cols, all)
    requires forall k :: k in AllKeys(keys) && !IsField(fields, k) ==> !Clashes(lower, fields, AllKeys(keys), k)
    ensures NamedAlike(keys, cols, all)
  {
    forall i, k | 0 <= i < |keys| && k in keys[i]
      ensures NameOf(cols[i], k) == NameOf(all, k)
    {
      assert k in AllKeys(keys);
      FieldNamed(lower, fields, keys, cols, all, i, k);
      if !IsField(fields, k) {
        if Clashes(lower, fields, keys[i], k) { ClashesToo(lower, fields, keys, i, k); }
        PlainNamedAlike(lower, fields, keys, cols, all, i, k);
      }
    }
  }

  lemma {:induction false} ClashesToo(lower: char -> char, fields: seq<Field>, keys: seq<set<string>>, i: nat, k: string)
    requires i < |keys| && Clashes(lower, fields, keys[i], k)
    ensures Clashes(lower, fields, AllKeys(keys), k)
  {
    if j :| j in keys[i] && !IsField(fields, j) && TextBefore(j, k) && Lower(lower, Visible(j)) == Lower(lower, Visible(k)) {
      assert j in AllKeys(keys);
    }
  }
}
