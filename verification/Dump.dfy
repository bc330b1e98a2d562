/** The two-pass dump of a closed log: an index of where each kept line is,
    sorted, then each line read back by its offset. */
module Dump {
  import opened Rows
  import opened StableSort
  import opened FirstRows
  import opened Ordered

  /** A raw JSON value cast to its column's type; Fits(None) is NULL. */
  datatype Cast<+T> = Unfit | Fits(value: Option<T>)

  /** A line of a log, its newline included in len. */
  datatype Line =
    | Blank(len: nat)
    | Garbage(len: nat)
    | Object(len: nat, id: Cast<string>, family: Cast<string>, ts: Cast<int>, rest: map<string, Cell>)

  type Log = s: seq<Line> | forall i :: 0 <= i < |s| ==> s[i].len > 0 witness []

  datatype Result = Ok(rows: seq<Row>) | Err

  const MAX_LEN: nat := 0x8000_0000

  function ValueOr<T>(c: Cast<T>): Option<T> {
    if c.Unfit? then None else c.value
  }

  /** The row an object's line decodes to. */
  function Decode(l: Line): Row
    requires l.Object?
  {
    Row(ValueOr(l.id), ValueOr(l.family), ValueOr(l.ts), l.rest)
  }

  /** The rows of a log's lines, in file order; blank lines have none. */
  function Decoded(log: seq<Line>): seq<Row> {
    if log == [] then []
    else (if log[0].Object? then [Decode(log[0])] else []) + Decoded(log[1..])
  }

  lemma {:induction false} DecodedConcat(a: seq<Line>, b: seq<Line>)
    ensures Decoded(a + b) == Decoded(a) + Decoded(b)
  {
    if a == [] {
      assert a + b == b;
    } else {
      DecodedConcat(a[1..], b);
      assert (a + b)[1..] == a[1..] + b;
      var head := if a[0].Object? then [Decode(a[0])] else [];
      assert Decoded(a + b) == head + (Decoded(a[1..]) + Decoded(b));
      assert Decoded(a) == head + Decoded(a[1..]);
    }
  }

  // ----- which logs can be dumped

  /** Line l reads, given the ids of the lines before it: an id-less repeat's
      family is never looked at. */
  predicate Reads(before: set<Id>, l: Line) {
    l.Blank? ||
    (l.Object? && l.len < MAX_LEN && l.id.Fits? && l.ts.Fits? &&
     (l.family.Fits? || (l.id.value == None && None in before)))
  }

  predicate AllRead(log: seq<Line>) {
    forall i :: 0 <= i < |log| ==> Reads(Ids(Decoded(log[..i])), log[i])
  }

  lemma {:induction false} AllReadNext(log: seq<Line>, i: nat)
    requires i < |log|
    ensures AllRead(log[..i + 1]) <==> AllRead(log[..i]) && Reads(Ids(Decoded(log[..i])), log[i])
  {
    var a, b := log[..i], log[..i + 1];
    assert forall j :: 0 <= j <= i ==> b[..j] == log[..j];
    assert forall j :: 0 <= j < i ==> a[..j] == log[..j] && a[j] == log[j];
    assert AllRead(b) <==> forall j :: 0 <= j <= i ==> Reads(Ids(Decoded(log[..j])), log[j]);
    assert AllRead(a) <==> forall j :: 0 <= j < i ==> Reads(Ids(Decoded(log[..j])), log[j]);
  }

  predicate Writable(r: Row) {
    forall k :: k in r.cells ==> r.cells[k].Text?
  }

  /** A log that can be dumped: every line reads, and every line that is the
      first of its id holds values its columns can hold. */
  predicate Dumpable(log: seq<Line>) {
    AllRead(log) && forall r :: r in First({}, Decoded(log)) ==> Writable(r)
  }

  // ----- offsets

  function Offset(log: seq<Line>, i: nat): nat
    requires i <= |log|
  {
    if i == 0 then 0 else Offset(log, i - 1) + log[i - 1].len
  }

  /** The line of n bytes at offset off, as ReadAt gives it; None when no line
      is there. */
  function ReadAt(log: seq<Line>, off: nat, n: nat): Option<Line> {
    if log == [] then None
    else if off == 0 then (if log[0].len == n then Some(log[0]) else None)
    else if off < log[0].len then None
    else ReadAt(log[1..], off - log[0].len, n)
  }

  lemma {:induction false} OffsetOfTail(log: seq<Line>, i: nat)
    requires 0 < i <= |log|
    ensures Offset(log, i) == log[0].len + Offset(log[1..], i - 1)
  {
    if i > 1 {
      OffsetOfTail(log, i - 1);
    }
  }

  lemma {:induction false} ReadsLineBack(log: Log, i: nat)
    requires i < |log|
    ensures ReadAt(log, Offset(log, i), log[i].len) == Some(log[i])
    decreases i
  {
    if i > 0 {
      OffsetOfTail(log, i);
      ReadsLineBack(log[1..], i - 1);
    }
  }

  // ----- kept lines

  const TS_NULL: nat := MAX_LEN

  /** What the index has of a line: offset and length, the place of its family among
      the names, or -1, and its ts, which counts unless the length is flagged. */
  datatype KeptLine = KeptLine(off: nat, ts: int, n: nat, family: int) {
    function Length(): nat { n % TS_NULL }
    predicate TsOk() { n < TS_NULL }
  }

  /** l is the index entry of row r. */
  predicate Backed(log: seq<Line>, names: seq<string>, l: KeptLine, r: Row) {
    && var m := ReadAt(log, l.off, l.Length());
    && m.Some? && m.value.Object? && Decode(m.value) == r
    && -1 <= l.family < |names|
    && r.family == (if l.family < 0 then None else Some(names[l.family]))
    && r.ts == (if l.TsOk() then Some(l.ts) else None)
  }

  predicate AllBacked(log: seq<Line>, names: seq<string>, lines: seq<KeptLine>, rows: seq<Row>) {
    |lines| == |rows| && forall i :: 0 <= i < |lines| ==> Backed(log, names, lines[i], rows[i])
  }

  /** rank puts names in byte order. */
  predicate Ranked(names: seq<string>, rank: seq<nat>) {
    |rank| == |names| &&
    forall i, j :: 0 <= i < |names| && 0 <= j < |names| ==>
      (rank[i] < rank[j] <==> CompareText(names[i], names[j]) < 0)
  }

  function CompareFamilies(rank: seq<nat>, x: int, y: int): int
    requires x < |rank| && y < |rank|
  {
    if x >= 0 && y >= 0 then rank[x] as int - rank[y] as int
    else if x >= 0 then -1
    else if y >= 0 then 1
    else 0
  }

  function CompareLines(rank: seq<nat>, x: KeptLine, y: KeptLine): int
    requires x.family < |rank| && y.family < |rank|
  {
    var c := CompareFamilies(rank, x.family, y.family);
    if c != 0 then c
    else if x.TsOk() && y.TsOk() then x.ts - y.ts
    else if x.TsOk() then -1
    else if y.TsOk() then 1
    else 0
  }

  /** Comparing index entries by rank is comparing their rows' keys. */
  lemma {:induction false} CompareLinesIsKeyOrder(log: seq<Line>, names: seq<string>, rank: seq<nat>,
                               x: KeptLine, rx: Row, y: KeptLine, ry: Row)
    requires Ranked(names, rank)
    requires Backed(log, names, x, rx) && Backed(log, names, y, ry)
    ensures CompareLines(rank, x, y) <= 0 <==> Le(KeyOf(rx), KeyOf(ry))
  {
    if x.family >= 0 && y.family >= 0 {
      CompareTextAntisymmetric(names[x.family], names[y.family]);
    }
  }

  /** slices.SortStableFunc by CompareLines. */
  function InsertLine(rank: seq<nat>, x: KeptLine, s: seq<KeptLine>): (t: seq<KeptLine>)
    requires x.family < |rank| && forall l :: l in s ==> l.family < |rank|
    ensures forall l :: l in t <==> l == x || l in s
  {
    if s == [] || CompareLines(rank, x, s[0]) <= 0 then [x] + s
    else
      assert s == [s[0]] + s[1..];
      [s[0]] + InsertLine(rank, x, s[1..])
  }

  function SortLines(rank: seq<nat>, s: seq<KeptLine>): (t: seq<KeptLine>)
    requires forall l :: l in s ==> l.family < |rank|
    ensures forall l :: l in t <==> l in s
  {
    if s == [] then []
    else
      assert s == [s[0]] + s[1..];
      InsertLine(rank, s[0], SortLines(rank, s[1..]))
  }

  lemma {:induction false} InsertLineIsInsert(log: seq<Line>, names: seq<string>, rank: seq<nat>,
                                              x: KeptLine, rx: Row, s: seq<KeptLine>, rows: seq<Row>)
    requires Ranked(names, rank)
    requires Backed(log, names, x, rx) && AllBacked(log, names, s, rows)
    ensures AllBacked(log, names, InsertLine(rank, x, s), Insert(rx, rows))
  {
    if s == [] {
    } else {
      CompareLinesIsKeyOrder(log, names, rank, x, rx, s[0], rows[0]);
      if CompareLines(rank, x, s[0]) > 0 {
        InsertLineIsInsert(log, names, rank, x, rx, s[1..], rows[1..]);
      }
    }
  }

  /** The rank-based stable sort of the index is the stable sort of the rows. */
  lemma {:induction false} SortLinesIsSort(log: seq<Line>, names: seq<string>, rank: seq<nat>,
                                           s: seq<KeptLine>, rows: seq<Row>)
    requires Ranked(names, rank) && AllBacked(log, names, s, rows)
    ensures AllBacked(log, names, SortLines(rank, s), Sort(rows))
  {
    if s != [] {
      SortLinesIsSort(log, names, rank, s[1..], rows[1..]);
      InsertLineIsInsert(log, names, rank, s[0], rows[0], SortLines(rank, s[1..]), Sort(rows[1..]));
    }
  }

  // ----- the order of the families' names

  predicate DistinctNames(names: seq<string>) {
    forall i, j :: 0 <= i < j < |names| ==> names[i] != names[j]
  }

  predicate NameBefore(names: seq<string>, i: nat, j: nat) {
    i < |names| && j < |names| && CompareText(names[i], names[j]) < 0
  }

  function ByName(names: seq<string>): (nat, nat) -> bool {
    (i: nat, j: nat) => NameBefore(names, i, j)
  }

  ghost predicate Ascending(names: seq<string>, order: seq<nat>) {
    (forall r :: 0 <= r < |order| ==> order[r] < |names|) && InOrder(ByName(names), order)
  }

  lemma {:induction false} NamesOrdered(names: seq<string>)
    requires DistinctNames(names)
    ensures IsTransitive(ByName(names))
    ensures forall i: nat, j: nat :: i < |names| && j < |names| ==> ByName(names)(i, j) || i == j || ByName(names)(j, i)
  {
    forall i: nat, j: nat, k: nat | NameBefore(names, i, j) && NameBefore(names, j, k)
      ensures NameBefore(names, i, k)
    {
      CompareTextTransitive(names[i], names[j], names[k]);
    }
    forall i: nat, j: nat | i < |names| && j < |names|
      ensures NameBefore(names, i, j) || i == j || NameBefore(names, j, i)
    {
      CompareTextAntisymmetric(names[i], names[j]);
    }
  }

  lemma {:induction false} NamePut(names: seq<string>, i: nat, order: seq<nat>)
    requires i < |names| && DistinctNames(names) && Ascending(names, order)
    ensures Ascending(names, Put(ByName(names), order, i))
    ensures forall x :: x in Put(ByName(names), order, i) <==> x == i || x in order
  {
    NamesOrdered(names);
    PutInOrder(ByName(names), order, i);
    var t := Put(ByName(names), order, i);
    forall r | 0 <= r < |t|
      ensures t[r] < |names|
    {
      assert t[r] in t;
    }
  }

  /** slices.SortFunc of the first n names' places by their text. */
  function SortNames(names: seq<string>, n: nat): (order: seq<nat>)
    requires n <= |names| && DistinctNames(names)
    ensures Ascending(names, order)
    ensures forall i: nat :: i in order <==> i < n
  {
    if n == 0 then []
    else
      var rest := SortNames(names, n - 1);
      var last: nat := n - 1;
      NamePut(names, last, rest);
      Put<nat>(ByName(names), rest, last)
  }

  // ----- finding the repeats

  /** Places by their hash, then in file order. */
  predicate PlaceBefore(h: seq<Hash>, i: nat, j: nat) {
    i < |h| && j < |h| &&
    if h[i].a != h[j].a then h[i].a < h[j].a
    else if h[i].b != h[j].b then h[i].b < h[j].b
    else i < j
  }

  function ByPlace(h: seq<Hash>): (nat, nat) -> bool {
    (i: nat, j: nat) => PlaceBefore(h, i, j)
  }

  ghost predicate PlacesAscend(h: seq<Hash>, perm: seq<nat>) {
    (forall r :: 0 <= r < |perm| ==> perm[r] < |h|) && InOrder(ByPlace(h), perm)
  }

  lemma {:induction false} PlacesOrdered(h: seq<Hash>)
    ensures IsTransitive(ByPlace(h))
    ensures forall i: nat, j: nat :: i < |h| && j < |h| ==> ByPlace(h)(i, j) || i == j || ByPlace(h)(j, i)
  {
    forall i: nat, j: nat, k: nat | PlaceBefore(h, i, j) && PlaceBefore(h, j, k)
      ensures PlaceBefore(h, i, k)
    {
    }
  }

  lemma {:induction false} PlacePut(h: seq<Hash>, i: nat, perm: seq<nat>)
    requires i < |h| && PlacesAscend(h, perm)
    ensures PlacesAscend(h, Put(ByPlace(h), perm, i))
    ensures forall x :: x in Put(ByPlace(h), perm, i) <==> x == i || x in perm
  {
    PlacesOrdered(h);
    PutInOrder(ByPlace(h), perm, i);
    var t := Put(ByPlace(h), perm, i);
    forall r | 0 <= r < |t|
      ensures t[r] < |h|
    {
      assert t[r] in t;
    }
  }

  /** slices.SortFunc of the places of perm by their hash, then their place. */
  function SortPlaces(h: seq<Hash>, perm: seq<nat>): (t: seq<nat>)
    requires forall r :: 0 <= r < |perm| ==> perm[r] < |h|
    ensures PlacesAscend(h, t)
    ensures forall x :: x in t <==> x in perm
  {
    if perm == [] then []
    else
      assert perm == [perm[0]] + perm[1..];
      var rest := SortPlaces(h, perm[1..]);
      PlacePut(h, perm[0], rest);
      Put(ByPlace(h), rest, perm[0])
  }

  lemma {:induction false} PlacesInOrder(h: seq<Hash>, perm: seq<nat>)
    requires PlacesAscend(h, perm)
    ensures forall r, t :: 0 <= r < t < |perm| ==> PlaceBefore(h, perm[r], perm[t])
  {
    forall r, t | 0 <= r < t < |perm|
      ensures PlaceBefore(h, perm[r], perm[t])
    {
      assert ByPlace(h)(perm[r], perm[t]);
    }
  }

  lemma {:induction false} PlacesDistinct(h: seq<Hash>, perm: seq<nat>)
    requires PlacesAscend(h, perm)
    ensures forall t, u :: 0 <= t < |perm| && 0 <= u < |perm| && perm[t] == perm[u] ==> t == u
  {
    PlacesInOrder(h, perm);
  }

  /** In the sorted places, a place whose hash an earlier place has comes
      right after a place with its hash. */
  lemma {:induction false} AdjacentRepeats(h: seq<Hash>, perm: seq<nat>, t: nat)
    requires PlacesAscend(h, perm) && t < |perm|
    ensures (t > 0 && h[perm[t]] == h[perm[t - 1]]) <==>
            exists i :: i in perm && i < perm[t] && h[i] == h[perm[t]]
  {
    PlacesInOrder(h, perm);
    if t > 0 && h[perm[t]] == h[perm[t - 1]] {
      assert PlaceBefore(h, perm[t - 1], perm[t]);
      assert perm[t - 1] in perm;
    }
    if i :| i in perm && i < perm[t] && h[i] == h[perm[t]] {
      var r :| 0 <= r < |perm| && perm[r] == i;
      assert t < r ==> PlaceBefore(h, perm[t], perm[r]);
      if r < t - 1 {
        assert PlaceBefore(h, perm[r], perm[t - 1]);
        assert PlaceBefore(h, perm[t - 1], perm[t]);
      }
    }
  }
}
