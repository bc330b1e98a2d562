/** The index a dump makes of a log: the place of each line of a new id, the
    repeats dropped, the rest sorted, then read back in that order. */
module DumpIndex {
  import opened Rows
  import opened StableSort
  import opened FirstRows
  import opened Bitset
  import opened Segments
  import opened Dump
  import opened SortedFirsts
  import opened LogLines

  class DumpIndex {
    // The 128-bit hash of an id; two ids that collide are the one gap.
    const hash: string -> Hash
    var lines: seq<KeptLine>
    var families: map<string, nat> // a family's place in names
    var names: seq<string>
    var rank: seq<nat>
    var hashes: seq<Hash>
    var nullAt: int // the one line without an id kept, -1 for none
    ghost var rows: seq<Row> // the row of each line of lines

    ghost predicate Injective() {
      forall a, b :: hash(a) == hash(b) ==> a == b
    }

    ghost predicate Interned()
      reads this
    {
      && DistinctNames(names)
      && (forall i :: 0 <= i < |names| ==> names[i] in families && families[names[i]] == i)
      && (forall f :: f in families ==> families[f] < |names| && names[families[f]] == f)
    }

    /** The index holds the lines of log's rows, hashed. */
    ghost predicate Valid(log: seq<Line>)
      reads this
    {
      && Injective()
      && Interned()
      && AllBacked(log, names, lines, rows)
      && |hashes| == |lines|
      && -1 <= nullAt < |lines|
      && forall i :: 0 <= i < |lines| ==>
           (rows[i].id == None <==> i == nullAt) &&
           (rows[i].id.Some? ==> hashes[i] == hash(rows[i].id.value))
    }

    constructor (hash: string -> Hash)
      requires forall a, b :: hash(a) == hash(b) ==> a == b
      ensures this.hash == hash && rows == [] && forall log :: Valid(log)
    {
      this.hash := hash;
      lines, families, names, rank, hashes, nullAt, rows := [], map[], [], [], [], -1, [];
    }

    /** The place of a family in names, noted when new. */
    method Intern(family: string) returns (i: nat)
      requires Interned()
      modifies `families, `names
      ensures Interned() && i < |names| && names[i] == family
      ensures old(names) <= names
    {
      if family in families {
        i := families[family];
      } else {
        i := |names|;
        families := families[family := i];
        names := names + [family];
      }
    }

    /** Indexes line l at off, unless it is an id-less repeat. */
    method Line(l: Line, off: nat, ghost log: seq<Line>) returns (ok: bool)
      requires Valid(log) && l.len < MAX_LEN && !l.Blank?
      requires ReadAt(log, off, l.len) == Some(l)
      modifies this
      ensures ok <==> Reads(Ids(old(rows)), l)
      ensures ok ==> Valid(log)
      ensures ok ==> rows == if Decode(l).id == None && None in Ids(old(rows)) then old(rows)
                             else old(rows) + [Decode(l)]
    {
      if !l.Object? || l.id.Unfit? || l.ts.Unfit? {
        return false;
      }
      assert nullAt >= 0 ==> rows[nullAt] in rows;
      assert None in Ids(rows) <==> nullAt >= 0;
      if l.id.value == None {
        if nullAt >= 0 {
          return true; // an earlier line stands for all that have no id
        }
      }
      if l.family.Unfit? {
        return false;
      }
      Append(l, off, log);
      return true;
    }

    /** Indexes line l, the first without an id or one with an id. */
    method Append(l: Line, off: nat, ghost log: seq<Line>)
      requires Valid(log) && l.Object? && l.len < MAX_LEN && ReadAt(log, off, l.len) == Some(l)
      requires l.id.Fits? && l.ts.Fits? && l.family.Fits?
      requires l.id.value == None ==> nullAt < 0
      modifies this
      ensures Valid(log) && rows == old(rows) + [Decode(l)]
    {
      var family: int := -1;
      ghost var was := names;
      if l.family.value.Some? {
        family := Intern(l.family.value.value);
      }
      AllBackedByMoreNames(log, was, names, lines, rows);
      if l.id.value == None {
        nullAt := |lines|;
      }
      var k := Entry(l, off, family);
      assert Backed(log, names, k, Decode(l));
      lines := lines + [k];
      hashes := hashes + [if l.id.value.Some? then hash(l.id.value.value) else Hash(0, 0)];
      rows := rows + [Decode(l)];
    }

    /** Pass 1: indexes every line of log, then drops the repeats. */
    method Read(log: Log) returns (ok: bool)
      requires Injective() && rows == [] && Valid(log)
      modifies this
      ensures ok <==> AllRead(log)
      ensures ok ==> Interned() && AllBacked(log, names, lines, rows) && rows == First({}, Decoded(log))
    {
      var off := 0;
      for i := 0 to |log|
        invariant Valid(log) && off == Offset(log, i)
        invariant AllRead(log[..i])
        invariant First({}, rows) == First({}, Decoded(log[..i]))
        invariant Ids(rows) == Ids(Decoded(log[..i]))
      {
        var l := log[i];
        ghost var was := rows;
        AllReadNext(log, i);
        assert log[..i + 1] == log[..i] + [l];
        DecodedConcat(log[..i], [l]);
        assert Decoded([l]) == if l.Object? then [Decode(l)] else [] by { assert [l][1..] == []; }
        assert Decoded(log[..i]) + [] == Decoded(log[..i]);
        if !l.Blank? {
          if l.len >= MAX_LEN {
            return false;
          }
          ReadsLineBack(log, i);
          ok := Line(l, off, log);
          if !ok {
            return;
          }
          AddedRow(was, Decoded(log[..i]), Decode(l));
        }
        off := off + l.len;
      }
      assert log[..|log|] == log;
      DropRepeats(log);
      return true;
    }

    /** Leaves the first line of each id. In the places sorted by hash, those that
        follow a place of their own hash are dropped. */
    method DropRepeats(log: seq<Line>)
      requires Valid(log)
      modifies `lines, `hashes, `rows
      ensures AllBacked(log, names, lines, rows)
      ensures rows == First({}, old(rows))
    {
      var perm := Places(|lines|, nullAt);
      perm := SortPlaces(hashes, perm);
      var drop := MarkRepeats(hashes, perm);
      ghost var n := |lines|;
      ghost var mark := seq(n, i requires 0 <= i < n => Bit(drop, i));
      forall i | 0 <= i < |rows|
        ensures mark[i] <==> Repeats(rows, i)
      {
        MarkedIsRepeat(this, log, perm, drop, i);
      }
      UnmarkedIsFirst({}, rows, mark);
      lines := Compact(log, names, lines, rows, drop, mark);
      hashes, rows := [], First({}, rows);
    }

    /** Puts the lines left in the order of a file. */
    method Sort(ghost log: seq<Line>)
      requires Interned() && AllBacked(log, names, lines, rows)
      modifies `lines, `rank, `rows
      ensures AllBacked(log, names, lines, rows)
      ensures rows == StableSort.Sort(old(rows))
    {
      var order := SortNames(names, |names|);
      rank := Ranks(names, order);
      assert forall l :: l in lines ==> l.family < |rank|;
      SortLinesIsSort(log, names, rank, lines, rows);
      lines := SortLines(rank, lines);
      rows := StableSort.Sort(rows);
    }

    /** Pass 2: each kept line read back by its offset, in order, and written. */
    method Write(log: seq<Line>) returns (r: Result)
      requires AllBacked(log, names, lines, rows)
      ensures r == if forall x :: x in rows ==> Writable(x) then Ok(rows) else Err
    {
      var out := [];
      for n := 0 to |lines|
        invariant out == rows[..n]
        invariant forall x :: x in out ==> Writable(x)
      {
        var l := lines[n];
        assert Backed(log, names, lines[n], rows[n]);
        var line := ReadAt(log, l.off, l.Length());
        if line.None? || !line.value.Object? {
          assert false;
          return Err;
        }
        var row := Decode(line.value);
        if !Writable(row) {
          assert row in rows;
          return Err;
        }
        out := out + [row];
      }
      return Ok(out);
    }
  }

  /** Each name's place in order. */
  method Ranks(names: seq<string>, order: seq<nat>) returns (rank: seq<nat>)
    requires Ascending(names, order) && forall i: nat :: i in order <==> i < |names|
    ensures Ranked(names, rank)
  {
    rank := seq(|names|, _ => 0);
    for r := 0 to |order|
      invariant |rank| == |names|
      invariant forall t :: 0 <= t < r ==> rank[order[t]] == t
    {
      forall t | 0 <= t < r
        ensures order[t] != order[r]
      {
        assert CompareText(names[order[t]], names[order[r]]) < 0;
        CompareTextAntisymmetric(names[order[t]], names[order[t]]);
      }
      rank := rank[order[r] := r];
    }
    forall i, j | 0 <= i < |names| && 0 <= j < |names|
      ensures rank[i] < rank[j] <==> CompareText(names[i], names[j]) < 0
    {
      assert i in order && j in order;
      var t :| 0 <= t < |order| && order[t] == i;
      var u :| 0 <= u < |order| && order[u] == j;
      CompareTextAntisymmetric(names[i], names[j]);
      assert t < u ==> CompareText(names[order[t]], names[order[u]]) < 0;
      assert u < t ==> CompareText(names[order[u]], names[order[t]]) < 0;
    }
  }

  /** dumpLog: the first line of each id is written, by family and ts; a log with
      a line that is refused fails, writing nothing. */
  method DumpLog(log: Log, hash: string -> Hash) returns (r: Result)
    requires forall a, b :: hash(a) == hash(b) ==> a == b
    ensures r == if Dumpable(log) then Ok(DumpOf(Decoded(log))) else Err
    ensures r.Ok? ==> InFileOrder(r.rows) && exists at :: AreFirstLines(log, r.rows, at)
    ensures r.Err? <==> exists q :: 0 <= q < |log| && IsRefused(log, q)
  {
    ghost var at := DumpMeans(log);
    var d := new DumpIndex(hash);
    var ok := d.Read(log);
    if !ok {
      return Err;
    }
    SortSorted(d.rows);
    d.Sort(log);
    r := d.Write(log);
  }

  /** The lines not marked, in file order. */
  method Compact(ghost log: seq<Line>, ghost names: seq<string>, lines: seq<KeptLine>, ghost rows: seq<Row>,
                 drop: seq<Word>, ghost mark: seq<bool>) returns (kept: seq<KeptLine>)
    requires AllBacked(log, names, lines, rows)
    requires |drop| == Words(|lines|) && |mark| == |rows|
    requires forall i: nat :: i < |lines| ==> mark[i] == Bit(drop, i)
    ensures AllBacked(log, names, kept, Unmarked(rows, mark))
  {
    kept := [];
    for i := 0 to |lines|
      invariant AllBacked(log, names, kept, Unmarked(rows[..i], mark[..i]))
    {
      assert rows[..i + 1] == rows[..i] + [rows[i]] && mark[..i + 1] == mark[..i] + [mark[i]];
      UnmarkedConcat(rows[..i], mark[..i], [rows[i]], [mark[i]]);
      assert Unmarked([rows[i]], [mark[i]]) == if mark[i] then [] else [rows[i]];
      if !Bit(drop, i) {
        kept := kept + [lines[i]];
      }
    }
    assert rows[..|rows|] == rows && mark[..|rows|] == mark;
  }

  /** The places of n lines but nullAt. */
  method Places(n: nat, nullAt: int) returns (perm: seq<nat>)
    ensures forall x :: x in perm <==> 0 <= x < n && x != nullAt
    ensures forall r, s :: 0 <= r < s < |perm| ==> perm[r] != perm[s]
    ensures forall r :: 0 <= r < |perm| ==> perm[r] < n
  {
    perm := [];
    for i := 0 to n
      invariant forall x :: x in perm <==> 0 <= x < i && x != nullAt
      invariant forall r :: 0 <= r < |perm| ==> perm[r] < i
      invariant forall r, s :: 0 <= r < s < |perm| ==> perm[r] != perm[s]
    {
      if i != nullAt { perm := perm + [i]; }
    }
  }

  /** Marks each place of the sorted places whose hash the one before it has. */
  method MarkRepeats(h: seq<Hash>, perm: seq<nat>) returns (drop: seq<Word>)
    requires PlacesAscend(h, perm)
    ensures |drop| == Words(|h|)
    ensures forall x: nat :: x < |h| ==>
      (Bit(drop, x) <==> exists t :: 1 <= t < |perm| && perm[t] == x && h[perm[t]] == h[perm[t - 1]])
  {
    drop := seq(Words(|h|), _ => {});
    if perm == [] { return; }
    for j := 1 to |perm|
      invariant |drop| == Words(|h|)
      invariant forall x: nat :: x < |h| ==>
        (Bit(drop, x) <==> exists t :: 1 <= t < j && perm[t] == x && h[perm[t]] == h[perm[t - 1]])
    {
      ghost var was := drop;
      if h[perm[j]] == h[perm[j - 1]] {
        drop := WithBit(drop, perm[j]);
      }
      assert forall x: nat :: x < |h| ==>
        (Bit(drop, x) <==> Bit(was, x) || (x == perm[j] && h[perm[j]] == h[perm[j - 1]]));
    }
  }

  /** The index entry of l. */
  function Entry(l: Line, off: nat, family: int): (k: KeptLine)
    requires l.Object? && l.len < MAX_LEN && l.ts.Fits?
    ensures k.off == off && k.Length() == l.len && k.family == family
    ensures l.ts.value == if k.TsOk() then Some(k.ts) else None
  {
    if l.ts.value.Some? then KeptLine(off, l.ts.value.value, l.len, family)
    else KeptLine(off, 0, l.len + TS_NULL, family)
  }

  lemma {:induction false} AllBackedByMoreNames(log: seq<Line>, names: seq<string>, more: seq<string>, lines: seq<KeptLine>, rows: seq<Row>)
    requires AllBacked(log, names, lines, rows) && names <= more
    ensures AllBacked(log, more, lines, rows)
  {
  }

  lemma {:induction false} MarkedIsRepeat(d: DumpIndex, log: seq<Line>, perm: seq<nat>, drop: seq<Word>, i: nat)
    requires d.Valid(log) && PlacesAscend(d.hashes, perm)
    requires forall x :: x in perm <==> 0 <= x < |d.lines| && x != d.nullAt
    requires |drop| == Words(|d.lines|) && i < |d.lines|
    requires Bit(drop, i) <==>
             exists t :: 1 <= t < |perm| && perm[t] == i && d.hashes[perm[t]] == d.hashes[perm[t - 1]]
    ensures Bit(drop, i) <==> Repeats(d.rows, i)
  {
    if i == d.nullAt {
      assert forall t :: 0 <= t < |perm| ==> perm[t] in perm;
    } else {
      assert i in perm;
      var t :| 0 <= t < |perm| && perm[t] == i;
      AdjacentRepeats(d.hashes, perm, t);
      PlacesDistinct(d.hashes, perm);
      if Repeats(d.rows, i) {
        var j :| 0 <= j < i && d.rows[j].id == d.rows[i].id;
        assert j in perm && d.hashes[j] == d.hashes[perm[t]];
      }
      if t > 0 && d.hashes[perm[t]] == d.hashes[perm[t - 1]] {
        var j :| j in perm && j < perm[t] && d.hashes[j] == d.hashes[perm[t]];
        assert d.rows[j].id == d.rows[i].id;
      }
    }
  }

  /** Leaving out a row of an id already indexed changes neither what is kept
      nor the ids seen. */
  lemma {:induction false} AddedRow(indexed: seq<Row>, all: seq<Row>, r: Row)
    requires First({}, indexed) == First({}, all) && Ids(indexed) == Ids(all)
    ensures First({}, indexed + [r]) == First({}, all + [r]) && Ids(indexed + [r]) == Ids(all + [r])
    ensures r.id in Ids(indexed) ==> First({}, indexed) == First({}, all + [r]) && Ids(indexed) == Ids(all + [r])
  {
    FirstOfConcat({}, indexed, [r]);
    FirstOfConcat({}, all, [r]);
    assert Ids(indexed + [r]) == Ids(indexed) + {r.id};
    assert Ids(all + [r]) == Ids(all) + {r.id};
  }
}
