/** The keys of a growing log's complete lines, each call reading only what was
    appended since the one before. */
module Keys {
  import opened Rows
  import opened Bytes
  import opened Lines

  /** The end, past its newline, of the line of b that starts at lo, or -1 when it
      does not end before hi. */
  function LineEnd(b: seq<Byte>, lo: nat, hi: nat): (e: int)
    requires lo <= hi <= |b|
    ensures e == -1 || lo < e <= hi
    decreases hi - lo
  {
    if lo == hi then -1 else if b[lo] == NEWLINE then lo + 1 else LineEnd(b, lo + 1, hi)
  }

  predicate NoNewline(b: seq<Byte>, lo: nat, hi: nat) {
    hi <= |b| && forall k :: lo <= k < hi ==> b[k] != NEWLINE
  }

  lemma {:induction false} LineEndIs(b: seq<Byte>, lo: nat, hi: nat)
    requires lo <= hi <= |b|
    ensures var e := LineEnd(b, lo, hi); if e == -1 then NoNewline(b, lo, hi) else NoNewline(b, lo, e - 1) && b[e - 1] == NEWLINE
    decreases hi - lo
  {
    if lo < hi && b[lo] != NEWLINE { LineEndIs(b, lo + 1, hi); }
  }

  /** A line that ends at e, however far the search goes. */
  lemma {:induction false} LineEndAt(b: seq<Byte>, lo: nat, e: nat, hi: nat)
    requires lo < e <= hi <= |b| && NoNewline(b, lo, e - 1) && b[e - 1] == NEWLINE
    ensures LineEnd(b, lo, hi) == e
    decreases e - lo
  {
    if lo + 1 < e { LineEndAt(b, lo + 1, e, hi); }
  }

  lemma {:induction false} NoLineEnd(b: seq<Byte>, lo: nat, hi: nat)
    requires lo <= hi && NoNewline(b, lo, hi)
    ensures LineEnd(b, lo, hi) == -1
    decreases hi - lo
  {
    if lo < hi { NoLineEnd(b, lo + 1, hi); }
  }

  /** The keys of the lines complete between lo and hi, by what a line holds: none
      when it is no JSON object. */
  function KeysIn(keys: seq<Byte> -> set<string>, b: seq<Byte>, lo: nat, hi: nat): set<string>
    requires lo <= hi <= |b|
    decreases hi - lo
  {
    var e := LineEnd(b, lo, hi);
    if e == -1 then {} else keys(b[lo..e]) + KeysIn(keys, b, e, hi)
  }

  /** The keys of a file's complete lines. */
  function AllKeys(keys: seq<Byte> -> set<string>, b: seq<Byte>): set<string> {
    KeysIn(keys, b, 0, |b|)
  }

  predicate EndsLine(b: seq<Byte>, off: nat) {
    off == 0 || (off <= |b| && b[off - 1] == NEWLINE)
  }

  /** Where a line ends, the keys are those before and those after. */
  lemma {:induction false} KeysSplit(keys: seq<Byte> -> set<string>, b: seq<Byte>, lo: nat, mid: nat, hi: nat)
    requires lo <= mid <= hi <= |b| && (mid == lo || b[mid - 1] == NEWLINE)
    ensures KeysIn(keys, b, lo, hi) == KeysIn(keys, b, lo, mid) + KeysIn(keys, b, mid, hi)
    decreases mid - lo
  {
    if lo < mid {
      var e := LineEnd(b, lo, mid);
      LineEndIs(b, lo, mid);
      LineEndAt(b, lo, e, hi);
      KeysSplit(keys, b, e, mid, hi);
    } else {
      NoLineEnd(b, lo, mid);
    }
  }

  predicate SameBytes(a: seq<Byte>, b: seq<Byte>, lo: nat, hi: nat) {
    hi <= |a| && hi <= |b| && forall k :: lo <= k < hi ==> a[k] == b[k]
  }

  /** They are told by the bytes from lo to hi. */
  lemma {:induction false} KeysOfSame(keys: seq<Byte> -> set<string>, a: seq<Byte>, b: seq<Byte>, lo: nat, hi: nat)
    requires lo <= hi && SameBytes(a, b, lo, hi)
    ensures KeysIn(keys, a, lo, hi) == KeysIn(keys, b, lo, hi)
    decreases hi - lo
  {
    SameLineEnd(a, b, lo, hi);
    var e := LineEnd(a, lo, hi);
    if e != -1 {
      SameSlice(a, b, lo, e);
      KeysOfSame(keys, a, b, e, hi);
    }
  }

  lemma {:induction false} SameSlice(a: seq<Byte>, b: seq<Byte>, lo: nat, hi: nat)
    requires lo <= hi && SameBytes(a, b, lo, hi)
    ensures a[lo..hi] == b[lo..hi]
  {
  }

  lemma {:induction false} SameLineEnd(a: seq<Byte>, b: seq<Byte>, lo: nat, hi: nat)
    requires lo <= hi && SameBytes(a, b, lo, hi)
    ensures LineEnd(a, lo, hi) == LineEnd(b, lo, hi)
    decreases hi - lo
  {
    if lo < hi { SameLineEnd(a, b, lo + 1, hi); }
  }

  /** The keys of whole lines, and of b's from where they end in a file. */
  lemma {:induction false} KeysOfAppended(keys: seq<Byte> -> set<string>, t: seq<Byte>, b: seq<Byte>, m: nat)
    requires |t| <= m <= |b| && EndsLine(t, |t|)
    ensures AllKeys(keys, t + b[|t|..m]) == AllKeys(keys, t) + KeysIn(keys, b, |t|, m)
  {
    var c := t + b[|t|..m];
    KeysSplit(keys, c, 0, |t|, |c|);
    KeysOfSame(keys, c, t, 0, |t|);
    KeysOfSame(keys, c, b, |t|, m);
  }

  /** A torn last line has no keys. */
  lemma {:induction false} KeysButTorn(keys: seq<Byte> -> set<string>, b: seq<Byte>, m: nat)
    requires m <= |b| && EndsLine(b, m) && NoNewline(b, m, |b|)
    ensures AllKeys(keys, b[..m]) == AllKeys(keys, b)
  {
    KeysSplit(keys, b, 0, m, |b|);
    NoLineEnd(b, m, |b|);
    KeysOfSame(keys, b[..m], b, 0, m);
  }

  // ----- reading lines in chunks

  /** The next line of b, with its newline, and where it ends: what was read but not
      handed on is b[lo..hi], and more is read a chunk at a time, so a line longer
      than a chunk is read whole. At the end of b no line is left but maybe a torn one. */
  method ReadLine(b: seq<Byte>, lo0: nat, hi0: nat, chunk: nat) returns (line: seq<Byte>, eof: bool, lo: nat, hi: nat)
    requires lo0 <= hi0 <= |b| && chunk > 0
    ensures lo <= hi <= |b|
    ensures eof <==> LineEnd(b, lo0, |b|) == -1
    ensures !eof ==> lo == LineEnd(b, lo0, |b|) && line == b[lo0..lo]
  {
    lo, hi, line, eof := lo0, hi0, [], false;
    while true
      invariant lo0 <= lo <= hi <= |b| && line == b[lo0..lo] && NoNewline(b, lo0, lo)
      decreases |b| - lo, |b| - hi
    {
      var e := LineEnd(b, lo, hi);
      LineEndIs(b, lo, hi);
      if e != -1 {
        line := line + b[lo..e];
        lo := e;
        LineEndAt(b, lo0, e, |b|);
        return;
      }
      line := line + b[lo..hi];
      lo := hi;
      if hi == |b| {
        NoLineEnd(b, lo0, |b|);
        eof := true;
        return;
      }
      hi := if chunk < |b| - hi then hi + chunk else |b|;
    }
  }

  // ----- the scanner

  /** A file: which it is, to tell a new file at the same path, and its bytes. */
  datatype File = File(inode: int, bytes: seq<Byte>)

  /** What was read of a log: of which file, up to where, and the keys so far. */
  datatype Scanned = Scanned(inode: int, next: nat, keys: set<string>)

  class KeyScanner {
    const keysOf: seq<Byte> -> set<string>   // a line's keys
    const chunk: nat
    var logs: map<string, Scanned>
    ghost var read: map<string, seq<Byte>>   // of each path, the lines read

    ghost predicate Valid()
      reads this
    {
      && chunk > 0 && read.Keys == logs.Keys
      && forall p {:trigger ScannedOk(logs[p], read[p])} :: p in read ==> ScannedOk(logs[p], read[p])
    }

    /** t is what was read: whole lines, up to next, and their keys kept. */
    ghost predicate ScannedOk(s: Scanned, t: seq<Byte>) {
      |t| == s.next && EndsLine(t, |t|) && s.keys == AllKeys(keysOf, t)
    }

    constructor (keysOf: seq<Byte> -> set<string>, chunk: nat)
      requires chunk > 0
      ensures Valid() && logs == map[] && this.keysOf == keysOf && this.chunk == chunk
    {
      this.keysOf, this.chunk, logs, read := keysOf, chunk, map[], map[];
    }

    /** The file found at path is taken for the one read before, grown. */
    predicate Continues(path: string, f: File)
      reads this
    {
      path in logs && logs[path].inode == f.inode && logs[path].next <= |f.bytes| && EndsLine(f.bytes, logs[path].next)
    }

    /** read: the lines complete from next on. */
    method Read(s0: Scanned, b: seq<Byte>, ghost t: seq<Byte>) returns (s: Scanned)
      requires chunk > 0 && s0.next <= |b| && EndsLine(b, s0.next) && ScannedOk(s0, t)
      ensures s.inode == s0.inode && s0.next <= s.next <= |b| && EndsLine(b, s.next) && NoNewline(b, s.next, |b|)
      ensures ScannedOk(s, t + b[s0.next..s.next])
    {
      s := s0;
      var hi := s0.next;
      NoLineEnd(b, s0.next, s0.next);
      while true
        invariant s.inode == s0.inode && s0.next <= s.next <= hi <= |b| && EndsLine(b, s.next)
        invariant s.next == s0.next || b[s.next - 1] == NEWLINE
        invariant s.keys == s0.keys + KeysIn(keysOf, b, s0.next, s.next)
        decreases |b| - s.next
      {
        var line, eof, lo;
        line, eof, lo, hi := ReadLine(b, s.next, hi, chunk);
        LineEndIs(b, s.next, |b|);
        if eof {
          KeysOfAppended(keysOf, t, b, s.next);
          return;
        }
        OneLine(b, s0.next, s.next, lo);
        s := s.(next := lo, keys := s.keys + keysOf(line));
      }
    }

    lemma {:induction false} OneLine(b: seq<Byte>, lo: nat, mid: nat, e: nat)
      requires lo <= mid <= |b| && (mid == lo || b[mid - 1] == NEWLINE) && e == LineEnd(b, mid, |b|)
      ensures mid < e <= |b| && b[e - 1] == NEWLINE
      ensures KeysIn(keysOf, b, lo, e) == KeysIn(keysOf, b, lo, mid) + keysOf(b[mid..e])
    {
      LineEndIs(b, mid, |b|);
      LineEndAt(b, mid, e, e);
      NoLineEnd(b, e, e);
      KeysSplit(keysOf, b, lo, mid, e);
    }

    /** What a call has read of path: what it had, when the file is taken for the same
        one grown, and the lines complete past that. */
    ghost predicate ReadNow(path: string, b: seq<Byte>, continues: bool, had: seq<Byte>, t: seq<Byte>)
    {
      && (continues ==> |had| <= |t| <= |b| && t == had + b[|had|..|t|])
      && (!continues ==> |t| <= |b| && t == b[..|t|])
      && EndsLine(b, |t|) && NoNewline(b, |t|, |b|)
    }

    /** Keys: the keys of the lines read, those of the call's own included. They are
        those of f's complete lines if f is read from its start, and else exactly when
        its lines up to there have the keys that are held; so if it begins with them. */
    method Keys(path: string, f: Option<File>) returns (ok: bool, keys: set<string>)
      requires Valid()
      modifies this
      ensures Valid() && ok == f.Some?
      ensures !ok ==> logs == old(logs) && read == old(read)
      ensures ok ==> path in read && keys == AllKeys(keysOf, read[path])
      ensures ok ==> path in logs && logs == old(logs)[path := logs[path]] && logs[path].inode == f.value.inode
      ensures ok ==> ReadNow(path, f.value.bytes, old(Continues(path, f.value)), if path in old(read) then old(read)[path] else [], read[path])
      ensures ok && (old(Continues(path, f.value)) ==> old(read)[path] <= f.value.bytes) ==>
                keys == AllKeys(keysOf, f.value.bytes) && read[path] <= f.value.bytes
      ensures ok && old(Continues(path, f.value)) ==>
                |old(read)[path]| <= |f.value.bytes| && (keys == AllKeys(keysOf, f.value.bytes) <==> IsHeld(f.value.bytes, old(read)[path]))
    {
      keys := {};
      if f.None? { return false, {}; }
      ok := true;
      assert path in logs ==> ScannedOk(logs[path], read[path]);
      var continues := Continues(path, f.value);
      var sl := Scanned(f.value.inode, 0, {});
      ghost var t := [];
      if continues {
        sl := logs[path];
        t := read[path];
      }
      ghost var had := t;
      keys, sl, t := ReadFile(sl, f.value.bytes, t);
      if continues { RightWhenPrefixHeld(f.value.bytes, had, t); }
      logs := logs[path := sl];
      read := read[path := t];
    }

    /** When the file is taken for the one read before, grown, the keys are right
        exactly when the lines up to where the read stopped have the keys that are
        held, but for keys the lines past it have too. */
    lemma {:induction false} RightWhenPrefixHeld(b: seq<Byte>, had: seq<Byte>, t: seq<Byte>)
      requires EndsLine(had, |had|) && |had| <= |t| <= |b| && EndsLine(b, |had|) && t == had + b[|had|..|t|]
      requires EndsLine(b, |t|) && NoNewline(b, |t|, |b|)
      ensures AllKeys(keysOf, t) == AllKeys(keysOf, b) <==> IsHeld(b, had)
    {
      KeysOfAppended(keysOf, had, b, |t|);
      KeysSplit(keysOf, b, 0, |had|, |b|);
      KeysSplit(keysOf, b, |had|, |t|, |b|);
      NoLineEnd(b, |t|, |b|);
      var held, prefix, tail := AllKeys(keysOf, had), KeysIn(keysOf, b, 0, |had|), KeysIn(keysOf, b, |had|, |b|);
      assert AllKeys(keysOf, t) == held + tail && AllKeys(keysOf, b) == prefix + tail;
      assert held + tail == (held - tail) + tail && prefix + tail == (prefix - tail) + tail;
      assert (held + tail) - tail == held - tail && (prefix + tail) - tail == prefix - tail;
    }

    /** The keys of b's lines up to the end of had are those of had, leaving out those
        of the lines past it. */
    ghost predicate IsHeld(b: seq<Byte>, had: seq<Byte>)
      requires |had| <= |b|
    {
      KeysIn(keysOf, b, 0, |had|) - KeysIn(keysOf, b, |had|, |b|) == AllKeys(keysOf, had) - KeysIn(keysOf, b, |had|, |b|)
    }

    /** The file, read from where the call before stopped, or from its start. */
    method ReadFile(s0: Scanned, b: seq<Byte>, ghost t0: seq<Byte>) returns (keys: set<string>, s: Scanned, ghost t: seq<Byte>)
      requires chunk > 0 && s0.next <= |b| && EndsLine(b, s0.next) && (ScannedOk(s0, t0) || (t0 == [] && s0.next == 0 && s0.keys == {}))
      ensures |t0| <= |t| <= |b| && t == t0 + b[|t0|..|t|] && EndsLine(b, |t|) && NoNewline(b, |t|, |b|)
      ensures ScannedOk(s, t) && keys == AllKeys(keysOf, t) && s.inode == s0.inode
      ensures t0 <= b ==> t <= b && keys == AllKeys(keysOf, b)
    {
      if s0.next == 0 { NoLineEnd(t0, 0, 0); }
      assert ScannedOk(s0, t0);
      s := s0;
      if |b| > s0.next { s := Read(s0, b, t0); }
      t := t0 + b[s0.next..s.next];
      assert s.next == s0.next ==> t == t0;
      keys := s.keys;
      if t0 <= b {
        assert t == b[..|t|];
        KeysButTorn(keysOf, b, |t|);
      }
    }
  }

  // {"a":1} and {"b":1}, each a line
  const LINE_A: seq<Byte> := [123, 34, 97, 34, 58, 49, 125, NEWLINE]
  const LINE_B: seq<Byte> := [123, 34, 98, 34, 58, 49, 125, NEWLINE]

  lemma {:induction false} OneLineKeys(keys: seq<Byte> -> set<string>, b: seq<Byte>)
    requires |b| > 0 && b[|b| - 1] == NEWLINE && NoNewline(b, 0, |b| - 1)
    ensures AllKeys(keys, b) == keys(b)
  {
    LineEndAt(b, 0, |b|, |b|);
    NoLineEnd(b, |b|, |b|);
    assert KeysIn(keys, b, |b|, |b|) == {};
    assert b[0..|b|] == b;
  }

  /** A log read up to its one line, cut back and grown by another as long, keeps the
      key of the line that is gone. */
  method StaleAfterRegrowth(s: KeyScanner, path: string) returns (first: set<string>, second: set<string>)
    requires s.Valid() && path !in s.logs && s.keysOf(LINE_A) == {"a"} && s.keysOf(LINE_B) == {"b"}
    modifies s
    ensures first == {"a"} == AllKeys(s.keysOf, LINE_A)
    ensures second == {"a"} && AllKeys(s.keysOf, LINE_B) == {"b"}
  {
    OneLineKeys(s.keysOf, LINE_A);
    OneLineKeys(s.keysOf, LINE_B);
    var ok;
    ok, first := s.Keys(path, Some(File(1, LINE_A)));
    assert s.read[path] == LINE_A;
    assert s.Continues(path, File(1, LINE_B)) by { assert s.ScannedOk(s.logs[path], s.read[path]); }
    ok, second := s.Keys(path, Some(File(1, LINE_B)));
    assert s.read[path] == LINE_A;
  }
}
