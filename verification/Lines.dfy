/** A log's bytes: whole lines, then at most one torn one. */
module Lines {
  import opened Rows
  import opened Bytes

  const NEWLINE: Byte := 10

  /** An encoded line without its newline: JSON text holds none. */
  type Text = s: seq<Byte> | NEWLINE !in s

  datatype LogKey = LogKey(project: int, day: int)

  /** An event, the log it belongs to and its line; None when it cannot be encoded. */
  datatype Event = Event(id: string, key: LogKey, line: Option<Text>)

  type Encoded = e: Event | e.line.Some? witness Event("", LogKey(0, 0), Some([]))

  function BytesOf(es: seq<Encoded>): seq<Byte> {
    if es == [] then [] else es[0].line.value + [NEWLINE] + BytesOf(es[1..])
  }

  predicate Whole(b: seq<Byte>) {
    b == [] || b[|b| - 1] == NEWLINE
  }

  lemma {:induction false} BytesOfWhole(es: seq<Encoded>)
    ensures Whole(BytesOf(es))
    ensures es != [] ==> BytesOf(es) != []
  {
    if es != [] {
      BytesOfWhole(es[1..]);
    }
  }

  lemma {:induction false} BytesOfConcat(a: seq<Encoded>, b: seq<Encoded>)
    ensures BytesOf(a + b) == BytesOf(a) + BytesOf(b)
  {
    if a == [] {
      assert a + b == b;
    } else {
      assert (a + b)[1..] == a[1..] + b;
      BytesOfConcat(a[1..], b);
    }
  }

  lemma {:induction false} BytesOfOne(e: Encoded)
    ensures BytesOf([e]) == e.line.value + [NEWLINE]
  {
    assert [e][1..] == [];
  }

  /** What a write that stopped anywhere leaves: whole lines and a line begun. */
  lemma {:induction false} PrefixOfBytes(es: seq<Encoded>, n: nat) returns (j: nat, m: nat)
    requires n <= |BytesOf(es)|
    ensures j <= |es|
    ensures if j == |es| then m == 0 else m <= |es[j].line.value|
    ensures BytesOf(es)[..n] == BytesOf(es[..j]) + if j == |es| then [] else es[j].line.value[..m]
    ensures |BytesOf(es[..j])| <= n
    ensures j < |es| ==> n < |BytesOf(es[..j + 1])|
  {
    if es == [] {
      j, m := 0, 0;
    } else {
      var head := es[0].line.value + [NEWLINE];
      BytesOfOne(es[0]);
      assert BytesOf(es) == head + BytesOf(es[1..]);
      if n < |head| {
        j, m := 0, n;
        assert (head + BytesOf(es[1..]))[..n] == head[..n];
        assert head[..n] == es[0].line.value[..n];
        assert es[..1] == [es[0]];
      } else {
        j, m := PrefixOfBytes(es[1..], n - |head|);
        assert es[..j + 1] == [es[0]] + es[1..][..j];
        assert es[..j + 1][1..] == es[1..][..j];
        assert BytesOf(es)[..n] == head + BytesOf(es[1..])[..n - |head|];
        if j < |es[1..]| {
          assert es[..j + 2][1..] == es[1..][..j + 1];
        }
        j := j + 1;
      }
    }
  }

  /** The bytes of a prefix of the lines are a prefix of the bytes. */
  lemma {:induction false} BytesOfPrefix(es: seq<Encoded>, k: nat)
    requires k <= |es|
    ensures |BytesOf(es[..k])| <= |BytesOf(es)|
    ensures BytesOf(es)[..|BytesOf(es[..k])|] == BytesOf(es[..k])
  {
    assert es == es[..k] + es[k..];
    BytesOfConcat(es[..k], es[k..]);
  }

  /** Each line stands in the bytes after those before it, with its newline. */
  lemma {:induction false} LineAt(es: seq<Encoded>, i: nat)
    requires i < |es|
    ensures var from := |BytesOf(es[..i])|;
            && from + |es[i].line.value| < |BytesOf(es)|
            && BytesOf(es)[from..from + |es[i].line.value|] == es[i].line.value
            && BytesOf(es)[from + |es[i].line.value|] == 10
            && from + |es[i].line.value| + 1 == if i + 1 < |es| then |BytesOf(es[..i + 1])| else |BytesOf(es)|
  {
    assert es == es[..i] + es[i..] && es[..i + 1] == es[..i] + [es[i]];
    BytesOfConcat(es[..i], es[i..]);
    BytesOfConcat(es[..i], [es[i]]);
    BytesOfOne(es[i]);
    if i + 1 == |es| { assert es[..i + 1] == es; }
  }

  lemma {:induction false} BytesOfMonotone(es: seq<Encoded>, i: nat, k: nat)
    requires i <= |es| && k <= |es|
    ensures i <= k ==> |BytesOf(es[..i])| <= |BytesOf(es[..k])|
  {
    if i <= k {
      BytesOfPrefix(es[..k], i);
      assert es[..k][..i] == es[..i];
    }
  }

  // ----- the end of the last whole line

  ghost predicate IsEnd(b: seq<Byte>, keep: nat) {
    keep <= |b| && Whole(b[..keep]) && NEWLINE !in b[keep..]
  }

  const CHUNK := 4096

  /** afterLastNewline: the offset past the last newline, read from the end a
      chunk at a time. */
  method AfterLastNewline(b: seq<Byte>) returns (keep: nat)
    ensures IsEnd(b, keep)
  {
    var pos := |b|;
    while pos > 0
      invariant 0 <= pos <= |b|
      invariant NEWLINE !in b[pos..]
    {
      var n := if CHUNK > pos then pos else CHUNK;
      var last := pos;
      pos := pos - n;
      var i := LastIndex(b[pos..last]);
      if i >= 0 {
        keep := pos + i + 1;
        assert forall k :: keep <= k < last ==> b[k] == b[pos..last][k - pos];
        assert forall k :: last <= k < |b| ==> b[k] == b[last..][k - last];
        assert b[keep - 1] == b[pos..last][i];
        return;
      }
      assert b[pos..] == b[pos..last] + b[last..];
    }
    keep := 0;
  }

  /** bytes.LastIndexByte of a newline. */
  method LastIndex(buf: seq<Byte>) returns (i: int)
    ensures -1 <= i < |buf|
    ensures i >= 0 ==> buf[i] == NEWLINE
    ensures forall k :: i < k < |buf| ==> buf[k] != NEWLINE
  {
    i := |buf| - 1;
    while i >= 0 && buf[i] != NEWLINE
      invariant -1 <= i < |buf|
      invariant forall k :: i < k < |buf| ==> buf[k] != NEWLINE
    {
      i := i - 1;
    }
  }

  lemma {:induction false} EndUnique(b: seq<Byte>, k: nat, n: nat)
    requires IsEnd(b, k) && IsEnd(b, n)
    ensures k == n
  {
    EndIsLast(b, k, n);
    EndIsLast(b, n, k);
  }

  lemma {:induction false} EndIsLast(b: seq<Byte>, keep: nat, n: nat)
    requires IsEnd(b, keep) && n <= |b| && Whole(b[..n])
    ensures n <= keep
  {
    assert forall j :: keep <= j < |b| ==> b[j] == b[keep..][j - keep];
    assert n > 0 ==> b[n - 1] == b[..n][n - 1];
  }

  // ----- the bytes of a file and the lines they are

  /** b is the lines of es, then what was begun of a line of offered. */
  ghost predicate IsText(b: seq<Byte>, es: seq<Encoded>, key: LogKey, offered: set<Encoded>) {
    && |BytesOf(es)| <= |b| && b[..|BytesOf(es)|] == BytesOf(es)
    && (forall i :: 0 <= i < |es| ==> es[i] in offered && es[i].key == key)
    && Begun(b[|BytesOf(es)|..], key, offered)
  }

  ghost predicate Begun(tail: seq<Byte>, key: LogKey, offered: set<Encoded>) {
    tail == [] || exists e :: e in offered && e.key == key && tail <= e.line.value
  }

  lemma {:induction false} BegunHasNoNewline(tail: seq<Byte>, key: LogKey, offered: set<Encoded>)
    requires Begun(tail, key, offered)
    ensures NEWLINE !in tail
  {
    if tail != [] {
      var e :| e in offered && e.key == key && tail <= e.line.value;
      assert forall k :: 0 <= k < |tail| ==> tail[k] == e.line.value[k];
    }
  }

  /** The torn line begins where the whole ones end. */
  lemma {:induction false} TextEnd(b: seq<Byte>, es: seq<Encoded>, key: LogKey, offered: set<Encoded>)
    requires IsText(b, es, key, offered)
    ensures IsEnd(b, |BytesOf(es)|)
  {
    BytesOfWhole(es);
    BegunHasNoNewline(b[|BytesOf(es)|..], key, offered);
  }

  /** Cut after its last newline, a log is the lines whole in it. */
  lemma {:induction false} CutLeavesLines(b: seq<Byte>, es: seq<Encoded>, key: LogKey, offered: set<Encoded>, keep: nat)
    requires IsText(b, es, key, offered) && IsEnd(b, keep)
    ensures b[..keep] == BytesOf(es)
  {
    TextEnd(b, es, key, offered);
    EndUnique(b, keep, |BytesOf(es)|);
  }

  /** A log's bytes are the bytes of no other lines. */
  lemma {:induction false} BytesOfInjective(a: seq<Encoded>, b: seq<Encoded>)
    requires BytesOf(a) == BytesOf(b)
    ensures |a| == |b| && forall i :: 0 <= i < |a| ==> a[i].line == b[i].line
  {
    if a == [] || b == [] {
      BytesOfWhole(a);
      BytesOfWhole(b);
    } else {
      var s, x, y := BytesOf(a), a[0].line.value, b[0].line.value;
      FirstNewline(s, x, y);
      assert BytesOf(a[1..]) == s[|x| + 1..] && BytesOf(b[1..]) == s[|y| + 1..];
      assert x == s[..|x|] && y == s[..|y|];
      BytesOfInjective(a[1..], b[1..]);
      assert forall i :: 0 < i < |a| ==> a[i] == a[1..][i - 1] && b[i] == b[1..][i - 1];
    }
  }

  lemma {:induction false} FirstNewline(s: seq<Byte>, x: Text, y: Text)
    requires |x| < |s| && s[..|x|] == x && s[|x|] == NEWLINE
    requires |y| < |s| && s[..|y|] == y && s[|y|] == NEWLINE
    ensures |x| == |y|
  {
    assert forall j :: 0 <= j < |x| ==> s[j] == x[j];
    assert forall j :: 0 <= j < |y| ==> s[j] == y[j];
  }

  /** A write of the lines of more that stopped after n bytes. */
  lemma {:induction false} TextAfterWrite(b: seq<Byte>, es: seq<Encoded>, more: seq<Encoded>, n: nat, key: LogKey, offered: set<Encoded>)
    returns (now: seq<Encoded>)
    requires IsText(b, es, key, offered) && b == BytesOf(es) && n <= |BytesOf(more)|
    requires forall i :: 0 <= i < |more| ==> more[i] in offered && more[i].key == key
    ensures IsText(b + BytesOf(more)[..n], now, key, offered)
    ensures es <= now <= es + more
    ensures n == |BytesOf(more)| ==> now == es + more
  {
    var j, m := PrefixOfBytes(more, n);
    now := es + more[..j];
    BytesOfConcat(es, more[..j]);
    assert (b + BytesOf(more)[..n])[..|BytesOf(now)|] == BytesOf(now);
    var tail := (b + BytesOf(more)[..n])[|BytesOf(now)|..];
    if j < |more| {
      assert tail == more[j].line.value[..m];
      BytesOfPrefix(more, j + 1);
    } else {
      assert more[..j] == more;
      assert tail == [];
    }
  }

  /** What a crash leaves of a file: at least the lines made durable. */
  lemma {:induction false} TextAfterCrash(b: seq<Byte>, es: seq<Encoded>, synced: nat, n: nat, key: LogKey, offered: set<Encoded>)
    returns (now: seq<Encoded>)
    requires IsText(b, es, key, offered) && synced <= |es|
    requires |BytesOf(es[..synced])| <= n <= |b|
    ensures IsText(b[..n], now, key, offered)
    ensures es[..synced] <= now <= es
  {
    var all := |BytesOf(es)|;
    if n >= all {
      now := es;
      assert b[..n][..all] == BytesOf(es);
      assert b[..n][all..] <= b[all..];
    } else {
      var j, m := PrefixOfBytes(es, n);
      now := es[..j];
      assert b[..n] == BytesOf(es)[..n];
      if j < |es| {
        BytesOfMonotone(es, j + 1, synced);
        assert b[..n][|BytesOf(now)|..] == es[j].line.value[..m];
      }
    }
  }
}
