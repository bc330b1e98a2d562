/** The append-only log: one file per project and day, appended to in one
    write per batch, under short writes, cut-backs that fail, syncs that fail
    and crashes. */
module EventLog {
  import opened Rows
  import opened Bytes
  import opened Lines

  const RECENT_IDS := 600

  // ----- the events of a batch a call has to write

  /** The batch's first event of its id, the id not written lately. */
  predicate IsFresh(evs: seq<Event>, seen: set<string>, i: nat)
    requires i < |evs|
  {
    evs[i].id !in seen && forall j :: 0 <= j < i ==> evs[j].id != evs[i].id
  }

  predicate Encodable(evs: seq<Event>, seen: set<string>) {
    forall i :: 0 <= i < |evs| && IsFresh(evs, seen, i) ==> evs[i].line.Some?
  }

  lemma {:induction false} EncodablePrefix(evs: seq<Event>, seen: set<string>, n: nat)
    requires n <= |evs|
    ensures Encodable(evs, seen) ==> Encodable(evs[..n], seen)
  {
    forall i | 0 <= i < n && IsFresh(evs[..n], seen, i)
      ensures IsFresh(evs, seen, i)
    {
      assert forall j :: 0 <= j < i ==> evs[..n][j] == evs[j];
    }
  }

  function Fresh(evs: seq<Event>, seen: set<string>): seq<Encoded>
    requires Encodable(evs, seen)
  {
    if evs == [] then []
    else
      EncodablePrefix(evs, seen, |evs| - 1);
      Fresh(evs[..|evs| - 1], seen) + if IsFresh(evs, seen, |evs| - 1) then [evs[|evs| - 1]] else []
  }

  function ForKey(es: seq<Encoded>, k: LogKey): seq<Encoded> {
    if es == [] then []
    else ForKey(es[..|es| - 1], k) + if es[|es| - 1].key == k then [es[|es| - 1]] else []
  }

  lemma {:induction false} FreshFrom(evs: seq<Event>, seen: set<string>, e: Encoded)
    requires Encodable(evs, seen) && e in Fresh(evs, seen)
    ensures exists i :: 0 <= i < |evs| && evs[i] == e && IsFresh(evs, seen, i)
  {
    var n := |evs| - 1;
    if IsFresh(evs, seen, n) && e == evs[n] {
    } else {
      EncodablePrefix(evs, seen, n);
      FreshFrom(evs[..n], seen, e);
      var i :| 0 <= i < n && evs[..n][i] == e && IsFresh(evs[..n], seen, i);
      assert forall j :: 0 <= j < i ==> evs[..n][j] == evs[j];
      assert evs[i] == e && IsFresh(evs, seen, i);
    }
  }

  lemma {:induction false} FreshHas(evs: seq<Event>, seen: set<string>, i: nat)
    requires Encodable(evs, seen) && i < |evs| && IsFresh(evs, seen, i)
    ensures evs[i] in Fresh(evs, seen)
  {
    var n := |evs| - 1;
    if i < n {
      EncodablePrefix(evs, seen, n);
      assert forall j :: 0 <= j <= i ==> evs[..n][j] == evs[j];
      FreshHas(evs[..n], seen, i);
    }
  }

  lemma {:induction false} FirstOfId(evs: seq<Event>, i: nat) returns (f: nat)
    requires i < |evs|
    ensures f <= i && evs[f].id == evs[i].id && forall j :: 0 <= j < f ==> evs[j].id != evs[i].id
  {
    f := 0;
    while evs[f].id != evs[i].id
      invariant f <= i && forall j :: 0 <= j < f ==> evs[j].id != evs[i].id
      decreases i - f
    {
      f := f + 1;
    }
  }

  /** An id is written lately, or the batch has one event to write for it. */
  lemma {:induction false} FreshCovers(evs: seq<Event>, seen: set<string>, i: nat)
    requires Encodable(evs, seen) && i < |evs|
    ensures evs[i].id in seen || exists e :: e in Fresh(evs, seen) && e.id == evs[i].id
  {
    if evs[i].id !in seen {
      var f := FirstOfId(evs, i);
      FreshHas(evs, seen, f);
    }
  }

  lemma {:induction false} FreshDistinct(evs: seq<Event>, seen: set<string>)
    requires Encodable(evs, seen)
    ensures forall i, j :: 0 <= i < j < |Fresh(evs, seen)| ==> Fresh(evs, seen)[i].id != Fresh(evs, seen)[j].id
  {
    if evs != [] {
      var n := |evs| - 1;
      EncodablePrefix(evs, seen, n);
      var rest := Fresh(evs[..n], seen);
      FreshDistinct(evs[..n], seen);
      if IsFresh(evs, seen, n) {
        forall i | 0 <= i < |rest|
          ensures rest[i].id != evs[n].id
        {
          FreshFrom(evs[..n], seen, rest[i]);
          var j :| 0 <= j < n && evs[..n][j] == rest[i];
          assert evs[j].id != evs[n].id;
        }
      }
    }
  }

  lemma {:induction false} ForKeyMembers(es: seq<Encoded>, k: LogKey)
    ensures forall e :: e in ForKey(es, k) <==> e in es && e.key == k
  {
    if es != [] {
      ForKeyMembers(es[..|es| - 1], k);
      assert es == es[..|es| - 1] + [es[|es| - 1]];
    }
  }

  // ----- the batch, its lines log by log

  ghost predicate Distinct(order: seq<LogKey>) {
    forall i, j :: 0 <= i < j < |order| ==> order[i] != order[j]
  }

  lemma {:induction false} PrefixMore(order: seq<LogKey>, i: nat)
    requires i < |order|
    ensures forall k :: k in order[..i + 1] <==> k in order[..i] || k == order[i]
  {
    assert order[..i + 1] == order[..i] + [order[i]];
  }

  lemma {:induction false} NotBefore(order: seq<LogKey>, i: nat)
    requires Distinct(order) && i < |order|
    ensures order[i] !in order[..i]
  {
  }

  ghost predicate IsBatch(batch: map<LogKey, seq<Byte>>, order: seq<LogKey>, es: seq<Encoded>) {
    && Distinct(order)
    && (forall k :: k in batch <==> k in order)
    && (forall k {:trigger ForKey(es, k)} :: k in batch <==> ForKey(es, k) != [])
    && (forall k {:trigger batch[k]} :: k in batch ==> batch[k] == BytesOf(ForKey(es, k)))
  }

  lemma {:induction false} ForKeyMore(es: seq<Encoded>, e: Encoded, k: LogKey)
    ensures ForKey(es + [e], k) == if e.key == k then ForKey(es, k) + [e] else ForKey(es, k)
  {
    assert (es + [e])[..|es|] == es;
  }

  lemma {:induction false} BatchMore(batch: map<LogKey, seq<Byte>>, order: seq<LogKey>, es: seq<Encoded>, e: Encoded)
    requires IsBatch(batch, order, es)
    ensures var b := (if e.key in batch then batch[e.key] else []) + e.line.value + [NEWLINE];
            IsBatch(batch[e.key := b], if e.key in batch then order else order + [e.key], es + [e])
  {
    var b := (if e.key in batch then batch[e.key] else []) + e.line.value + [NEWLINE];
    forall k
      ensures k in batch[e.key := b] <==> ForKey(es + [e], k) != []
      ensures k in batch[e.key := b] ==> batch[e.key := b][k] == BytesOf(ForKey(es + [e], k))
    {
      ForKeyMore(es, e, k);
      if k == e.key { BytesMore(ForKey(es, k), e); }
    }
  }

  lemma {:induction false} BytesMore(es: seq<Encoded>, e: Encoded)
    ensures BytesOf(es + [e]) == BytesOf(es) + e.line.value + [NEWLINE]
    ensures BytesOf([]) == []
  {
    BytesOfConcat(es, [e]);
    BytesOfOne(e);
    assert BytesOf(es) + e.line.value + [NEWLINE] == BytesOf(es) + (e.line.value + [NEWLINE]);
  }

  lemma {:induction false} FreshMore(evs: seq<Event>, seen: set<string>, i: nat)
    requires i < |evs| && Encodable(evs[..i], seen)
    ensures Encodable(evs[..i + 1], seen) <==> (IsFresh(evs, seen, i) ==> evs[i].line.Some?)
    ensures Encodable(evs[..i + 1], seen) ==>
              Fresh(evs[..i + 1], seen) == if IsFresh(evs, seen, i) then Fresh(evs[..i], seen) + [evs[i]] else Fresh(evs[..i], seen)
  {
    var more := evs[..i + 1];
    assert more[..i] == evs[..i];
    assert forall j :: 0 <= j <= i ==> more[j] == evs[j];
    assert IsFresh(more, seen, i) <==> IsFresh(evs, seen, i);
    forall k | 0 <= k < i
      ensures IsFresh(more, seen, k) <==> IsFresh(evs[..i], seen, k)
    {
      assert forall j :: 0 <= j <= k ==> more[j] == evs[..i][j];
    }
    assert forall k :: 0 <= k < i ==> more[k] == evs[..i][k];
  }

  /** How far Gather has come: the lines of the first i events. */
  ghost predicate Gathered(evs: seq<Event>, seen: set<string>, i: nat, batch: map<LogKey, seq<Byte>>, order: seq<LogKey>,
                           written: seq<string>, inBatch: set<string>)
  {
    && i <= |evs| && Encodable(evs[..i], seen)
    && IsBatch(batch, order, Fresh(evs[..i], seen))
    && AreIds(written, Fresh(evs[..i], seen))
    && (forall id :: id in inBatch <==> id !in seen && exists j :: 0 <= j < i && evs[j].id == id)
  }

  ghost predicate AreIds(written: seq<string>, es: seq<Encoded>) {
    |written| == |es| && forall j :: 0 <= j < |written| ==> written[j] == es[j].id
  }

  lemma {:induction false} GatherSkips(evs: seq<Event>, seen: set<string>, i: nat, batch: map<LogKey, seq<Byte>>, order: seq<LogKey>,
                                       written: seq<string>, inBatch: set<string>)
    requires Gathered(evs, seen, i, batch, order, written, inBatch)
    requires i < |evs| && (evs[i].id in seen || evs[i].id in inBatch)
    ensures Gathered(evs, seen, i + 1, batch, order, written, inBatch)
  {
    FreshMore(evs, seen, i);
    assert !IsFresh(evs, seen, i);
  }

  lemma {:induction false} GatherFails(evs: seq<Event>, seen: set<string>, i: nat)
    requires i < |evs| && Encodable(evs[..i], seen) && IsFresh(evs, seen, i) && evs[i].line.None?
    ensures !Encodable(evs, seen)
  {
    FreshMore(evs, seen, i);
    EncodablePrefix(evs, seen, i + 1);
  }

  lemma {:induction false} GatherAdds(evs: seq<Event>, seen: set<string>, i: nat, batch: map<LogKey, seq<Byte>>, order: seq<LogKey>,
                                      written: seq<string>, inBatch: set<string>, b: seq<Byte>)
    requires Gathered(evs, seen, i, batch, order, written, inBatch)
    requires i < |evs| && IsFresh(evs, seen, i) && evs[i].line.Some?
    requires b == (if evs[i].key in batch then batch[evs[i].key] else []) + evs[i].line.value + [NEWLINE]
    ensures Gathered(evs, seen, i + 1, batch[evs[i].key := b], if evs[i].key in batch then order else order + [evs[i].key],
                     written + [evs[i].id], inBatch + {evs[i].id})
  {
    var es := Fresh(evs[..i], seen);
    var more := es + [evs[i]];
    FreshMore(evs, seen, i);
    assert AreIds(written + [evs[i].id], more);
    BatchMore(batch, order, es, evs[i]);
  }

  /** The lines to write, gathered log by log: the first half of WriteEvents. */
  method Gather(evs: seq<Event>, seen: set<string>)
    returns (ok: bool, batch: map<LogKey, seq<Byte>>, order: seq<LogKey>, written: seq<string>)
    ensures ok <==> Encodable(evs, seen)
    ensures ok ==> IsBatch(batch, order, Fresh(evs, seen)) && AreIds(written, Fresh(evs, seen))
  {
    batch, order, written := map[], [], [];
    var inBatch: set<string> := {};
    for i := 0 to |evs|
      invariant Gathered(evs, seen, i, batch, order, written, inBatch)
    {
      var e := evs[i];
      if e.id in seen || e.id in inBatch {
        GatherSkips(evs, seen, i, batch, order, written, inBatch);
        continue;
      }
      assert IsFresh(evs, seen, i);
      if e.line.None? {
        GatherFails(evs, seen, i);
        return false, map[], [], [];
      }
      var b := (if e.key in batch then batch[e.key] else []) + e.line.value + [NEWLINE];
      GatherAdds(evs, seen, i, batch, order, written, inBatch, b);
      inBatch := inBatch + {e.id};
      if e.key !in batch { order := order + [e.key]; }
      batch := batch[e.key := b];
      written := written + [e.id];
    }
    assert evs[..|evs|] == evs;
    ok := true;
  }

  // ----- what a call is to write, event by event

  /** Event i is the batch's first of its id, and the id was not written within the
      window. */
  ghost predicate IsNew(evs: seq<Event>, seen: map<string, int>, now: int, i: int) {
    && 0 <= i < |evs|
    && (forall j :: 0 <= j < i ==> evs[j].id != evs[i].id)
    && !(evs[i].id in seen && now - seen[evs[i].id] <= 600)
  }

  /** The lines of log k, was at first, grow by those of its new events, in the order
      of the batch; at says which they are. */
  ghost predicate GrowsBy(evs: seq<Event>, seen: map<string, int>, now: int, k: LogKey, was: seq<Encoded>, grown: seq<Encoded>, at: seq<nat>) {
    && was <= grown && |grown| == |was| + |at|
    && (forall j {:trigger at[j]} :: 0 <= j < |at| ==>
          IsNew(evs, seen, now, at[j]) && evs[at[j]].key == k && grown[|was| + j] == evs[at[j]])
    && (forall i, j {:trigger at[i], at[j]} :: 0 <= i < j < |at| ==> at[i] < at[j])
    && (forall i: nat {:trigger IsNew(evs, seen, now, i)} :: IsNew(evs, seen, now, i) && evs[i].key == k ==> i in at)
  }

  /** Where the lines for log k of the first n events stand in the batch. */
  lemma {:induction false} FreshPlaces(evs: seq<Event>, seen: set<string>, k: LogKey, n: nat) returns (at: seq<nat>)
    requires n <= |evs| && Encodable(evs[..n], seen)
    ensures var es := ForKey(Fresh(evs[..n], seen), k);
            |at| == |es| && forall j :: 0 <= j < |at| ==> at[j] < n && IsFresh(evs, seen, at[j]) && evs[at[j]].key == k && es[j] == evs[at[j]]
    ensures forall i, j :: 0 <= i < j < |at| ==> at[i] < at[j]
    ensures forall i: nat {:trigger i in at} :: i < n && IsFresh(evs, seen, i) && evs[i].key == k ==> i in at
  {
    at := [];
    if n > 0 {
      assert evs[..n][..n - 1] == evs[..n - 1];
      EncodablePrefix(evs[..n], seen, n - 1);
      FreshMore(evs, seen, n - 1);
      at := FreshPlaces(evs, seen, k, n - 1);
      if IsFresh(evs, seen, n - 1) {
        ForKeyMore(Fresh(evs[..n - 1], seen), evs[n - 1], k);
        if evs[n - 1].key == k { at := at + [n - 1]; }
      }
    }
  }

  /** What is new is what is fresh of the ids not written lately. */
  lemma {:induction false} NewIsFresh(evs: seq<Event>, seen: map<string, int>, now: int)
    ensures forall i: nat {:trigger IsNew(evs, seen, now, i)} :: IsNew(evs, seen, now, i) <==> i < |evs| && IsFresh(evs, Recent(seen, now).Keys, i)
    ensures Encodable(evs, Recent(seen, now).Keys) <==> forall i {:trigger IsNew(evs, seen, now, i)} :: IsNew(evs, seen, now, i) ==> evs[i].line.Some?
  {
    forall i: nat
      ensures IsNew(evs, seen, now, i) <==> i < |evs| && IsFresh(evs, Recent(seen, now).Keys, i)
    {
    }
    if forall i {:trigger IsNew(evs, seen, now, i)} :: IsNew(evs, seen, now, i) ==> evs[i].line.Some? {
      forall i | 0 <= i < |evs| && IsFresh(evs, Recent(seen, now).Keys, i)
        ensures evs[i].line.Some?
      {
        assert IsNew(evs, seen, now, i);
      }
    }
  }

  lemma {:induction false} NewGrow(evs: seq<Event>, seen: map<string, int>, now: int, k: LogKey, was: seq<Encoded>) returns (at: seq<nat>)
    requires Encodable(evs, Recent(seen, now).Keys)
    ensures GrowsBy(evs, seen, now, k, was, was + ForKey(Fresh(evs, Recent(seen, now).Keys), k), at)
  {
    var recent := Recent(seen, now).Keys;
    NewIsFresh(evs, seen, now);
    assert evs[..|evs|] == evs;
    at := FreshPlaces(evs, recent, k, |evs|);
    forall i: nat | IsNew(evs, seen, now, i) && evs[i].key == k
      ensures i in at
    {
      assert IsFresh(evs, recent, i);
    }
  }

  // ----- a log and what it holds

  /** The lines whole in a file, oldest first, and how many of them are synced. */
  datatype History = History(lines: seq<Encoded>, synced: nat)

  function LinesIn(hist: map<LogKey, History>, k: LogKey): seq<Encoded> {
    if k in hist then hist[k].lines else []
  }

  ghost predicate AreTexts(disk: map<LogKey, seq<Byte>>, hist: map<LogKey, History>, offered: set<Encoded>) {
    disk.Keys == hist.Keys &&
    forall k {:trigger IsText(disk[k], hist[k].lines, k, offered)} :: k in disk ==> IsText(disk[k], hist[k].lines, k, offered)
  }

  /** The logs open for append have no torn line. */
  ghost predicate OpenAreWhole(disk: map<LogKey, seq<Byte>>, hist: map<LogKey, History>, files: set<LogKey>) {
    forall k :: k in files ==> k in disk && k in hist && disk[k] == BytesOf(hist[k].lines)
  }

  ghost predicate AreHistories(hist: map<LogKey, History>) {
    forall k :: k in hist ==> hist[k].synced <= |hist[k].lines|
  }

  ghost predicate HaveDurable(hist: map<LogKey, History>, rotated: set<Encoded>, ids: set<string>) {
    forall id {:trigger HasDurable(hist, rotated, id)} :: id in ids ==> HasDurable(hist, rotated, id)
  }

  ghost predicate Durable(hist: map<LogKey, History>, rotated: set<Encoded>, e: Encoded) {
    e in rotated || (e.key in hist && hist[e.key].synced <= |hist[e.key].lines| && e in hist[e.key].lines[..hist[e.key].synced])
  }

  ghost predicate HasDurable(hist: map<LogKey, History>, rotated: set<Encoded>, id: string) {
    exists e :: Durable(hist, rotated, e) && e.id == id
  }

  /** Every line a has, b has, at the same place, and still synced. */
  ghost predicate Extends(a: map<LogKey, History>, b: map<LogKey, History>) {
    forall k {:trigger ExtendsAt(a, b, k)} :: k in a ==> ExtendsAt(a, b, k)
  }

  ghost predicate ExtendsAt(a: map<LogKey, History>, b: map<LogKey, History>, k: LogKey)
    requires k in a
  {
    k in b && a[k].lines <= b[k].lines && a[k].synced <= b[k].synced <= |b[k].lines|
  }

  lemma {:induction false} ExtendsKeepsDurable(a: map<LogKey, History>, b: map<LogKey, History>, rotated: set<Encoded>, e: Encoded)
    requires Extends(a, b) && Durable(a, rotated, e)
    ensures Durable(b, rotated, e)
  {
    if e !in rotated {
      assert ExtendsAt(a, b, e.key);
      var j :| 0 <= j < a[e.key].synced && a[e.key].lines[j] == e;
      assert b[e.key].lines[..b[e.key].synced][j] == e;
    }
  }

  lemma {:induction false} HaveDurableStays(a: map<LogKey, History>, b: map<LogKey, History>, rotated: set<Encoded>, ids: set<string>)
    requires Extends(a, b) && HaveDurable(a, rotated, ids)
    ensures HaveDurable(b, rotated, ids)
  {
    forall id | id in ids
      ensures HasDurable(b, rotated, id)
    {
      assert HasDurable(a, rotated, id);
      var e :| Durable(a, rotated, e) && e.id == id;
      ExtendsKeepsDurable(a, b, rotated, e);
    }
  }

  /** Only the entry of k was written. */
  ghost predicate OnlyAt<V>(k: LogKey, a: map<LogKey, V>, b: map<LogKey, V>) {
    b == a || (k in b && b == a[k := b[k]])
  }

  lemma {:induction false} OnlyAtTransitive<V>(k: LogKey, a: map<LogKey, V>, b: map<LogKey, V>, c: map<LogKey, V>)
    requires OnlyAt(k, a, b) && OnlyAt(k, b, c)
    ensures OnlyAt(k, a, c)
  {
  }

  lemma {:induction false} ExtendsTransitive(a: map<LogKey, History>, b: map<LogKey, History>, c: map<LogKey, History>)
    requires Extends(a, b) && Extends(b, c)
    ensures Extends(a, c)
  {
    forall k | k in a
      ensures ExtendsAt(a, c, k)
    {
      assert ExtendsAt(a, b, k) && ExtendsAt(b, c, k);
    }
  }

  /** n bytes of the lines of es at the end of the log of k, which had no torn line. */
  lemma {:induction false} WriteKeeps(disk: map<LogKey, seq<Byte>>, hist: map<LogKey, History>, offered: set<Encoded>,
                                      k: LogKey, es: seq<Encoded>, n: nat) returns (now: seq<Encoded>)
    requires AreTexts(disk, hist, offered) && AreHistories(hist)
    requires k in disk && disk[k] == BytesOf(hist[k].lines) && n <= |BytesOf(es)|
    requires forall i :: 0 <= i < |es| ==> es[i] in offered && es[i].key == k
    ensures hist[k].lines <= now <= hist[k].lines + es
    ensures n == |BytesOf(es)| ==> now == hist[k].lines + es && disk[k] + BytesOf(es)[..n] == BytesOf(now)
    ensures AreTexts(disk[k := disk[k] + BytesOf(es)[..n]], hist[k := History(now, hist[k].synced)], offered)
    ensures AreHistories(hist[k := History(now, hist[k].synced)])
    ensures Extends(hist, hist[k := History(now, hist[k].synced)])
  {
    now := TextAfterWrite(disk[k], hist[k].lines, es, n, k, offered);
    BytesOfConcat(hist[k].lines, es);
    assert BytesOf(es)[..|BytesOf(es)|] == BytesOf(es);
  }

  // ----- a batch on its way into the logs

  /** Of the lines of es, those of the logs in done are at the end of their logs. */
  ghost predicate Appended(a: map<LogKey, History>, b: map<LogKey, History>, es: seq<Encoded>, done: set<LogKey>) {
    forall k {:trigger LinesIn(b, k)} :: LinesIn(b, k) == if k in done then LinesIn(a, k) + ForKey(es, k) else LinesIn(a, k)
  }

  /** At the end of every log some first of its lines of es. */
  ghost predicate AppendedSome(a: map<LogKey, History>, b: map<LogKey, History>, es: seq<Encoded>) {
    forall k {:trigger LinesIn(b, k)} :: LinesIn(a, k) <= LinesIn(b, k) <= LinesIn(a, k) + ForKey(es, k)
  }

  lemma {:induction false} AppendedMore(a: map<LogKey, History>, b: map<LogKey, History>, c: map<LogKey, History>,
                                        es: seq<Encoded>, done: set<LogKey>, k: LogKey)
    requires Appended(a, b, es, done) && OnlyAt(k, b, c) && k !in done
    requires LinesIn(b, k) <= LinesIn(c, k) <= LinesIn(b, k) + ForKey(es, k)
    ensures AppendedSome(a, c, es)
    ensures LinesIn(c, k) == LinesIn(b, k) + ForKey(es, k) ==> Appended(a, c, es, done + {k})
  {
    forall j
      ensures j != k ==> LinesIn(c, j) == LinesIn(b, j)
    {
    }
  }

  /** At the end of every log its lines of es. */
  ghost predicate AllAppended(a: map<LogKey, History>, b: map<LogKey, History>, es: seq<Encoded>) {
    forall k {:trigger LinesIn(b, k)} :: LinesIn(b, k) == LinesIn(a, k) + ForKey(es, k)
  }

  lemma {:induction false} AppendedSynced(a: map<LogKey, History>, b: map<LogKey, History>, c: map<LogKey, History>, es: seq<Encoded>,
                                          batch: map<LogKey, seq<Byte>>, order: seq<LogKey>)
    requires IsBatch(batch, order, es) && Appended(a, b, es, set k | k in order)
    requires forall k :: LinesIn(c, k) == LinesIn(b, k)
    ensures Appended(a, c, es, set k | k in order) && AllAppended(a, c, es) && AppendedSome(a, c, es)
  {
    forall k
      ensures LinesIn(c, k) == LinesIn(a, k) + ForKey(es, k)
    {
      assert LinesIn(c, k) == LinesIn(b, k);
      assert k !in order ==> ForKey(es, k) == [];
    }
  }

  ghost predicate IsOffered(es: seq<Encoded>, offered: set<Encoded>) {
    forall i :: 0 <= i < |es| ==> es[i] in offered
  }

  lemma {:induction false} OfferedForKey(es: seq<Encoded>, offered: set<Encoded>, k: LogKey)
    requires IsOffered(es, offered)
    ensures forall i :: 0 <= i < |ForKey(es, k)| ==> ForKey(es, k)[i] in offered && ForKey(es, k)[i].key == k
  {
    ForKeyMembers(es, k);
    assert forall i :: 0 <= i < |ForKey(es, k)| ==> ForKey(es, k)[i] in ForKey(es, k);
  }

  lemma {:induction false} TextsMore(disk: map<LogKey, seq<Byte>>, hist: map<LogKey, History>, offered: set<Encoded>, more: set<Encoded>)
    requires AreTexts(disk, hist, offered)
    ensures AreTexts(disk, hist, offered + more)
  {
    forall k | k in disk
      ensures IsText(disk[k], hist[k].lines, k, offered + more)
    {
      assert IsText(disk[k], hist[k].lines, k, offered);
    }
  }

  ghost predicate AllSynced(hist: map<LogKey, History>, keys: seq<LogKey>) {
    forall k :: k in keys ==> k in hist && hist[k].synced == |hist[k].lines|
  }

  /** The lines of es are durable once their logs are synced. */
  lemma {:induction false} SyncedIsDurable(a: map<LogKey, History>, b: map<LogKey, History>, rotated: set<Encoded>, es: seq<Encoded>,
                                           batch: map<LogKey, seq<Byte>>, order: seq<LogKey>, e: Encoded)
    requires IsBatch(batch, order, es) && Appended(a, b, es, set k | k in order) && AllSynced(b, order) && e in es
    ensures Durable(b, rotated, e)
  {
    var k := e.key;
    ForKeyMembers(es, k);
    assert k in order && LinesIn(b, k) == LinesIn(a, k) + ForKey(es, k);
    assert e in LinesIn(b, k);
    assert b[k].lines[..b[k].synced] == b[k].lines;
  }

  /** The ids written no longer ago than the window. */
  function Recent(seen: map<string, int>, now: int): map<string, int> {
    map id | id in seen && now - seen[id] <= RECENT_IDS :: seen[id]
  }

  /** Every line durable before is. */
  ghost predicate KeepsDurable(a: map<LogKey, History>, was: set<Encoded>, b: map<LogKey, History>, rotated: set<Encoded>) {
    forall e {:trigger Durable(b, rotated, e)} :: Durable(a, was, e) ==> Durable(b, rotated, e)
  }

  lemma {:induction false} DurableStays(a: map<LogKey, History>, was: set<Encoded>, b: map<LogKey, History>, rotated: set<Encoded>, ids: set<string>)
    requires HaveDurable(a, was, ids) && KeepsDurable(a, was, b, rotated)
    ensures HaveDurable(b, rotated, ids)
  {
    forall id | id in ids
      ensures HasDurable(b, rotated, id)
    {
      assert HasDurable(a, was, id);
    }
  }

  /** A file cut to n bytes keeps its synced lines. */
  lemma {:induction false} CrashKeeps(disk: map<LogKey, seq<Byte>>, hist: map<LogKey, History>, offered: set<Encoded>, rotated: set<Encoded>,
                                      k: LogKey, n: nat)
    returns (now: seq<Encoded>)
    requires AreTexts(disk, hist, offered) && AreHistories(hist) && k in disk
    requires |BytesOf(hist[k].lines[..hist[k].synced])| <= n <= |disk[k]|
    ensures AreTexts(disk[k := disk[k][..n]], hist[k := History(now, hist[k].synced)], offered)
    ensures AreHistories(hist[k := History(now, hist[k].synced)])
    ensures KeepsDurable(hist, rotated, hist[k := History(now, hist[k].synced)], rotated)
  {
    assert IsText(disk[k], hist[k].lines, k, offered);
    now := TextAfterCrash(disk[k], hist[k].lines, hist[k].synced, n, k, offered);
    assert now[..hist[k].synced] == hist[k].lines[..hist[k].synced];
  }

  /** From a to b log k grew by the lines of its new events, or by some first of them. */
  ghost predicate GrewAll(evs: seq<Event>, seen: map<string, int>, now: int, a: map<LogKey, History>, b: map<LogKey, History>, k: LogKey) {
    exists at :: GrowsBy(evs, seen, now, k, LinesIn(a, k), LinesIn(b, k), at)
  }

  ghost predicate GrewSome(evs: seq<Event>, seen: map<string, int>, now: int, a: map<LogKey, History>, b: map<LogKey, History>, k: LogKey) {
    exists at, grown :: GrowsBy(evs, seen, now, k, LinesIn(a, k), grown, at) && LinesIn(a, k) <= LinesIn(b, k) <= grown
  }

  lemma {:induction false} AllWritten(evs: seq<Event>, seen: map<string, int>, now: int, a: map<LogKey, History>, b: map<LogKey, History>)
    requires Encodable(evs, Recent(seen, now).Keys) && AllAppended(a, b, Fresh(evs, Recent(seen, now).Keys))
    ensures forall k {:trigger GrewAll(evs, seen, now, a, b, k)} :: GrewAll(evs, seen, now, a, b, k)
    ensures forall i {:trigger IsNew(evs, seen, now, i)} :: IsNew(evs, seen, now, i) ==> ForKey(Fresh(evs, Recent(seen, now).Keys), evs[i].key) != []
  {
    forall k
      ensures GrewAll(evs, seen, now, a, b, k)
    {
      var at := NewGrow(evs, seen, now, k, LinesIn(a, k));
      assert LinesIn(b, k) == LinesIn(a, k) + ForKey(Fresh(evs, Recent(seen, now).Keys), k);
    }
    forall i | IsNew(evs, seen, now, i)
      ensures ForKey(Fresh(evs, Recent(seen, now).Keys), evs[i].key) != []
    {
      var at := NewGrow(evs, seen, now, evs[i].key, []);
    }
  }

  lemma {:induction false} SomeWritten(evs: seq<Event>, seen: map<string, int>, now: int, a: map<LogKey, History>, b: map<LogKey, History>)
    requires Encodable(evs, Recent(seen, now).Keys) && AppendedSome(a, b, Fresh(evs, Recent(seen, now).Keys))
    ensures forall k {:trigger GrewSome(evs, seen, now, a, b, k)} :: GrewSome(evs, seen, now, a, b, k)
  {
    forall k
      ensures GrewSome(evs, seen, now, a, b, k)
    {
      var at := NewGrow(evs, seen, now, k, LinesIn(a, k));
      assert LinesIn(b, k) <= LinesIn(a, k) + ForKey(Fresh(evs, Recent(seen, now).Keys), k);
    }
  }

  /** The ids written, and those written lately, are those of the batch and the latter. */
  lemma {:induction false} WrittenIds(evs: seq<Event>, seen: set<string>, written: seq<string>)
    requires Encodable(evs, seen) && AreIds(written, Fresh(evs, seen))
    ensures forall id :: id in written ==> id !in seen
    ensures forall id :: id in seen || id in written <==> id in seen || exists i :: 0 <= i < |evs| && evs[i].id == id
  {
    var es := Fresh(evs, seen);
    forall id | id in written
      ensures id !in seen && exists i :: 0 <= i < |evs| && evs[i].id == id
    {
      var j :| 0 <= j < |written| && written[j] == id;
      FreshFrom(evs, seen, es[j]);
    }
    forall i | 0 <= i < |evs|
      ensures evs[i].id in seen || evs[i].id in written
    {
      FreshCovers(evs, seen, i);
      if evs[i].id !in seen {
        var e :| e in es && e.id == evs[i].id;
        var j :| 0 <= j < |es| && es[j] == e;
        assert written[j] == evs[i].id;
      }
    }
  }

  class Log {
    const fails: nat -> bool             // whether the n-th file operation fails
    var ops: nat                         // operations so far
    var disk: map<LogKey, seq<Byte>>     // the files <project>/<day>.log
    var files: set<LogKey>               // the logs open for append
    var seen: map<string, int>           // when an id was written
    ghost var hist: map<LogKey, History>
    ghost var rotated: set<Encoded>      // lines durable when their log was rotated out
    ghost var offered: set<Encoded>      // events whose lines were handed to a write

    ghost predicate Valid()
      reads this
    {
      && AreTexts(disk, hist, offered)
      && AreHistories(hist)
      && OpenAreWhole(disk, hist, files)
      && HaveDurable(hist, rotated, seen.Keys)
    }

    /** An empty directory. */
    constructor (fails: nat -> bool)
      ensures Valid() && disk == map[] && files == {} && seen == map[] && this.fails == fails
    {
      this.fails, ops := fails, 0;
      disk, files, seen := map[], {}, map[];
      hist, rotated, offered := map[], {}, {};
    }

    /** But that the log of k, open, may end in a torn line. */
    ghost predicate ValidBut(k: LogKey)
      reads this
    {
      && AreTexts(disk, hist, offered)
      && AreHistories(hist)
      && OpenAreWhole(disk, hist, files - {k})
      && HaveDurable(hist, rotated, seen.Keys)
    }

    /** Nothing but the file of k may differ. */
    twostate predicate OnlyLog(k: LogKey)
      reads this
    {
      && seen == old(seen) && rotated == old(rotated) && offered == old(offered)
      && OnlyAt(k, old(disk), disk) && OnlyAt(k, old(hist), hist) && Extends(old(hist), hist)
      && forall j :: j != k ==> (j in files <==> j in old(files))
    }

    /** One of the operations c0 to c1 failed. */
    ghost predicate Failed(c0: nat, c1: nat) {
      exists n :: c0 <= n < c1 && fails(n)
    }

    /** A file operation: whether it succeeds. */
    method Attempt() returns (ok: bool)
      modifies `ops
      ensures ops == old(ops) + 1 && ok == !fails(old(ops)) && (ok <==> !Failed(old(ops), ops))
    {
      ok := !fails(ops);
      ops := ops + 1;
      assert !ok ==> fails(ops - 1);
    }

    /** f.Truncate, of the file of k. */
    method Truncate(k: LogKey, size: nat) returns (ok: bool)
      requires k in disk && size <= |disk[k]|
      modifies `disk, `ops
      ensures ops == old(ops) + 1 && ok == !fails(old(ops)) && (ok <==> !Failed(old(ops), ops))
      ensures disk == if ok then old(disk)[k := old(disk)[k][..size]] else old(disk)
    {
      ok := Attempt();
      if ok { disk := disk[k := disk[k][..size]]; }
    }

    /** cutTornLine, of a file there is. */
    method CutTornLine(k: LogKey) returns (ok: bool)
      requires Valid() && k in disk
      modifies `disk, `ops
      ensures Valid() && old(ops) < ops && (ok <==> !Failed(old(ops), ops))
      ensures disk == if ok then old(disk)[k := BytesOf(hist[k].lines)] else old(disk)
    {
      ok := Attempt();
      if !ok { return; }
      var keep := AfterLastNewline(disk[k]);
      TextEnd(disk[k], hist[k].lines, k, offered);
      EndUnique(disk[k], keep, |BytesOf(hist[k].lines)|);
      if keep == |disk[k]| {
        assert disk[k] == BytesOf(hist[k].lines);
        return true;
      }
      ok := Truncate(k, keep);
      assert BytesOf(hist[k].lines)[|BytesOf(hist[k].lines)|..] == [];
    }

    /** OpenFile with O_CREATE, of a file that is not there. */
    method Create(k: LogKey) returns (ok: bool)
      requires Valid() && k !in disk
      modifies `disk, `hist, `ops
      ensures Valid() && OnlyLog(k)
      ensures ops == old(ops) + 1 && ok == !fails(old(ops)) && (ok <==> !Failed(old(ops), ops))
      ensures disk == if ok then old(disk)[k := []] else old(disk)
      ensures hist == if ok then old(hist)[k := History([], 0)] else old(hist)
    {
      ok := Attempt();
      if ok {
        disk := disk[k := []];
        hist := hist[k := History([], 0)];
        assert BytesOf([]) == [];
      }
      HaveDurableStays(old(hist), hist, rotated, seen.Keys);
    }

    /** The file of k cut back to its whole lines, or begun. */
    method Reopen(k: LogKey) returns (ok: bool)
      requires Valid()
      modifies `disk, `hist, `ops
      ensures Valid() && OnlyLog(k) && old(ops) <= ops && (ok <==> !Failed(old(ops), ops))
      ensures ok ==> k in disk && disk[k] == BytesOf(hist[k].lines)
      ensures LinesIn(hist, k) == LinesIn(old(hist), k)
    {
      if k in disk {
        ok := CutTornLine(k);
      } else {
        ok := Create(k);
      }
    }

    /** file: the open log of k, its torn line cut before it is opened again. */
    method File(k: LogKey) returns (ok: bool)
      requires Valid()
      modifies `disk, `files, `hist, `ops
      ensures Valid() && OnlyLog(k) && old(ops) <= ops && (ok <==> !Failed(old(ops), ops))
      ensures ok ==> k in files
      ensures LinesIn(hist, k) == LinesIn(old(hist), k)
    {
      if k in files { return true; }
      ok := Attempt();
      if !ok { return; }
      ok := Reopen(k);
      if !ok { return; }
      ok := Attempt();
      if !ok { return; }
      files := files + {k};
    }

    /** The lines whole in the log of k, after n bytes of the lines of es were
        written at its end. */
    ghost method Record(k: LogKey, es: seq<Encoded>, n: nat, before: map<LogKey, seq<Byte>>)
      requires AreTexts(before, hist, offered) && AreHistories(hist) && HaveDurable(hist, rotated, seen.Keys)
      requires k in before && before[k] == BytesOf(hist[k].lines) && n <= |BytesOf(es)|
      requires forall i :: 0 <= i < |es| ==> es[i] in offered && es[i].key == k
      requires disk == before[k := before[k] + BytesOf(es)[..n]]
      modifies `hist
      ensures AreTexts(disk, hist, offered) && AreHistories(hist) && HaveDurable(hist, rotated, seen.Keys)
      ensures k in hist && hist == old(hist)[k := hist[k]] && Extends(old(hist), hist)
      ensures LinesIn(old(hist), k) <= LinesIn(hist, k) <= LinesIn(old(hist), k) + es
      ensures n == |BytesOf(es)| ==> LinesIn(hist, k) == LinesIn(old(hist), k) + es && disk[k] == BytesOf(hist[k].lines)
    {
      var now := WriteKeeps(before, hist, offered, k, es, n);
      hist := hist[k := History(now, hist[k].synced)];
      HaveDurableStays(old(hist), hist, rotated, seen.Keys);
    }

    /** f.Write: all of b, the lines of es, or, failing, some first bytes of it. */
    method Write(k: LogKey, b: seq<Byte>, ghost es: seq<Encoded>) returns (n: nat, ok: bool)
      requires Valid() && k in files && b == BytesOf(es)
      requires forall i :: 0 <= i < |es| ==> es[i] in offered && es[i].key == k
      modifies `disk, `hist, `ops
      ensures ops == old(ops) + 1 && ok == !fails(old(ops)) && (ok ==> n == |b|) && (ok <==> !Failed(old(ops), ops))
      ensures ValidBut(k) && n <= |b| && disk == old(disk)[k := old(disk)[k] + b[..n]]
      ensures k in hist && hist == old(hist)[k := hist[k]] && Extends(old(hist), hist)
      ensures LinesIn(old(hist), k) <= LinesIn(hist, k) <= LinesIn(old(hist), k) + es
      ensures n == |b| ==> LinesIn(hist, k) == LinesIn(old(hist), k) + es && disk[k] == BytesOf(hist[k].lines)
    {
      var some: int := *;
      ok := Attempt();
      n := if !ok && 0 <= some <= |b| then some else |b|;
      disk := disk[k := disk[k] + b[..n]];
      Record(k, es, n, old(disk));
    }

    /** Truncate to what the file was before the write; when that fails too, the
        log is closed and forgotten. */
    method CutBack(k: LogKey, size: nat, ghost before: map<LogKey, seq<Byte>>, ghost were: map<LogKey, History>)
      requires ValidBut(k) && k in disk && size <= |disk[k]| && before == disk[k := disk[k][..size]]
      requires disk == before[k := disk[k]] && k in hist && hist == were[k := hist[k]]
      requires AreTexts(before, were, offered) && AreHistories(were)
      requires OpenAreWhole(before, were, files) && HaveDurable(were, rotated, seen.Keys)
      requires Extends(were, hist)
      modifies `disk, `files, `hist, `ops
      ensures ops == old(ops) + 1
      ensures Valid() && k in disk && disk == before[k := disk[k]] && (forall j :: j != k ==> (j in files <==> j in old(files)))
      ensures k in hist && hist == were[k := hist[k]] && Extends(were, hist)
      ensures if fails(old(ops)) then k !in files && disk == old(disk) && hist == old(hist)
              else files == old(files) && disk == before && hist == were
    {
      var cut := Truncate(k, size);
      if !cut {
        files := files - {k};
        assert OpenAreWhole(disk, hist, files);
      } else {
        assert disk == disk[k := disk[k]];
        hist := were;
        assert OpenAreWhole(disk, hist, files) && AreTexts(disk, hist, offered) && AreHistories(hist);
      }
    }

    method WriteOrCutBack(k: LogKey, b: seq<Byte>, ghost es: seq<Encoded>) returns (ok: bool)
      requires Valid() && k in files && b == BytesOf(es)
      requires forall i :: 0 <= i < |es| ==> es[i] in offered && es[i].key == k
      modifies `disk, `files, `hist, `ops
      ensures old(ops) <= ops && (ok <==> !Failed(old(ops), ops))
      ensures Valid() && k in disk && disk == old(disk)[k := disk[k]] && (forall j :: j != k ==> (j in files <==> j in old(files)))
      ensures k in hist && hist == old(hist)[k := hist[k]] && Extends(old(hist), hist)
      ensures ok ==> k in files && LinesIn(hist, k) == LinesIn(old(hist), k) + es
      ensures LinesIn(old(hist), k) <= LinesIn(hist, k) <= LinesIn(old(hist), k) + es
    {
      var size := |disk[k]|;
      var n;
      n, ok := Write(k, b, es);
      if !ok {
        assert old(disk) == disk[k := disk[k][..size]];
        CutBack(k, size, old(disk), old(hist));
      }
    }

    /** append: b, the lines of es, in one write; cut back when it fails or
        falls short, and the file closed when that fails too. */
    method Append(k: LogKey, b: seq<Byte>, ghost es: seq<Encoded>) returns (ok: bool)
      requires Valid() && k in files && b == BytesOf(es)
      requires forall i :: 0 <= i < |es| ==> es[i] in offered && es[i].key == k
      modifies `disk, `files, `hist, `ops
      ensures Valid() && OnlyLog(k) && old(ops) <= ops && (ok <==> !Failed(old(ops), ops))
      ensures ok ==> k in files && LinesIn(hist, k) == LinesIn(old(hist), k) + es
      ensures LinesIn(old(hist), k) <= LinesIn(hist, k) <= LinesIn(old(hist), k) + es
    {
      ok := Attempt();
      if ok { ok := WriteOrCutBack(k, b, es); }
    }

    /** The log of k opened if need be, and b appended. */
    method AppendTo(k: LogKey, b: seq<Byte>, ghost es: seq<Encoded>) returns (ok: bool)
      requires Valid() && b == BytesOf(es)
      requires forall i :: 0 <= i < |es| ==> es[i] in offered && es[i].key == k
      modifies `disk, `files, `hist, `ops
      ensures Valid() && OnlyLog(k) && old(ops) <= ops && (ok <==> !Failed(old(ops), ops))
      ensures forall j :: j in old(files) && j != k ==> j in files
      ensures ok ==> k in files && LinesIn(hist, k) == LinesIn(old(hist), k) + es
      ensures LinesIn(old(hist), k) <= LinesIn(hist, k) <= LinesIn(old(hist), k) + es
    {
      ok := File(k);
      if ok {
        ghost var d, h := disk, hist;
        ok := Append(k, b, es);
        OnlyAtTransitive(k, old(disk), d, disk);
        OnlyAtTransitive(k, old(hist), h, hist);
        ExtendsTransitive(old(hist), h, hist);
      }
    }

    /** The next log's lines of the batch, after those of done. */
    method AppendNext(k: LogKey, b: seq<Byte>, ghost es: seq<Encoded>, ghost done: set<LogKey>, ghost began: map<LogKey, History>)
      returns (ok: bool)
      requires Valid() && b == BytesOf(ForKey(es, k)) && IsOffered(es, offered)
      requires Extends(began, hist) && Appended(began, hist, es, done) && done <= files && k !in done
      modifies `disk, `files, `hist, `ops
      ensures Valid() && Extends(began, hist) && old(ops) <= ops && (ok <==> !Failed(old(ops), ops))
      ensures if ok then Appended(began, hist, es, done + {k}) && done + {k} <= files else AppendedSome(began, hist, es)
    {
      OfferedForKey(es, offered, k);
      ok := AppendTo(k, b, ForKey(es, k));
      AppendedMore(began, old(hist), hist, es, done, k);
      ExtendsTransitive(began, old(hist), hist);
    }

    /** The batch appended, log by log, until one fails. */
    method AppendAll(batch: map<LogKey, seq<Byte>>, order: seq<LogKey>, ghost es: seq<Encoded>) returns (ok: bool)
      requires Valid() && IsBatch(batch, order, es) && IsOffered(es, offered)
      modifies `disk, `files, `hist, `ops
      ensures Valid() && Extends(old(hist), hist) && old(ops) <= ops && (ok <==> !Failed(old(ops), ops))
      ensures if ok then Appended(old(hist), hist, es, set k | k in order) && (set k | k in order) <= files
              else AppendedSome(old(hist), hist, es)
    {
      ghost var done: set<LogKey> := {};
      for i := 0 to |order|
        invariant Valid() && Extends(old(hist), hist) && old(ops) <= ops && !Failed(old(ops), ops)
        invariant Appended(old(hist), hist, es, done) && done <= files
        invariant forall k :: k in done <==> k in order[..i]
      {
        NotBefore(order, i);
        ok := AppendNext(order[i], batch[order[i]], es, done, old(hist));
        if !ok { return; }
        PrefixMore(order, i);
        done := done + {order[i]};
      }
      assert order[..|order|] == order;
      assert done == set k | k in order;
      ok := true;
    }

    /** Every log appended to synced; ok when none failed. */
    method SyncAll(touched: seq<LogKey>) returns (ok: bool)
      requires Valid() && forall k :: k in touched ==> k in files
      modifies `hist, `ops
      ensures Valid() && Extends(old(hist), hist) && (ok ==> AllSynced(hist, touched))
      ensures ops == old(ops) + |touched| && (ok <==> !Failed(old(ops), ops))
      ensures forall k :: LinesIn(hist, k) == LinesIn(old(hist), k)
    {
      ok := true;
      for i := 0 to |touched|
        invariant Valid() && Extends(old(hist), hist) && ops == old(ops) + i && (ok <==> !Failed(old(ops), ops))
        invariant ok ==> AllSynced(hist, touched[..i])
        invariant forall k :: LinesIn(hist, k) == LinesIn(old(hist), k)
      {
        assert touched[..i + 1] == touched[..i] + [touched[i]];
        ghost var h := hist;
        var synced := Sync(touched[i]);
        if !synced { ok := false; }
        ExtendsTransitive(old(hist), h, hist);
      }
      assert touched[..|touched|] == touched;
    }

    /** f.Sync: when it succeeds every line of the log is durable. */
    method Sync(k: LogKey) returns (ok: bool)
      requires Valid() && k in files
      modifies `hist, `ops
      ensures Valid() && Extends(old(hist), hist) && k in old(hist)
      ensures ops == old(ops) + 1 && ok == !fails(old(ops)) && (ok <==> !Failed(old(ops), ops))
      ensures hist == if ok then old(hist)[k := History(old(hist)[k].lines, |old(hist)[k].lines|)] else old(hist)
    {
      ok := Attempt();
      if ok { hist := hist[k := History(hist[k].lines, |hist[k].lines|)]; }
      HaveDurableStays(old(hist), hist, rotated, seen.Keys);
    }

    /** The ids written longer ago than the window forgotten. */
    method Prune(now: int)
      requires Valid()
      modifies `seen
      ensures Valid() && seen == Recent(old(seen), now)
    {
      var rest := seen.Keys;
      while rest != {}
        invariant seen.Keys <= old(seen).Keys && rest <= old(seen).Keys
        invariant forall id :: id in seen ==> seen[id] == old(seen)[id]
        invariant forall id :: id in old(seen) && id !in rest ==> (id in seen <==> now - old(seen)[id] <= RECENT_IDS)
        invariant forall id :: id in rest ==> id in seen
        decreases rest
      {
        var id :| id in rest;
        rest := rest - {id};
        if now - seen[id] > RECENT_IDS { seen := seen - {id}; }
      }
    }

    /** The ids of a batch whose lines are durable remembered. */
    method Remember(written: seq<string>, now: int, ghost es: seq<Encoded>)
      requires Valid() && AreIds(written, es) && forall i :: 0 <= i < |es| ==> Durable(hist, rotated, es[i])
      modifies `seen
      ensures Valid() && seen.Keys == old(seen).Keys + set id | id in written
      ensures forall id :: id in old(seen) && id !in written ==> seen[id] == old(seen)[id]
      ensures forall id :: id in written ==> seen[id] == now
    {
      for i := 0 to |written|
        invariant Valid()
        invariant seen.Keys == old(seen).Keys + set id | id in written[..i]
        invariant forall id :: id in old(seen) && id !in written[..i] ==> seen[id] == old(seen)[id]
        invariant forall id :: id in written[..i] ==> seen[id] == now
      {
        assert written[..i + 1] == written[..i] + [written[i]];
        assert Durable(hist, rotated, es[i]) && HasDurable(hist, rotated, written[i]);
        seen := seen[written[i] := now];
      }
      assert written[..|written|] == written;
    }

    /** The batch appended, then every log it touched synced. */
    method WriteBatch(batch: map<LogKey, seq<Byte>>, order: seq<LogKey>, ghost es: seq<Encoded>) returns (ok: bool)
      requires Valid() && IsBatch(batch, order, es) && IsOffered(es, offered)
      modifies `disk, `files, `hist, `ops
      ensures Valid() && Extends(old(hist), hist) && old(ops) <= ops && (ok <==> !Failed(old(ops), ops))
      ensures ok ==> AllAppended(old(hist), hist, es) && forall i :: 0 <= i < |es| ==> Durable(hist, rotated, es[i])
      ensures ok ==> forall k :: ForKey(es, k) != [] ==> k in disk && k in hist && disk[k] == BytesOf(hist[k].lines)
      ensures !ok ==> AppendedSome(old(hist), hist, es)
    {
      ok := AppendAll(batch, order, es);
      if !ok { return; }
      ghost var h := hist;
      ok := SyncAll(order);
      ExtendsTransitive(old(hist), h, hist);
      AppendedSynced(old(hist), h, hist, es, batch, order);
      if ok {
        forall i | 0 <= i < |es|
          ensures Durable(hist, rotated, es[i])
        {
          SyncedIsDurable(old(hist), hist, rotated, es, batch, order, es[i]);
        }
      }
    }

    /** WriteEvents. When it succeeds, every log ends in the lines of the batch's new
        events for it, whole on disk, and a line of every id of the batch is durable. It
        fails when a line cannot be encoded or a file operation fails; then no id is
        remembered, and every log holds some first of the lines meant for it. */
    method WriteEvents(evs: seq<Event>, now: int) returns (ok: bool)
      requires Valid()
      modifies this
      ensures Valid() && Extends(old(hist), hist) && rotated == old(rotated)
      ensures old(ops) <= ops
      ensures ok <==>
                !Failed(old(ops), ops) &&
                forall i {:trigger IsNew(evs, old(seen), now, i)} :: IsNew(evs, old(seen), now, i) ==> evs[i].line.Some?
      ensures (exists i {:trigger IsNew(evs, old(seen), now, i)} :: IsNew(evs, old(seen), now, i) && evs[i].line.None?) ==>
                !ok && disk == old(disk) && hist == old(hist)
      ensures ok ==> forall k {:trigger GrewAll(evs, old(seen), now, old(hist), hist, k)} :: GrewAll(evs, old(seen), now, old(hist), hist, k)
      ensures ok ==> forall i {:trigger IsNew(evs, old(seen), now, i)} :: IsNew(evs, old(seen), now, i) ==>
                evs[i].key in disk && disk[evs[i].key] == BytesOf(LinesIn(hist, evs[i].key))
      ensures ok ==> forall i :: 0 <= i < |evs| ==> HasDurable(hist, rotated, evs[i].id)
      ensures !ok && hist != old(hist) ==> forall k {:trigger GrewSome(evs, old(seen), now, old(hist), hist, k)} ::
                GrewSome(evs, old(seen), now, old(hist), hist, k)
      ensures forall id :: id in seen <==>
                (id in old(seen) && now - old(seen)[id] <= 600) || (ok && exists i :: 0 <= i < |evs| && evs[i].id == id)
      ensures forall id :: id in seen ==> seen[id] == if id in old(seen) && now - old(seen)[id] <= 600 then old(seen)[id] else now
    {
      NewIsFresh(evs, seen, now);
      Prune(now);
      var batch, order, written;
      ok, batch, order, written := Gather(evs, seen.Keys);
      if ok { ok := WriteGathered(evs, batch, order, written, now, old(seen)); }
    }

    /** The lines gathered appended and synced, and their ids remembered. */
    method WriteGathered(ghost evs: seq<Event>, batch: map<LogKey, seq<Byte>>, order: seq<LogKey>, written: seq<string>, now: int,
                         ghost were: map<string, int>) returns (ok: bool)
      requires Valid() && seen == Recent(were, now) && Encodable(evs, seen.Keys)
      requires IsBatch(batch, order, Fresh(evs, seen.Keys)) && AreIds(written, Fresh(evs, seen.Keys))
      modifies this
      ensures Valid() && Extends(old(hist), hist) && rotated == old(rotated) && old(ops) <= ops && (ok <==> !Failed(old(ops), ops))
      ensures ok ==> forall k {:trigger GrewAll(evs, were, now, old(hist), hist, k)} :: GrewAll(evs, were, now, old(hist), hist, k)
      ensures ok ==> forall i {:trigger IsNew(evs, were, now, i)} :: IsNew(evs, were, now, i) ==>
                evs[i].key in disk && disk[evs[i].key] == BytesOf(LinesIn(hist, evs[i].key))
      ensures !ok ==> forall k {:trigger GrewSome(evs, were, now, old(hist), hist, k)} :: GrewSome(evs, were, now, old(hist), hist, k)
      ensures forall id :: id in seen <==> id in old(seen) || (ok && exists i :: 0 <= i < |evs| && evs[i].id == id)
      ensures forall id :: id in seen ==> seen[id] == if id in old(seen) then old(seen)[id] else now
    {
      ghost var es := Fresh(evs, seen.Keys);
      TextsMore(disk, hist, offered, set e | e in es);
      offered := offered + set e | e in es;
      ok := WriteBatch(batch, order, es);
      if !ok {
        SomeWritten(evs, were, now, old(hist), hist);
        return;
      }
      AllWritten(evs, were, now, old(hist), hist);
      WrittenIds(evs, seen.Keys, written);
      Remember(written, now, es);
    }

    /** Rotate: the log of k closed and renamed away; what it held. */
    method Rotate(k: LogKey) returns (ok: bool, moved: Option<seq<Byte>>)
      requires Valid()
      modifies `disk, `files, `hist, `rotated, `ops
      ensures Valid() && k !in files && old(ops) <= ops && (ok <==> !Failed(old(ops), ops))
      ensures moved.Some? <==> ok && k in old(disk)
      ensures moved.Some? ==> moved.value == old(disk)[k] && IsText(moved.value, old(hist)[k].lines, k, offered)
      ensures k in old(files) ==> old(ops) < ops
      ensures k in old(disk) ==> old(ops) < ops
      ensures moved.Some? ==> disk == old(disk) - {k} && hist == old(hist) - {k}
      ensures moved.None? ==> disk == old(disk) && hist == old(hist) && rotated == old(rotated)
      ensures KeepsDurable(old(hist), old(rotated), hist, rotated)
    {
      ok, moved := true, None;
      if k in files {
        files := files - {k};
        ok := Attempt();
        if !ok { return; }
      }
      if k !in disk { return; }
      ok := Attempt();
      if !ok { return; }
      assert IsText(disk[k], hist[k].lines, k, offered);
      ok, moved := true, Some(disk[k]);
      disk := disk - {k};
      RotateHistory(k);
    }

    ghost method RotateHistory(k: LogKey)
      requires k in hist && AreHistories(hist) && HaveDurable(hist, rotated, seen.Keys)
      modifies `hist, `rotated
      ensures hist == old(hist) - {k} && AreHistories(hist) && HaveDurable(hist, rotated, seen.Keys)
      ensures KeepsDurable(old(hist), old(rotated), hist, rotated)
    {
      rotated := rotated + set e | e in hist[k].lines[..hist[k].synced];
      hist := hist - {k};
      DurableStays(old(hist), old(rotated), hist, rotated, seen.Keys);
    }

    /** The process stops: what was open or remembered is gone. */
    method Crash()
      requires Valid()
      modifies `files, `seen
      ensures Valid() && files == {} && seen == map[]
    {
      files, seen := {}, map[];
    }

    /** What a crash may do to each file: its end that was never synced is gone,
        cut anywhere in a line. */
    method Lose(k: LogKey, n: nat)
      requires Valid() && files == {} && seen == map[] && k in disk
      requires |BytesOf(hist[k].lines[..hist[k].synced])| <= n <= |disk[k]|
      modifies `disk, `hist
      ensures Valid() && disk == old(disk)[k := old(disk)[k][..n]]
      ensures k in hist && hist == old(hist)[k := hist[k]]
      ensures KeepsDurable(old(hist), old(rotated), hist, rotated)
    {
      ghost var now := CrashKeeps(disk, hist, offered, rotated, k, n);
      disk := disk[k := disk[k][..n]];
      hist := hist[k := History(now, hist[k].synced)];
    }

    /** OpenLog: every log cut back to its whole lines, or no log is opened. */
    method Open() returns (ok: bool)
      requires Valid()
      modifies `disk, `ops
      ensures Valid() && old(ops) <= ops && (ok <==> !Failed(old(ops), ops))
      ensures ok ==> forall k :: k in disk ==> disk[k] == BytesOf(hist[k].lines)
    {
      var rest := disk.Keys;
      while rest != {}
        invariant Valid() && rest <= disk.Keys && old(ops) <= ops && !Failed(old(ops), ops)
        invariant forall k :: k in disk && k !in rest ==> disk[k] == BytesOf(hist[k].lines)
        decreases rest
      {
        var k :| k in rest;
        rest := rest - {k};
        ok := CutTornLine(k);
        if !ok { return; }
      }
      ok := true;
    }
  }
}
