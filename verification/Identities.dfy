/** One project's identities, folded from its events one at a time, part by
    part. */
module Identities {
  import opened Keyed
  import opened Rows

  datatype IdentityKey = IdentityKey(isGroup: bool, id: string)

  datatype Identity = Identity(name: string, named: bool, nameAt: int, first: int, last: int, views: nat, events: nat)

  /** An event of an identity: the name it carries, if any, when, and whether it
      is a view or a product event. */
  datatype Seen = Seen(key: IdentityKey, name: Option<string>, ts: int, view: bool)

  const IDENTITY_BYTES := 112

  function Min(a: int, b: int): int {
    if a < b then a else b
  }

  function Max(a: int, b: int): int {
    if a > b then a else b
  }

  // ----- what an identity says of its events

  function Views(es: seq<Seen>): nat {
    if es == [] then 0 else Views(es[..|es| - 1]) + if es[|es| - 1].view then 1 else 0
  }

  ghost predicate IsLeast(x: int, es: seq<Seen>) {
    (exists i :: 0 <= i < |es| && es[i].ts == x) && forall i :: 0 <= i < |es| ==> x <= es[i].ts
  }

  ghost predicate IsGreatest(x: int, es: seq<Seen>) {
    (exists i :: 0 <= i < |es| && es[i].ts == x) && forall i :: 0 <= i < |es| ==> es[i].ts <= x
  }

  /** The event at i carries the name: the latest that has one, of equally late
      ones the first. */
  predicate Names(es: seq<Seen>, i: nat) {
    && i < |es| && es[i].name.Some?
    && (forall j :: 0 <= j < |es| && es[j].name.Some? ==> es[j].ts < es[i].ts || (es[j].ts == es[i].ts && i <= j))
  }

  ghost predicate NameOk(x: Identity, es: seq<Seen>) {
    if x.named then exists i: nat :: Names(es, i) && x.name == es[i].name.value && x.nameAt == es[i].ts
    else x.name == "" && x.nameAt == 0 && forall i :: 0 <= i < |es| ==> es[i].name.None?
  }

  /** x is what es, the events of one identity, come to. */
  ghost predicate IsIdentityOf(x: Identity, es: seq<Seen>) {
    && NameOk(x, es)
    && IsLeast(x.first, es) && IsGreatest(x.last, es)
    && x.views == Views(es) && x.events == |es| - Views(es)
  }

  lemma {:induction false} IdentityUnique(x: Identity, y: Identity, es: seq<Seen>)
    requires IsIdentityOf(x, es) && IsIdentityOf(y, es)
    ensures x == y
  {
    assert x.first == y.first && x.last == y.last;
    if x.named && y.named {
      var i: nat :| Names(es, i) && x.name == es[i].name.value && x.nameAt == es[i].ts;
      var j: nat :| Names(es, j) && y.name == es[j].name.value && y.nameAt == es[j].ts;
      assert i == j;
    }
  }

  // ----- one identity, one event or one part more

  function Take(x: Identity, name: string, nameAt: int): Identity {
    if !x.named || nameAt > x.nameAt then x.(name := name, named := true, nameAt := nameAt) else x
  }

  function Count(x: Identity, e: Seen): Identity {
    var named := match e.name case Some(n) => Take(x, n, e.ts) case None => x;
    var timed := named.(first := Min(named.first, e.ts), last := Max(named.last, e.ts));
    if e.view then timed.(views := timed.views + 1) else timed.(events := timed.events + 1)
  }

  function New(e: Seen): Identity {
    Identity("", false, 0, e.ts, e.ts, 0, 0)
  }

  function Join(x: Identity, y: Identity): Identity {
    var named := if y.named then Take(x, y.name, y.nameAt) else x;
    named.(first := Min(x.first, y.first), last := Max(x.last, y.last), views := x.views + y.views, events := x.events + y.events)
  }

  lemma {:induction false} ViewsConcat(a: seq<Seen>, b: seq<Seen>)
    ensures Views(a + b) == Views(a) + Views(b) <= |a| + |b|
  {
    if b == [] {
      assert a + b == a;
      if a != [] { ViewsConcat(a[..|a| - 1], []); assert a[..|a| - 1] + [] == a[..|a| - 1]; }
    } else {
      assert (a + b)[..|a + b| - 1] == a + b[..|b| - 1];
      ViewsConcat(a, b[..|b| - 1]);
    }
  }

  lemma {:induction false} JoinNames(x: Identity, a: seq<Seen>, y: Identity, b: seq<Seen>)
    requires NameOk(x, a) && NameOk(y, b)
    ensures NameOk(Join(x, y), a + b)
  {
    var z, c := Join(x, y), a + b;
    if y.named && (!x.named || y.nameAt > x.nameAt) {
      var i: nat :| Names(b, i) && y.name == b[i].name.value && y.nameAt == b[i].ts;
      assert c[|a| + i] == b[i];
      if x.named { var k: nat :| Names(a, k) && x.nameAt == a[k].ts; }
      assert Names(c, |a| + i);
    } else if x.named {
      var i: nat :| Names(a, i) && x.name == a[i].name.value && x.nameAt == a[i].ts;
      assert c[i] == a[i];
      if y.named { var k: nat :| Names(b, k) && y.nameAt == b[k].ts; }
      assert Names(c, i);
    }
  }

  lemma {:induction false} JoinTimes(x: Identity, a: seq<Seen>, y: Identity, b: seq<Seen>)
    requires IsLeast(x.first, a) && IsLeast(y.first, b) && IsGreatest(x.last, a) && IsGreatest(y.last, b)
    ensures IsLeast(Min(x.first, y.first), a + b) && IsGreatest(Max(x.last, y.last), a + b)
  {
    var c := a + b;
    assert forall i :: 0 <= i < |a| ==> c[i] == a[i];
    assert forall i :: 0 <= i < |b| ==> c[|a| + i] == b[i];
  }

  /** Joining what two parts came to is what the parts together come to. */
  lemma {:induction false} JoinOk(x: Identity, a: seq<Seen>, y: Identity, b: seq<Seen>)
    requires IsIdentityOf(x, a) && IsIdentityOf(y, b)
    ensures IsIdentityOf(Join(x, y), a + b)
  {
    JoinNames(x, a, y, b);
    JoinTimes(x, a, y, b);
    ViewsConcat(a, b);
  }

  /** One event comes to what it says. */
  lemma {:induction false} NewOk(e: Seen)
    ensures IsIdentityOf(Count(New(e), e), [e])
  {
    var x := Count(New(e), e);
    assert [e][0] == e && [e][..0] == [];
    if e.name.Some? { assert Names([e], 0); }
  }

  lemma {:induction false} CountOk(x: Identity, es: seq<Seen>, e: Seen)
    requires IsIdentityOf(x, es)
    ensures IsIdentityOf(Count(x, e), es + [e])
  {
    NewOk(e);
    JoinOk(x, es, Count(New(e), e), [e]);
    assert Count(x, e) == Join(x, Count(New(e), e));
  }

  // ----- a part's identities

  predicate HasKey(e: Seen, k: IdentityKey) {
    e.key == k
  }

  function EventsOf(es: seq<Seen>, k: IdentityKey): seq<Seen> {
    EventsFor(es, HasKey, k)
  }

  /** m is what the events of es come to, identity by identity. */
  ghost predicate IsOf(m: map<IdentityKey, Identity>, es: seq<Seen>) {
    && (forall k {:trigger EventsOf(es, k)} :: k in m <==> EventsOf(es, k) != [])
    && (forall k {:trigger IsIdentityOf(m[k], EventsOf(es, k))} :: k in m ==> IsIdentityOf(m[k], EventsOf(es, k)))
  }

  /** Events come to one set of identities, however they were taken in. */
  lemma {:induction false} IdentitiesUnique(m: map<IdentityKey, Identity>, n: map<IdentityKey, Identity>, es: seq<Seen>)
    requires IsOf(m, es) && IsOf(n, es)
    ensures m == n
  {
    forall k
      ensures (k in m <==> k in n) && (k in m ==> m[k] == n[k])
    {
      assert k in m <==> EventsOf(es, k) != [];
      if k in m { IdentityUnique(m[k], n[k], EventsOf(es, k)); }
    }
  }

  function CountIn(m: map<IdentityKey, Identity>, e: Seen): map<IdentityKey, Identity> {
    m[e.key := Count(if e.key in m then m[e.key] else New(e), e)]
  }

  lemma {:induction false} CountInAt(m: map<IdentityKey, Identity>, es: seq<Seen>, e: Seen, k: IdentityKey)
    requires IsOf(m, es)
    ensures k in CountIn(m, e) <==> EventsOf(es + [e], k) != []
    ensures k in CountIn(m, e) ==> IsIdentityOf(CountIn(m, e)[k], EventsOf(es + [e], k))
  {
    var x := EventsOf(es, k);
    EventsForConcat(es, [e], HasKey, k);
    EventsForOne(e, HasKey, k);
    assert k in m <==> x != [];
    if k != e.key {
      assert x + [] == x;
      assert k in m ==> IsIdentityOf(m[k], x);
    } else if k in m {
      CountOk(m[k], x, e);
    } else {
      NewOk(e);
    }
  }

  lemma {:induction false} CountInOk(m: map<IdentityKey, Identity>, es: seq<Seen>, e: Seen)
    requires IsOf(m, es)
    ensures IsOf(CountIn(m, e), es + [e])
  {
    forall k
      ensures k in CountIn(m, e) <==> EventsOf(es + [e], k) != []
      ensures k in CountIn(m, e) ==> IsIdentityOf(CountIn(m, e)[k], EventsOf(es + [e], k))
    {
      CountInAt(m, es, e, k);
    }
  }

  ghost predicate IsFolded(m: map<IdentityKey, Identity>, o: map<IdentityKey, Identity>, r: map<IdentityKey, Identity>) {
    && r.Keys == m.Keys + o.Keys
    && forall k {:trigger r[k]} :: k in r ==>
         r[k] == if k in m && k in o then Join(m[k], o[k]) else if k in m then m[k] else o[k]
  }

  lemma {:induction false} FoldAt(m: map<IdentityKey, Identity>, a: seq<Seen>, o: map<IdentityKey, Identity>, b: seq<Seen>,
                                  r: map<IdentityKey, Identity>, k: IdentityKey)
    requires IsOf(m, a) && IsOf(o, b) && IsFolded(m, o, r)
    ensures k in r <==> EventsOf(a + b, k) != []
    ensures k in r ==> IsIdentityOf(r[k], EventsOf(a + b, k))
  {
    var x, y := EventsOf(a, k), EventsOf(b, k);
    EventsForConcat(a, b, HasKey, k);
    assert (k in m <==> x != []) && (k in o <==> y != []);
    if k in m && k in o {
      JoinOk(m[k], x, o[k], y);
    } else if k in m {
      assert x + y == x;
    } else if k in o {
      assert x + y == y;
    }
  }

  /** Folding in what another part came to is as taking in its events. */
  lemma {:induction false} FoldOk(m: map<IdentityKey, Identity>, a: seq<Seen>, o: map<IdentityKey, Identity>, b: seq<Seen>, r: map<IdentityKey, Identity>)
    requires IsOf(m, a) && IsOf(o, b) && IsFolded(m, o, r)
    ensures IsOf(r, a + b)
  {
    forall k
      ensures k in r <==> EventsOf(a + b, k) != []
      ensures k in r ==> IsIdentityOf(r[k], EventsOf(a + b, k))
    {
      FoldAt(m, a, o, b, r, k);
    }
  }

  /** r is what ms fold to, one after another. */
  ghost predicate IsFoldOf(ms: seq<map<IdentityKey, Identity>>, r: map<IdentityKey, Identity>) {
    if ms == [] then r == map[]
    else exists x {:trigger IsFolded(x, ms[|ms| - 1], r)} :: IsFoldOf(ms[..|ms| - 1], x) && IsFolded(x, ms[|ms| - 1], r)
  }

  function Joined(parts: seq<seq<Seen>>): seq<Seen> {
    if parts == [] then [] else Joined(parts[..|parts| - 1]) + parts[|parts| - 1]
  }

  lemma {:induction false} FoldOfParts(ms: seq<map<IdentityKey, Identity>>, parts: seq<seq<Seen>>, r: map<IdentityKey, Identity>)
    requires |ms| == |parts| && (forall i :: 0 <= i < |ms| ==> IsOf(ms[i], parts[i])) && IsFoldOf(ms, r)
    ensures IsOf(r, Joined(parts))
  {
    if ms != [] {
      var n := |ms| - 1;
      var x :| IsFoldOf(ms[..n], x) && IsFolded(x, ms[n], r);
      FoldOfParts(ms[..n], parts[..n], x);
      FoldOk(x, Joined(parts[..n]), ms[n], parts[n], r);
    }
  }

  /** However events are split into parts, folding the parts in order gives
      what taking them in one at a time gives. */
  lemma {:induction false} SplitsAgree(ms: seq<map<IdentityKey, Identity>>, parts: seq<seq<Seen>>, r: map<IdentityKey, Identity>,
                                       m: map<IdentityKey, Identity>)
    requires |ms| == |parts| && (forall i :: 0 <= i < |ms| ==> IsOf(ms[i], parts[i])) && IsFoldOf(ms, r)
    requires IsOf(m, Joined(parts))
    ensures r == m
  {
    FoldOfParts(ms, parts, r);
    IdentitiesUnique(r, m, Joined(parts));
  }

  // ----- what a part takes

  function BytesOfOne(k: IdentityKey, x: Identity): nat {
    IDENTITY_BYTES + |k.id| + |x.name|
  }

  ghost function BytesOf(m: map<IdentityKey, Identity>): nat {
    if m == map[] then 0 else
      var k :| k in m;
      BytesOfOne(k, m[k]) + BytesOf(m - {k})
  }

  lemma {:induction false} BytesWithout(m: map<IdentityKey, Identity>, k: IdentityKey)
    requires k in m
    ensures BytesOf(m) == BytesOfOne(k, m[k]) + BytesOf(m - {k})
    decreases |m|
  {
    var j :| j in m && BytesOf(m) == BytesOfOne(j, m[j]) + BytesOf(m - {j});
    if j != k {
      BytesWithout(m - {j}, k);
      BytesWithout(m - {k}, j);
      assert m - {j} - {k} == m - {k} - {j};
    }
  }

  lemma {:induction false} BytesUpdate(m: map<IdentityKey, Identity>, k: IdentityKey, x: Identity)
    ensures BytesOf(m[k := x]) == BytesOf(m) + BytesOfOne(k, x) - if k in m then BytesOfOne(k, m[k]) else 0
  {
    BytesWithout(m[k := x], k);
    assert m[k := x] - {k} == m - {k};
    if k in m { BytesWithout(m, k); } else { assert m - {k} == m; }
  }

  function Restrict(m: map<IdentityKey, Identity>, keys: set<IdentityKey>): map<IdentityKey, Identity> {
    map k | k in m && k in keys :: m[k]
  }

  lemma {:induction false} FoldMore(m: map<IdentityKey, Identity>, o: map<IdentityKey, Identity>, done: set<IdentityKey>,
                                    r: map<IdentityKey, Identity>, k: IdentityKey)
    requires IsFolded(m, Restrict(o, done), r) && k in o && k !in done
    ensures k in r <==> k in m
    ensures k in m ==> r[k] == m[k]
    ensures IsFolded(m, Restrict(o, done + {k}), r[k := if k in m then Join(m[k], o[k]) else o[k]])
  {
  }

  class IdentityMap {
    var m: map<IdentityKey, Identity>
    ghost var seen: seq<Seen>

    /** m is what the events seen come to. */
    ghost predicate Valid()
      reads this
    {
      IsOf(m, seen)
    }

    constructor ()
      ensures Valid() && seen == []
    {
      m, seen := map[], [];
    }

    /** See: one event more. */
    method See(e: Seen) returns (grew: int)
      requires Valid()
      modifies this
      ensures Valid() && seen == old(seen) + [e]
      ensures grew == BytesOf(m) - BytesOf(old(m))
    {
      var k := e.key;
      var cur: Identity;
      if k in m {
        cur, grew := m[k], 0;
      } else {
        cur, grew := Identity("", false, 0, e.ts, e.ts, 0, 0), IDENTITY_BYTES + |k.id|;
      }
      if e.name.Some? && (!cur.named || e.ts > cur.nameAt) {
        grew := grew + |e.name.value| - |cur.name|;
        cur := cur.(name := e.name.value, named := true, nameAt := e.ts);
      }
      cur := cur.(first := Min(cur.first, e.ts), last := Max(cur.last, e.ts));
      if e.view {
        cur := cur.(views := cur.views + 1);
      } else {
        cur := cur.(events := cur.events + 1);
      }
      assert cur == Count(if k in m then m[k] else New(e), e);
      CountInOk(m, seen, e);
      BytesUpdate(m, k, cur);
      m := m[k := cur];
      seen := seen + [e];
    }

    /** Fold: another part's identities. */
    method Fold(o: IdentityMap)
      requires Valid() && o.Valid() && o != this
      modifies this
      ensures Valid() && seen == old(seen) + o.seen
    {
      var theirs := o.m;
      var rest := theirs.Keys;
      ghost var began, done: set<IdentityKey> := m, {};
      assert Restrict(theirs, {}) == map[];
      while rest != {}
        invariant rest <= theirs.Keys && rest !! done && rest + done == theirs.Keys && seen == old(seen)
        invariant IsFolded(began, Restrict(theirs, done), m)
        decreases rest
      {
        var k :| k in rest;
        var x := theirs[k];
        var cur := x;
        if k in m {
          cur := m[k];
          if x.named && (!cur.named || x.nameAt > cur.nameAt) {
            cur := cur.(name := x.name, named := true, nameAt := x.nameAt);
          }
          cur := cur.(first := Min(cur.first, x.first), last := Max(cur.last, x.last),
                      views := cur.views + x.views, events := cur.events + x.events);
        }
        assert cur == if k in m then Join(m[k], x) else x;
        FoldMore(began, theirs, done, m, k);
        m := m[k := cur];
        rest, done := rest - {k}, done + {k};
      }
      assert Restrict(theirs, done) == theirs;
      FoldOk(began, seen, theirs, o.seen, m);
      seen := seen + o.seen;
    }

    /** Bytes. */
    method Bytes() returns (n: int)
      ensures n == BytesOf(m)
    {
      n := 0;
      var rest := m;
      while rest != map[]
        invariant n + BytesOf(rest) == BytesOf(m)
        decreases |rest|
      {
        var k :| k in rest;
        BytesWithout(rest, k);
        n := n + IDENTITY_BYTES + |k.id| + |rest[k].name|;
        rest := rest - {k};
      }
    }
  }
}
