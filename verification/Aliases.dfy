/** One project's (user_id, install_id) pairs, folded from its events one at a
    time, part by part. */
module Aliases {
  import opened Keyed
  import opened Rows

  datatype AliasKey = AliasKey(userID: string, installID: string)

  datatype Alias = Alias(first: int, last: int, timed: bool, events: nat)

  /** An event, of any family: its two ids, "" for none, and its ts, if it has one. */
  datatype Sent = Sent(userID: string, installID: string, ts: Option<int>)

  const ALIAS_BYTES := 96

  // ----- what an alias says of its events

  /** Some event of es has a ts, x the least of them or the greatest. */
  ghost predicate IsBound(x: int, es: seq<Sent>, least: bool) {
    && (exists i :: 0 <= i < |es| && es[i].ts == Some(x))
    && (forall i :: 0 <= i < |es| && es[i].ts.Some? ==> if least then x <= es[i].ts.value else es[i].ts.value <= x)
  }

  ghost predicate IsAliasOf(a: Alias, es: seq<Sent>) {
    && a.events == |es|
    && if a.timed then IsBound(a.first, es, true) && IsBound(a.last, es, false)
       else a.first == 0 && a.last == 0 && forall i :: 0 <= i < |es| ==> es[i].ts.None?
  }

  lemma {:induction false} AliasUnique(a: Alias, b: Alias, es: seq<Sent>)
    requires IsAliasOf(a, es) && IsAliasOf(b, es)
    ensures a == b
  {
  }

  /** An event's ts, if it has one, widens what the alias spans. */
  function Widen(a: Alias, ts: Option<int>): Alias {
    match ts
    case None => a
    case Some(t) =>
      if !a.timed then a.(first := t, last := t, timed := true)
      else a.(first := if t < a.first then t else a.first, last := if t > a.last then t else a.last)
  }

  function Count(a: Alias, e: Sent): Alias {
    var seen := Widen(a, e.ts);
    seen.(events := seen.events + 1)
  }

  function Join(a: Alias, x: Alias): Alias {
    var seen := if x.timed then Widen(Widen(a, Some(x.first)), Some(x.last)) else a;
    seen.(events := seen.events + x.events)
  }

  const NONE := Alias(0, 0, false, 0)

  /** Joining what two parts came to is what the parts together come to. */
  lemma {:induction false} JoinOk(a: Alias, es: seq<Sent>, x: Alias, fs: seq<Sent>)
    requires IsAliasOf(a, es) && IsAliasOf(x, fs)
    ensures IsAliasOf(Join(a, x), es + fs)
  {
    var c := es + fs;
    assert forall i :: 0 <= i < |es| ==> c[i] == es[i];
    assert forall i :: 0 <= i < |fs| ==> c[|es| + i] == fs[i];
    assert forall i :: |es| <= i < |c| ==> c[i] == fs[i - |es|];
  }

  lemma {:induction false} CountOk(a: Alias, es: seq<Sent>, e: Sent)
    requires IsAliasOf(a, es)
    ensures IsAliasOf(Count(a, e), es + [e])
  {
    var x := Count(NONE, e);
    assert [e][0] == e;
    assert IsAliasOf(x, [e]);
    JoinOk(a, es, x, [e]);
  }

  // ----- a part's aliases

  predicate Carries(e: Sent, k: AliasKey) {
    e.userID != "" && e.installID != "" && k == AliasKey(e.userID, e.installID)
  }

  function EventsOf(es: seq<Sent>, k: AliasKey): seq<Sent> {
    EventsFor(es, Carries, k)
  }

  /** m is what the events of es come to, pair by pair; an event without both
      ids comes to nothing. */
  ghost predicate IsOf(m: map<AliasKey, Alias>, es: seq<Sent>) {
    && (forall k {:trigger EventsOf(es, k)} :: k in m <==> EventsOf(es, k) != [])
    && (forall k {:trigger IsAliasOf(m[k], EventsOf(es, k))} :: k in m ==> IsAliasOf(m[k], EventsOf(es, k)))
  }

  lemma {:induction false} AliasesUnique(m: map<AliasKey, Alias>, n: map<AliasKey, Alias>, es: seq<Sent>)
    requires IsOf(m, es) && IsOf(n, es)
    ensures m == n
  {
    forall k
      ensures (k in m <==> k in n) && (k in m ==> m[k] == n[k])
    {
      assert k in m <==> EventsOf(es, k) != [];
      if k in m { AliasUnique(m[k], n[k], EventsOf(es, k)); }
    }
  }

  lemma {:induction false} SeeOk(m: map<AliasKey, Alias>, es: seq<Sent>, e: Sent, k: AliasKey, x: Alias)
    requires IsOf(m, es) && Carries(e, k) && x == Count(if k in m then m[k] else NONE, e)
    ensures IsOf(m[k := x], es + [e])
  {
    forall j
      ensures j in m[k := x] <==> EventsOf(es + [e], j) != []
      ensures j in m[k := x] ==> IsAliasOf(m[k := x][j], EventsOf(es + [e], j))
    {
      EventsForConcat(es, [e], Carries, j);
      EventsForOne(e, Carries, j);
      assert EventsOf(es, j) + [] == EventsOf(es, j);
      if j == k { CountOk(if k in m then m[k] else NONE, EventsOf(es, k), e); }
    }
  }

  lemma {:induction false} SkipOk(m: map<AliasKey, Alias>, es: seq<Sent>, e: Sent)
    requires IsOf(m, es) && (e.userID == "" || e.installID == "")
    ensures IsOf(m, es + [e])
  {
    forall j
      ensures EventsOf(es + [e], j) == EventsOf(es, j)
    {
      EventsForConcat(es, [e], Carries, j);
      EventsForOne(e, Carries, j);
    }
  }

  ghost predicate IsFolded(m: map<AliasKey, Alias>, o: map<AliasKey, Alias>, r: map<AliasKey, Alias>) {
    && r.Keys == m.Keys + o.Keys
    && forall k {:trigger r[k]} :: k in r ==>
         r[k] == if k in m && k in o then Join(m[k], o[k]) else if k in m then m[k] else o[k]
  }

  lemma {:induction false} FoldAt(m: map<AliasKey, Alias>, a: seq<Sent>, o: map<AliasKey, Alias>, b: seq<Sent>,
                                  r: map<AliasKey, Alias>, k: AliasKey)
    requires IsOf(m, a) && IsOf(o, b) && IsFolded(m, o, r)
    ensures k in r <==> EventsOf(a + b, k) != []
    ensures k in r ==> IsAliasOf(r[k], EventsOf(a + b, k))
  {
    var x, y := EventsOf(a, k), EventsOf(b, k);
    EventsForConcat(a, b, Carries, k);
    assert (k in m <==> x != []) && (k in o <==> y != []);
    if k in m && k in o {
      JoinOk(m[k], x, o[k], y);
    } else if k in m {
      assert x + y == x;
    } else if k in o {
      assert x + y == y;
    }
  }

  /** Folding in what another part came to is as taking in its events. */
  lemma {:induction false} FoldOk(m: map<AliasKey, Alias>, a: seq<Sent>, o: map<AliasKey, Alias>, b: seq<Sent>, r: map<AliasKey, Alias>)
    requires IsOf(m, a) && IsOf(o, b) && IsFolded(m, o, r)
    ensures IsOf(r, a + b)
  {
    forall k
      ensures k in r <==> EventsOf(a + b, k) != []
      ensures k in r ==> IsAliasOf(r[k], EventsOf(a + b, k))
    {
      FoldAt(m, a, o, b, r, k);
    }
  }

  function Restrict(m: map<AliasKey, Alias>, keys: set<AliasKey>): map<AliasKey, Alias> {
    map k | k in m && k in keys :: m[k]
  }

  lemma {:induction false} FoldMore(m: map<AliasKey, Alias>, o: map<AliasKey, Alias>, done: set<AliasKey>, r: map<AliasKey, Alias>, k: AliasKey)
    requires IsFolded(m, Restrict(o, done), r) && k in o && k !in done
    ensures k in r <==> k in m
    ensures k in m ==> r[k] == m[k]
    ensures IsFolded(m, Restrict(o, done + {k}), r[k := if k in m then Join(m[k], o[k]) else o[k]])
  {
  }

  class AliasMap {
    var m: map<AliasKey, Alias>
    ghost var seen: seq<Sent>

    /** m is what the events seen come to. */
    ghost predicate Valid()
      reads this
    {
      IsOf(m, seen)
    }

    constructor ()
      ensures Valid() && seen == []
    {
      m, seen := map[], [];
    }

    /** See: one event more; the bytes a new pair takes. */
    method See(e: Sent) returns (grew: int)
      requires Valid()
      modifies this
      ensures Valid() && seen == old(seen) + [e]
      ensures |m| == |old(m)| + if grew > 0 then 1 else 0
      ensures grew == if m.Keys == old(m).Keys then 0 else ALIAS_BYTES + |e.userID| + |e.installID|
    {
      grew := 0;
      if e.userID == "" || e.installID == "" {
        SkipOk(m, seen, e);
        seen := seen + [e];
        return;
      }
      var k := AliasKey(e.userID, e.installID);
      var cur := NONE;
      if k in m {
        cur := m[k];
        assert m.Keys == m.Keys + {k};
      } else {
        grew := ALIAS_BYTES + |e.userID| + |e.installID|;
      }
      cur := Widen(cur, e.ts);
      cur := cur.(events := cur.events + 1);
      SeeOk(m, seen, e, k, cur);
      assert m[k := cur].Keys == m.Keys + {k};
      m := m[k := cur];
      seen := seen + [e];
    }

    /** Fold: another part's aliases. */
    method Fold(o: AliasMap)
      requires Valid() && o.Valid() && o != this
      modifies this
      ensures Valid() && seen == old(seen) + o.seen
    {
      var theirs := o.m;
      var rest := theirs.Keys;
      ghost var began, done: set<AliasKey> := m, {};
      assert Restrict(theirs, {}) == map[];
      while rest != {}
        invariant rest <= theirs.Keys && rest !! done && rest + done == theirs.Keys && seen == old(seen)
        invariant IsFolded(began, Restrict(theirs, done), m)
        decreases rest
      {
        var k :| k in rest;
        var x := theirs[k];
        var cur := x;
        if k in m {
          cur := m[k];
          if x.timed {
            cur := Widen(cur, Some(x.first));
            cur := Widen(cur, Some(x.last));
          }
          cur := cur.(events := cur.events + x.events);
        }
        assert cur == if k in m then Join(m[k], x) else x;
        FoldMore(began, theirs, done, m, k);
        m := m[k := cur];
        rest, done := rest - {k}, done + {k};
      }
      assert Restrict(theirs, done) == theirs;
      FoldOk(began, seen, theirs, o.seen, m);
      seen := seen + o.seen;
    }
  }
}
