/** The views of events files, regrouped by project and day: a row group is read
    once for each day it holds. */
module Regroup {

  /** The project and day of an event, NULL one value of each. */
  type DayKey = (int, int)

  /** A row as the first reading sees it: whether it is a view, its project and day. */
  datatype Row = Row(isView: bool, key: DayKey)

  /** The rows of a row group that hold its views. */
  datatype Part = Part(group: nat, lo: nat, hi: nat)

  /** A view's place: its row group, counting file by file, and row. */
  datatype Place = Place(group: nat, row: nat)

  predicate IsViewOf(group: seq<Row>, r: nat, k: DayKey) {
    r < |group| && group[r].isView && group[r].key == k
  }

  predicate HasViewOf(group: seq<Row>, k: DayKey) {
    exists r: nat :: r < |group| && IsViewOf(group, r, k)
  }

  // ----- what is to be handed over

  /** The views of k among a group's rows lo to hi. */
  function InGroup(group: seq<Row>, g: nat, k: DayKey, lo: nat, hi: nat): seq<Place>
    requires lo <= hi <= |group|
    decreases hi
  {
    if lo == hi then []
    else InGroup(group, g, k, lo, hi - 1) + if IsViewOf(group, hi - 1, k) then [Place(g, hi - 1)] else []
  }

  /** The views of k in the first n groups. */
  function PlacesIn(groups: seq<seq<Row>>, k: DayKey, n: nat): seq<Place>
    requires n <= |groups|
  {
    if n == 0 then [] else PlacesIn(groups, k, n - 1) + InGroup(groups[n - 1], n - 1, k, 0, |groups[n - 1]|)
  }

  predicate Before(a: Place, b: Place) {
    a.group < b.group || (a.group == b.group && a.row < b.row)
  }

  lemma {:induction false} InGroupIs(group: seq<Row>, g: nat, k: DayKey, lo: nat, hi: nat)
    requires lo <= hi <= |group|
    ensures forall p :: p in InGroup(group, g, k, lo, hi) <==> p.group == g && lo <= p.row < hi && IsViewOf(group, p.row, k)
    ensures forall i, j :: 0 <= i < j < |InGroup(group, g, k, lo, hi)| ==> Before(InGroup(group, g, k, lo, hi)[i], InGroup(group, g, k, lo, hi)[j])
    decreases hi
  {
    if lo < hi {
      InGroupIs(group, g, k, lo, hi - 1);
      var rest := InGroup(group, g, k, lo, hi - 1);
      forall i | 0 <= i < |rest|
        ensures Before(rest[i], Place(g, hi - 1))
      {
        assert rest[i] in rest;
      }
    }
  }

  /** They are each view of k, once, in the files' order: so every view is handed
      over under its own project and day, and under no other. */
  lemma {:induction false} EachViewOnce(groups: seq<seq<Row>>, k: DayKey, n: nat)
    requires n <= |groups|
    ensures forall p :: p in PlacesIn(groups, k, n) <==> p.group < n && IsViewOf(groups[p.group], p.row, k)
    ensures forall i, j :: 0 <= i < j < |PlacesIn(groups, k, n)| ==> Before(PlacesIn(groups, k, n)[i], PlacesIn(groups, k, n)[j])
  {
    if n > 0 {
      EachViewOnce(groups, k, n - 1);
      InGroupIs(groups[n - 1], n - 1, k, 0, |groups[n - 1]|);
      var a, b := PlacesIn(groups, k, n - 1), InGroup(groups[n - 1], n - 1, k, 0, |groups[n - 1]|);
      forall i, j | 0 <= i < |a| && 0 <= j < |b|
        ensures Before(a[i], b[j])
      {
        assert a[i] in a && b[j] in b;
      }
    }
  }

  // ----- the first reading: which groups hold which days

  ghost predicate IsSpan(group: seq<Row>, lo: nat, hi: nat) {
    lo <= hi <= |group| && forall r :: 0 <= r < |group| && group[r].isView ==> lo <= r < hi
  }

  /** The rows from the first view to past the last; none when there is none. */
  method Span(group: seq<Row>) returns (found: bool, lo: nat, hi: nat)
    ensures IsSpan(group, lo, hi)
    ensures found <==> exists r :: 0 <= r < |group| && group[r].isView
  {
    found, lo, hi := false, 0, 0;
    for r := 0 to |group|
      invariant lo <= hi <= r && (found <==> exists x :: 0 <= x < r && group[x].isView)
      invariant forall x :: 0 <= x < r && group[x].isView ==> lo <= x < hi
    {
      if group[r].isView {
        if !found { lo := r; }
        found, hi := true, r + 1;
      }
    }
  }

  /** ps are parts of groups, in order, one for each of the first n that holds a
      view of k. */
  ghost predicate PartsOf(groups: seq<seq<Row>>, k: DayKey, n: nat, ps: seq<Part>)
    requires n <= |groups|
    decreases n
  {
    if n == 0 then ps == []
    else if HasViewOf(groups[n - 1], k) then
      && ps != [] && ps[|ps| - 1].group == n - 1 && IsSpan(groups[n - 1], ps[|ps| - 1].lo, ps[|ps| - 1].hi)
      && PartsOf(groups, k, n - 1, ps[..|ps| - 1])
    else PartsOf(groups, k, n - 1, ps)
  }

  function Get(parts: map<DayKey, seq<Part>>, k: DayKey): seq<Part> {
    if k in parts then parts[k] else []
  }

  ghost predicate AllParts(groups: seq<seq<Row>>, n: nat, parts: map<DayKey, seq<Part>>)
    requires n <= |groups|
  {
    && (forall k {:trigger Get(parts, k)} :: PartsOf(groups, k, n, Get(parts, k)))
    && (forall k :: k in parts ==> parts[k] != [])
  }

  /** To every day of seen a part more. */
  ghost predicate PartMore(parts0: map<DayKey, seq<Part>>, parts: map<DayKey, seq<Part>>, seen: set<DayKey>, p: Part) {
    forall k {:trigger Get(parts, k)} :: Get(parts, k) == if k in seen then Get(parts0, k) + [p] else Get(parts0, k)
  }

  lemma {:induction false} PartAdded(parts0: map<DayKey, seq<Part>>, parts: map<DayKey, seq<Part>>, seen: set<DayKey>, p: Part, k: DayKey)
    requires PartMore(parts0, parts, seen, p) && k !in seen
    ensures PartMore(parts0, parts[k := Get(parts, k) + [p]], seen + {k}, p)
  {
    var more := parts[k := Get(parts, k) + [p]];
    forall j
      ensures Get(more, j) == if j in seen + {k} then Get(parts0, j) + [p] else Get(parts0, j)
    {
      assert j != k ==> Get(more, j) == Get(parts, j);
    }
  }

  method Parts(groups: seq<seq<Row>>) returns (parts: map<DayKey, seq<Part>>)
    ensures AllParts(groups, |groups|, parts)
  {
    parts := map[];
    for g := 0 to |groups|
      invariant AllParts(groups, g, parts)
    {
      var found, lo, hi := Span(groups[g]);
      if !found { NoViews(groups, g, parts); continue; }
      parts := AddGroup(groups, g, lo, hi, parts);
    }
  }

  lemma {:induction false} NoViews(groups: seq<seq<Row>>, g: nat, parts: map<DayKey, seq<Part>>)
    requires g < |groups| && AllParts(groups, g, parts) && !exists r :: 0 <= r < |groups[g]| && groups[g][r].isView
    ensures AllParts(groups, g + 1, parts)
  {
    forall k
      ensures PartsOf(groups, k, g + 1, Get(parts, k))
    {
      assert PartsOf(groups, k, g, Get(parts, k));
      assert !HasViewOf(groups[g], k);
    }
  }

  /** Group g put down once for each day it holds. */
  method AddGroup(groups: seq<seq<Row>>, g: nat, lo: nat, hi: nat, parts0: map<DayKey, seq<Part>>) returns (parts: map<DayKey, seq<Part>>)
    requires g < |groups| && IsSpan(groups[g], lo, hi) && AllParts(groups, g, parts0)
    ensures AllParts(groups, g + 1, parts)
  {
    parts := parts0;
    var seen: set<DayKey> := {};
    for r := lo to hi
      invariant forall k :: k in seen <==> exists x: nat :: x < r && IsViewOf(groups[g], x, k)
      invariant PartMore(parts0, parts, seen, Part(g, lo, hi))
      invariant forall k :: k in parts ==> parts[k] != []
    {
      var k := groups[g][r].key;
      if groups[g][r].isView && k !in seen {
        assert IsViewOf(groups[g], r, k);
        PartAdded(parts0, parts, seen, Part(g, lo, hi), k);
        seen := seen + {k};
        parts := parts[k := Get(parts, k) + [Part(g, lo, hi)]];
      }
    }
    forall k
      ensures PartsOf(groups, k, g + 1, Get(parts, k))
    {
      assert PartsOf(groups, k, g, Get(parts0, k));
      var ps := Get(parts, k);
      if HasViewOf(groups[g], k) {
        assert k in seen;
        assert ps[..|ps| - 1] == Get(parts0, k);
      }
    }
  }

  // ----- the second: the views of a day

  lemma {:induction false} OnlyInSpan(group: seq<Row>, g: nat, k: DayKey, lo: nat, hi: nat, n: nat)
    requires IsSpan(group, lo, hi) && n <= |group|
    ensures InGroup(group, g, k, 0, n) == if n <= lo then [] else InGroup(group, g, k, lo, if n < hi then n else hi)
  {
    if n > 0 { OnlyInSpan(group, g, k, lo, hi, n - 1); }
  }

  lemma {:induction false} NoneIn(group: seq<Row>, g: nat, k: DayKey, n: nat)
    requires !HasViewOf(group, k) && n <= |group|
    ensures InGroup(group, g, k, 0, n) == []
  {
    if n > 0 { NoneIn(group, g, k, n - 1); }
  }

  predicate PartOk(groups: seq<seq<Row>>, p: Part) {
    p.group < |groups| && p.lo <= p.hi <= |groups[p.group]|
  }

  ghost predicate PartsOk(groups: seq<seq<Row>>, ps: seq<Part>) {
    forall i {:trigger PartOk(groups, ps[i])} :: 0 <= i < |ps| ==> PartOk(groups, ps[i])
  }

  lemma {:induction false} PartsAreOk(groups: seq<seq<Row>>, k: DayKey, n: nat, ps: seq<Part>)
    requires n <= |groups| && PartsOf(groups, k, n, ps)
    ensures PartsOk(groups, ps)
    decreases n
  {
    if n > 0 {
      if HasViewOf(groups[n - 1], k) {
        var rest := ps[..|ps| - 1];
        PartsAreOk(groups, k, n - 1, rest);
        forall i | 0 <= i < |ps|
          ensures PartOk(groups, ps[i])
        {
          if i < |rest| { assert PartOk(groups, rest[i]); }
        }
      } else {
        PartsAreOk(groups, k, n - 1, ps);
      }
    }
  }

  ghost function Read(groups: seq<seq<Row>>, k: DayKey, ps: seq<Part>): seq<Place>
    requires PartsOk(groups, ps)
  {
    if ps == [] then []
    else
      var p := ps[|ps| - 1];
      assert PartOk(groups, p);
      assert forall i {:trigger PartOk(groups, ps[..|ps| - 1][i])} :: 0 <= i < |ps| - 1 ==> PartOk(groups, ps[i]);
      Read(groups, k, ps[..|ps| - 1]) + InGroup(groups[p.group], p.group, k, p.lo, p.hi)
  }

  /** Reading a day's parts finds the day's views. */
  lemma {:induction false} PartsHaveViews(groups: seq<seq<Row>>, k: DayKey, n: nat, ps: seq<Part>)
    requires n <= |groups| && PartsOf(groups, k, n, ps) && PartsOk(groups, ps)
    ensures Read(groups, k, ps) == PlacesIn(groups, k, n)
    decreases n
  {
    if n > 0 {
      var group := groups[n - 1];
      if HasViewOf(group, k) {
        var p, rest := ps[|ps| - 1], ps[..|ps| - 1];
        PartsAreOk(groups, k, n - 1, rest);
        PartsHaveViews(groups, k, n - 1, rest);
        OnlyInSpan(group, n - 1, k, p.lo, p.hi, |group|);
      } else {
        PartsHaveViews(groups, k, n - 1, ps);
        NoneIn(group, n - 1, k, |group|);
      }
    }
  }

  /** viewsOf: the views of k from its parts. */
  method ViewsOf(groups: seq<seq<Row>>, k: DayKey, ps: seq<Part>) returns (views: seq<Place>)
    requires PartsOf(groups, k, |groups|, ps)
    ensures views == PlacesIn(groups, k, |groups|)
  {
    PartsAreOk(groups, k, |groups|, ps);
    PartsHaveViews(groups, k, |groups|, ps);
    views := [];
    for i := 0 to |ps|
      invariant PartsOk(groups, ps[..i]) && views == Read(groups, k, ps[..i])
    {
      var p := ps[i];
      assert PartOk(groups, ps[i]);
      PartsMore(groups, ps, i);
      ghost var before := views;
      for r := p.lo to p.hi
        invariant views == before + InGroup(groups[p.group], p.group, k, p.lo, r)
      {
        if groups[p.group][r].isView && groups[p.group][r].key == k {
          views := views + [Place(p.group, r)];
        }
      }
      assert ps[..i + 1][..i] == ps[..i];
    }
    assert ps[..|ps|] == ps;
  }

  lemma {:induction false} PartsMore(groups: seq<seq<Row>>, ps: seq<Part>, i: nat)
    requires i < |ps| && PartsOk(groups, ps)
    ensures PartsOk(groups, ps[..i + 1])
  {
    var more := ps[..i + 1];
    forall j | 0 <= j < |more|
      ensures PartOk(groups, more[j])
    {
      assert PartOk(groups, ps[j]);
    }
  }
}
