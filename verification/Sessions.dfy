/** Sessionizing one day's views of one project: one pass over the sorted
    views, each (kind, actor) a partition, the views of one second a peer
    group. */
module Sessions {
  import opened Ints
  import opened Rows
  import opened Ordered
  import SortedFirsts

  datatype View = View(kindNull: bool, kind: string, actorNull: bool, actor: string, sessionID: string,
                       ts: int, idNull: bool, id: string)

  datatype Session = Session(first: nat, last: nat, partition: nat, views: nat, declared: bool)

  const SESSION_GAP_SECONDS := 1800

  // ----- seconds

  /** The whole seconds of ts, in microseconds: rounded down, before 1970 too. */
  function Seconds(ts: int): (s: int)
    ensures s * 1000000 <= ts < (s + 1) * 1000000
  {
    var s := Quotient(ts, 1000000);
    if Remainder(ts, 1000000) < 0 then s - 1 else s
  }

  lemma {:induction false} SecondsMonotone(a: int, b: int)
    requires a <= b
    ensures Seconds(a) <= Seconds(b)
  {
  }

  // ----- the order of the views

  function CompareBool(a: bool, b: bool): int {
    if a == b then 0 else if b then -1 else 1
  }

  function ComparePartition(a: View, b: View): int {
    if CompareBool(a.kindNull, b.kindNull) != 0 then CompareBool(a.kindNull, b.kindNull)
    else if CompareText(a.kind, b.kind) != 0 then CompareText(a.kind, b.kind)
    else if CompareBool(a.actorNull, b.actorNull) != 0 then CompareBool(a.actorNull, b.actorNull)
    else CompareText(a.actor, b.actor)
  }

  function CompareInt(a: int, b: int): int {
    if a < b then -1 else if a == b then 0 else 1
  }

  function CompareView(a: View, b: View): int {
    if ComparePartition(a, b) != 0 then ComparePartition(a, b)
    else if CompareInt(a.ts, b.ts) != 0 then CompareInt(a.ts, b.ts)
    else if CompareBool(a.idNull, b.idNull) != 0 then CompareBool(a.idNull, b.idNull)
    else CompareText(a.id, b.id)
  }

  predicate Le(a: View, b: View) {
    CompareView(a, b) <= 0
  }

  lemma {:induction false} LeTotal(a: View, b: View)
    ensures Le(a, b) || Le(b, a)
  {
    CompareTextAntisymmetric(a.kind, b.kind);
    CompareTextAntisymmetric(a.actor, b.actor);
    CompareTextAntisymmetric(a.id, b.id);
  }

  lemma {:induction false} ComparePartitionTransitive(a: View, b: View, c: View)
    requires ComparePartition(a, b) <= 0 && ComparePartition(b, c) <= 0
    ensures ComparePartition(a, c) <= 0
    ensures ComparePartition(a, b) < 0 || ComparePartition(b, c) < 0 ==> ComparePartition(a, c) < 0
  {
    CompareTextAntisymmetric(a.kind, b.kind);
    CompareTextAntisymmetric(b.kind, c.kind);
    if CompareText(a.kind, b.kind) <= 0 && CompareText(b.kind, c.kind) <= 0 { CompareTextTransitive(a.kind, b.kind, c.kind); }
    if CompareText(a.actor, b.actor) <= 0 && CompareText(b.actor, c.actor) <= 0 { CompareTextTransitive(a.actor, b.actor, c.actor); }
    CompareTextAntisymmetric(a.kind, c.kind);
  }

  lemma {:induction false} LeTransitive(a: View, b: View, c: View)
    requires Le(a, b) && Le(b, c)
    ensures Le(a, c)
  {
    if ComparePartition(a, b) <= 0 && ComparePartition(b, c) <= 0 { ComparePartitionTransitive(a, b, c); }
    if CompareText(a.id, b.id) <= 0 && CompareText(b.id, c.id) <= 0 { CompareTextTransitive(a.id, b.id, c.id); }
  }

  ghost predicate Sorted(vs: seq<View>) {
    forall i, j :: 0 <= i < j < |vs| ==> Le(vs[i], vs[j])
  }

  function Insert(v: View, vs: seq<View>): seq<View> {
    if vs == [] || Le(v, vs[0]) then [v] + vs else [vs[0]] + Insert(v, vs[1..])
  }

  function Sort(vs: seq<View>): seq<View> {
    if vs == [] then [] else Insert(vs[0], Sort(vs[1..]))
  }

  lemma {:induction false} InsertSorts(v: View, vs: seq<View>)
    requires Sorted(vs)
    ensures Sorted(Insert(v, vs)) && multiset(Insert(v, vs)) == multiset(vs) + multiset{v}
  {
    if vs == [] {
    } else if Le(v, vs[0]) {
      forall j | 0 <= j < |vs|
        ensures Le(v, vs[j])
      {
        if j > 0 { LeTransitive(v, vs[0], vs[j]); }
      }
    } else {
      var rest := Insert(v, vs[1..]);
      InsertSorts(v, vs[1..]);
      assert vs == [vs[0]] + vs[1..];
      LeTotal(v, vs[0]);
      forall j | 0 <= j < |rest|
        ensures Le(vs[0], rest[j])
      {
        assert rest[j] in multiset(rest);
        assert rest[j] == v || rest[j] in vs[1..];
      }
    }
  }

  lemma {:induction false} SortSorts(vs: seq<View>)
    ensures Sorted(Sort(vs)) && multiset(Sort(vs)) == multiset(vs)
  {
    if vs != [] {
      SortSorts(vs[1..]);
      InsertSorts(vs[0], Sort(vs[1..]));
      assert vs == [vs[0]] + vs[1..];
    }
  }

  /** slices.SortFunc with cmpSessionView. */
  method SortViews(views: array<View>)
    modifies views
    ensures Sorted(views[..]) && multiset(views[..]) == multiset(old(views[..]))
  {
    SortSorts(views[..]);
    var sorted := Sort(views[..]);
    assert |multiset(sorted)| == |sorted| == views.Length;
    forall i | 0 <= i < views.Length {
      views[i] := sorted[i];
    }
    assert views[..] == sorted;
  }

  // ----- what a session is

  predicate SamePart(a: View, b: View) {
    a.kindNull == b.kindNull && a.kind == b.kind && a.actorNull == b.actorNull && a.actor == b.actor
  }

  /** A view that declares no session, the first of its partition or long after
      the view before it. */
  predicate StartsRun(vs: seq<View>, x: nat)
    requires x < |vs|
  {
    vs[x].sessionID == "" &&
    (x == 0 || !SamePart(vs[x - 1], vs[x]) || Seconds(vs[x].ts) - Seconds(vs[x - 1].ts) > SESSION_GAP_SECONDS)
  }

  /** Of the first n views, the run starts of x's partition up to x's second. */
  function RunsTo(vs: seq<View>, x: nat, n: nat): nat
    requires x < |vs| && n <= |vs|
  {
    if n == 0 then 0
    else
      RunsTo(vs, x, n - 1) +
      if SamePart(vs[n - 1], vs[x]) && StartsRun(vs, n - 1) && Seconds(vs[n - 1].ts) <= Seconds(vs[x].ts) then 1 else 0
  }

  datatype SessionKey = Declared(sid: string) | Gap(run: nat)

  /** A declared view's session is its id's; another's, the number of run starts
      up to its second. */
  function KeyIn(vs: seq<View>, x: nat): SessionKey
    requires x < |vs|
  {
    if vs[x].sessionID != "" then Declared(vs[x].sessionID) else Gap(RunsTo(vs, x, |vs|))
  }

  predicate SameSession(vs: seq<View>, x: nat, y: nat)
    requires x < |vs| && y < |vs|
  {
    SamePart(vs[x], vs[y]) && KeyIn(vs, x) == KeyIn(vs, y)
  }

  /** How many of the first n views are in x's session. */
  function ViewsOf(vs: seq<View>, x: nat, n: nat): nat
    requires x < |vs| && n <= |vs|
  {
    if n == 0 then 0 else ViewsOf(vs, x, n - 1) + if SameSession(vs, x, n - 1) then 1 else 0
  }

  function Total(sessions: seq<Session>): nat {
    if sessions == [] then 0 else Total(sessions[..|sessions| - 1]) + sessions[|sessions| - 1].views
  }

  /** s is a session of the first n views: its least and greatest view, the first
      of its partition, how many views it has, whether they declared it. */
  ghost predicate IsSession(vs: seq<View>, n: nat, s: Session) {
    && s.first <= s.last < n <= |vs|
    && SameSession(vs, s.first, s.last)
    && (forall x {:trigger SameSession(vs, s.first, x)} :: 0 <= x < n && SameSession(vs, s.first, x) ==> s.first <= x <= s.last)
    && s.views == ViewsOf(vs, s.first, n)
    && s.declared == (vs[s.first].sessionID != "")
    && s.partition <= s.first && SamePart(vs[s.partition], vs[s.first])
    && (forall x :: 0 <= x < s.partition ==> !SamePart(vs[x], vs[s.first]))
  }

  /** The sessions of the first n views: each view in exactly one, none without
      a view, by partition and then first view. */
  ghost predicate AreSessions(vs: seq<View>, n: nat, sessions: seq<Session>) {
    && n <= |vs|
    && (forall i {:trigger IsSession(vs, n, sessions[i])} :: 0 <= i < |sessions| ==> IsSession(vs, n, sessions[i]))
    && (forall i, j :: 0 <= i < j < |sessions| ==> sessions[i].first < sessions[j].first)
    && (forall x {:trigger HasSession(vs, sessions, x)} :: 0 <= x < n ==> HasSession(vs, sessions, x))
    && Total(sessions) == n
  }

  ghost predicate HasSession(vs: seq<View>, sessions: seq<Session>, x: nat)
    requires x < |vs|
  {
    exists i :: 0 <= i < |sessions| && sessions[i].first < |vs| && SameSession(vs, sessions[i].first, x)
  }

  /** No view is in two sessions. */
  lemma {:induction false} OneSession(vs: seq<View>, n: nat, sessions: seq<Session>, i: nat, j: nat, x: nat)
    requires AreSessions(vs, n, sessions) && i < |sessions| && j < |sessions| && x < n
    requires sessions[i].first < |vs| && sessions[j].first < |vs|
    requires SameSession(vs, sessions[i].first, x) && SameSession(vs, sessions[j].first, x)
    ensures i == j
  {
    assert IsSession(vs, n, sessions[i]) && IsSession(vs, n, sessions[j]);
    assert SameSession(vs, sessions[i].first, sessions[j].first) && SameSession(vs, sessions[j].first, sessions[i].first);
  }

  lemma {:induction false} TotalUpdate(sessions: seq<Session>, i: nat, s: Session)
    requires i < |sessions|
    ensures Total(sessions[i := s]) == Total(sessions) - sessions[i].views + s.views
  {
    var n := |sessions| - 1;
    if i == n {
      assert sessions[i := s][..n] == sessions[..n];
    } else {
      assert sessions[i := s][..n] == sessions[..n][i := s];
      TotalUpdate(sessions[..n], i, s);
    }
  }

  lemma {:induction false} NoneBefore(vs: seq<View>, x: nat, n: nat)
    requires x < |vs| && n <= |vs| && forall y :: 0 <= y < n ==> !SameSession(vs, x, y)
    ensures ViewsOf(vs, x, n) == 0
  {
    if n > 0 { NoneBefore(vs, x, n - 1); }
  }

  lemma {:induction false} StaysSession(vs: seq<View>, n: nat, s: Session)
    requires IsSession(vs, n, s) && n < |vs|
    ensures !SameSession(vs, s.first, n) ==> IsSession(vs, n + 1, s)
    ensures SameSession(vs, s.first, n) ==> IsSession(vs, n + 1, s.(last := n, views := s.views + 1))
  {
  }

  lemma {:induction false} StaysIn(vs: seq<View>, sessions: seq<Session>, more: seq<Session>, x: nat)
    requires x < |vs| && HasSession(vs, sessions, x)
    requires |sessions| <= |more| && forall i :: 0 <= i < |sessions| ==> more[i].first == sessions[i].first
    ensures HasSession(vs, more, x)
  {
    var j :| 0 <= j < |sessions| && sessions[j].first < |vs| && SameSession(vs, sessions[j].first, x);
    assert more[j].first < |vs| && SameSession(vs, more[j].first, x);
  }

  lemma {:induction false} OnlySession(vs: seq<View>, n: nat, sessions: seq<Session>, i: nat, j: nat)
    requires AreSessions(vs, n, sessions) && n < |vs| && i < |sessions| && j < |sessions|
    requires sessions[i].first < |vs| && SameSession(vs, sessions[i].first, n)
    ensures sessions[j].first < |vs| && (SameSession(vs, sessions[j].first, n) ==> i == j)
  {
    assert IsSession(vs, n, sessions[i]) && IsSession(vs, n, sessions[j]);
    if SameSession(vs, sessions[j].first, n) {
      assert SameSession(vs, sessions[i].first, sessions[j].first) && SameSession(vs, sessions[j].first, sessions[i].first);
    }
  }

  /** View n joins the session i it belongs to. */
  lemma {:induction false} Joins(vs: seq<View>, n: nat, sessions: seq<Session>, i: nat)
    requires AreSessions(vs, n, sessions) && n < |vs| && i < |sessions|
    requires sessions[i].first < |vs| && SameSession(vs, sessions[i].first, n)
    ensures AreSessions(vs, n + 1, sessions[i := sessions[i].(last := n, views := sessions[i].views + 1)])
  {
    var s := sessions[i].(last := n, views := sessions[i].views + 1);
    var more := sessions[i := s];
    forall j | 0 <= j < |more|
      ensures IsSession(vs, n + 1, more[j])
    {
      assert IsSession(vs, n, sessions[j]);
      StaysSession(vs, n, sessions[j]);
      OnlySession(vs, n, sessions, i, j);
    }
    forall x | 0 <= x < n + 1
      ensures HasSession(vs, more, x)
    {
      if x == n {
        assert SameSession(vs, more[i].first, x);
      } else {
        assert HasSession(vs, sessions, x);
        StaysIn(vs, sessions, more, x);
      }
    }
    TotalUpdate(sessions, i, s);
  }

  lemma {:induction false} BeginsSession(vs: seq<View>, n: nat, sessions: seq<Session>, start: nat)
    requires n < |vs| && forall x :: 0 <= x < n ==> HasSession(vs, sessions, x)
    requires forall i :: 0 <= i < |sessions| ==> sessions[i].first < |vs| && !SameSession(vs, sessions[i].first, n)
    requires start <= n && SamePart(vs[start], vs[n]) && forall x :: 0 <= x < start ==> !SamePart(vs[x], vs[n])
    ensures IsSession(vs, n + 1, Session(n, n, start, 1, vs[n].sessionID != ""))
  {
    forall x | 0 <= x < n
      ensures !SameSession(vs, n, x)
    {
      assert HasSession(vs, sessions, x);
      var i :| 0 <= i < |sessions| && sessions[i].first < |vs| && SameSession(vs, sessions[i].first, x);
      assert !SameSession(vs, sessions[i].first, n);
    }
    NoneBefore(vs, n, n);
  }

  /** View n begins a session. */
  lemma {:induction false} Begins(vs: seq<View>, n: nat, sessions: seq<Session>, start: nat)
    requires AreSessions(vs, n, sessions) && n < |vs|
    requires forall i :: 0 <= i < |sessions| ==> sessions[i].first < |vs| && !SameSession(vs, sessions[i].first, n)
    requires start <= n && SamePart(vs[start], vs[n]) && forall x :: 0 <= x < start ==> !SamePart(vs[x], vs[n])
    ensures AreSessions(vs, n + 1, sessions + [Session(n, n, start, 1, vs[n].sessionID != "")])
  {
    var s := Session(n, n, start, 1, vs[n].sessionID != "");
    var more := sessions + [s];
    BeginsSession(vs, n, sessions, start);
    forall j | 0 <= j < |sessions|
      ensures IsSession(vs, n + 1, sessions[j]) && sessions[j].first < n
    {
      assert IsSession(vs, n, sessions[j]);
      StaysSession(vs, n, sessions[j]);
    }
    forall x | 0 <= x < n + 1
      ensures HasSession(vs, more, x)
    {
      if x == n {
        assert more[|sessions|] == s && SameSession(vs, s.first, x);
      } else {
        assert HasSession(vs, sessions, x);
        StaysIn(vs, sessions, more, x);
      }
    }
    assert more[..|sessions|] == sessions;
  }

  // ----- the runs, counted second by second

  /** The run starts from lo to hi. */
  function Runs(vs: seq<View>, lo: nat, hi: nat): nat
    requires lo <= hi <= |vs|
    decreases hi
  {
    if hi == lo then 0 else Runs(vs, lo, hi - 1) + if StartsRun(vs, hi - 1) then 1 else 0
  }

  /** start to end is one partition of the sorted views. */
  ghost predicate IsPartition(vs: seq<View>, start: nat, end: nat) {
    && start < end <= |vs|
    && (forall x :: start <= x < end ==> SamePart(vs[start], vs[x]))
    && (forall x :: 0 <= x < |vs| && SamePart(vs[start], vs[x]) ==> start <= x < end)
  }

  /** j to k is one second's views of the partition. */
  ghost predicate IsPeers(vs: seq<View>, start: nat, end: nat, j: nat, k: nat) {
    && start <= j < k <= end <= |vs|
    && (forall x :: j <= x < k ==> Seconds(vs[x].ts) == Seconds(vs[j].ts))
    && (forall x :: start <= x < j ==> Seconds(vs[x].ts) < Seconds(vs[j].ts))
    && (forall x :: k <= x < end ==> Seconds(vs[x].ts) > Seconds(vs[j].ts))
  }

  lemma {:induction false} RunsToOfPeers(vs: seq<View>, start: nat, end: nat, j: nat, k: nat, x: nat, n: nat)
    requires IsPartition(vs, start, end) && IsPeers(vs, start, end, j, k) && j <= x < k && n <= |vs|
    ensures RunsTo(vs, x, n) == if n <= start then 0 else Runs(vs, start, if n < k then n else k)
  {
    if n > 0 { RunsToOfPeers(vs, start, end, j, k, x, n - 1); }
  }

  lemma {:induction false} RunsOfPeers(vs: seq<View>, start: nat, end: nat, j: nat, k: nat, m: nat)
    requires IsPartition(vs, start, end) && IsPeers(vs, start, end, j, k) && j < m <= k
    ensures Runs(vs, start, m) == Runs(vs, start, j) + if StartsRun(vs, j) then 1 else 0
  {
    if m > j + 1 { RunsOfPeers(vs, start, end, j, k, m - 1); }
  }

  /** The first view of a second decides for all of them. */
  lemma {:induction false} RunOfPeers(vs: seq<View>, start: nat, end: nat, j: nat, k: nat, x: nat)
    requires IsPartition(vs, start, end) && IsPeers(vs, start, end, j, k) && j <= x < k
    ensures RunsTo(vs, x, |vs|) == Runs(vs, start, j) + (if StartsRun(vs, j) then 1 else 0) == Runs(vs, start, k)
  {
    RunsToOfPeers(vs, start, end, j, k, x, |vs|);
    RunsOfPeers(vs, start, end, j, k, k);
  }

  // ----- the pass

  lemma {:induction false} ComparePartitionZero(a: View, b: View)
    ensures ComparePartition(a, b) == 0 <==> SamePart(a, b)
  {
    CompareTextAntisymmetric(a.kind, b.kind);
    CompareTextAntisymmetric(a.actor, b.actor);
  }

  /** Between two views of a partition of the sorted views are only its views. */
  lemma {:induction false} PartitionTogether(vs: seq<View>, x: nat, y: nat, z: nat)
    requires Sorted(vs) && x <= y <= z < |vs| && SamePart(vs[x], vs[z])
    ensures SamePart(vs[x], vs[y])
  {
    if x < y < z {
      ComparePartitionZero(vs[x], vs[z]);
      ComparePartitionZero(vs[x], vs[y]);
      ComparePartitionZero(vs[y], vs[z]);
      assert Le(vs[x], vs[y]) && Le(vs[y], vs[z]);
      ComparePartitionTransitive(vs[x], vs[y], vs[z]);
    }
  }

  method PartitionEnd(vs: seq<View>, start: nat) returns (end: nat)
    requires Sorted(vs) && start < |vs| && (start > 0 ==> !SamePart(vs[start - 1], vs[start]))
    ensures IsPartition(vs, start, end) && (end < |vs| ==> !SamePart(vs[end - 1], vs[end]))
  {
    end := start + 1;
    ComparePartitionZero(vs[start], vs[start]);
    while end < |vs| && ComparePartition(vs[start], vs[end]) == 0
      invariant start < end <= |vs|
      invariant forall x :: start <= x < end ==> SamePart(vs[start], vs[x])
    {
      ComparePartitionZero(vs[start], vs[end]);
      end := end + 1;
    }
    if end < |vs| { ComparePartitionZero(vs[start], vs[end]); }
    forall x | 0 <= x < |vs| && SamePart(vs[start], vs[x])
      ensures start <= x < end
    {
      if x < start {
        PartitionTogether(vs, x, start - 1, start);
      } else if x >= end {
        PartitionTogether(vs, start, end, x);
      }
    }
  }

  /** The end of the second that view j begins. */
  method PeersEnd(vs: seq<View>, start: nat, end: nat, j: nat) returns (k: nat)
    requires Sorted(vs) && IsPartition(vs, start, end) && start <= j < end
    requires j > start ==> Seconds(vs[j - 1].ts) < Seconds(vs[j].ts)
    ensures IsPeers(vs, start, end, j, k)
  {
    var t := Seconds(vs[j].ts);
    k := j + 1;
    while k < end && Seconds(vs[k].ts) == t
      invariant j < k <= end
      invariant forall x :: j <= x < k ==> Seconds(vs[x].ts) == t
    {
      k := k + 1;
    }
    forall x, y | start <= x <= y < end
      ensures Seconds(vs[x].ts) <= Seconds(vs[y].ts)
    {
      PartitionInTime(vs, start, end, x, y);
    }
  }

  lemma {:induction false} PartitionInTime(vs: seq<View>, start: nat, end: nat, x: nat, y: nat)
    requires Sorted(vs) && IsPartition(vs, start, end) && start <= x <= y < end
    ensures Seconds(vs[x].ts) <= Seconds(vs[y].ts)
  {
    if x < y {
      assert Le(vs[x], vs[y]) && SamePart(vs[start], vs[x]) && SamePart(vs[start], vs[y]);
      ComparePartitionZero(vs[x], vs[y]);
      SecondsMonotone(vs[x].ts, vs[y].ts);
    }
  }

  /** The sessions of the partition at start, by key. */
  ghost predicate KeysOk(vs: seq<View>, sessions: seq<Session>, start: nat, keys: map<SessionKey, nat>)
    requires start < |vs|
  {
    && (forall k {:trigger keys[k]} :: k in keys ==> IsKeyOf(vs, sessions, start, k, keys[k]))
    && (forall i {:trigger sessions[i]} :: 0 <= i < |sessions| && sessions[i].first < |vs| && SamePart(vs[start], vs[sessions[i].first]) ==>
          KeyIn(vs, sessions[i].first) in keys && keys[KeyIn(vs, sessions[i].first)] == i)
  }

  ghost predicate IsKeyOf(vs: seq<View>, sessions: seq<Session>, start: nat, k: SessionKey, i: nat)
    requires start < |vs|
  {
    i < |sessions| && sessions[i].first < |vs| && SamePart(vs[start], vs[sessions[i].first]) && KeyIn(vs, sessions[i].first) == k
  }

  lemma {:induction false} KeysStay(vs: seq<View>, sessions: seq<Session>, more: seq<Session>, start: nat, keys: map<SessionKey, nat>)
    requires start < |vs| && KeysOk(vs, sessions, start, keys)
    requires |more| == |sessions| && forall i :: 0 <= i < |more| ==> more[i].first == sessions[i].first
    ensures KeysOk(vs, more, start, keys)
  {
    forall k | k in keys
      ensures IsKeyOf(vs, more, start, k, keys[k])
    {
      assert IsKeyOf(vs, sessions, start, k, keys[k]);
    }
  }

  lemma {:induction false} KeysMore(vs: seq<View>, sessions: seq<Session>, s: Session, start: nat, keys: map<SessionKey, nat>, key: SessionKey)
    requires start < |vs| && KeysOk(vs, sessions, start, keys) && key !in keys
    requires s.first < |vs| && SamePart(vs[start], vs[s.first]) && KeyIn(vs, s.first) == key
    ensures KeysOk(vs, sessions + [s], start, keys[key := |sessions|])
  {
    var more, all := sessions + [s], keys[key := |sessions|];
    forall k | k in all
      ensures IsKeyOf(vs, more, start, k, all[k])
    {
      if k != key { assert IsKeyOf(vs, sessions, start, k, keys[k]); }
    }
    forall i | 0 <= i < |sessions|
      ensures more[i] == sessions[i]
    {
    }
  }

  lemma {:induction false} NewKey(vs: seq<View>, start: nat, x: nat, sessions: seq<Session>, keys: map<SessionKey, nat>, i: nat)
    requires start < |vs| && x < |vs| && SamePart(vs[start], vs[x]) && KeysOk(vs, sessions, start, keys)
    requires KeyIn(vs, x) !in keys && i < |sessions| && sessions[i].first < |vs|
    ensures !SameSession(vs, sessions[i].first, x)
  {
  }

  /** View x put into the session of its key, begun if there is none. */
  method AddView(vs: seq<View>, start: nat, end: nat, x: nat, key: SessionKey, sessions: seq<Session>, keys: map<SessionKey, nat>)
    returns (more: seq<Session>, allKeys: map<SessionKey, nat>)
    requires IsPartition(vs, start, end) && start <= x < end && key == KeyIn(vs, x)
    requires AreSessions(vs, x, sessions) && KeysOk(vs, sessions, start, keys)
    ensures AreSessions(vs, x + 1, more) && KeysOk(vs, more, start, allKeys)
  {
    if key in keys {
      var s := keys[key];
      assert IsKeyOf(vs, sessions, start, key, s);
      Joins(vs, x, sessions, s);
      allKeys := keys;
      more := sessions[s := sessions[s].(last := x, views := sessions[s].views + 1)];
      KeysStay(vs, sessions, more, start, keys);
    } else {
      forall i | 0 <= i < |sessions|
        ensures sessions[i].first < |vs| && !SameSession(vs, sessions[i].first, x)
      {
        assert IsSession(vs, x, sessions[i]);
        NewKey(vs, start, x, sessions, keys, i);
      }
      Begins(vs, x, sessions, start);
      var s := Session(x, x, start, 1, vs[x].sessionID != "");
      KeysMore(vs, sessions, s, start, keys, key);
      allKeys := keys[key := |sessions|];
      more := sessions + [s];
    }
  }

  /** The views of one second put into their sessions. */
  method AddPeers(vs: seq<View>, start: nat, end: nat, j: nat, k: nat, run: nat, sessions: seq<Session>, keys: map<SessionKey, nat>)
    returns (more: seq<Session>, allKeys: map<SessionKey, nat>)
    requires IsPartition(vs, start, end) && IsPeers(vs, start, end, j, k) && run == Runs(vs, start, k)
    requires AreSessions(vs, j, sessions) && KeysOk(vs, sessions, start, keys)
    ensures AreSessions(vs, k, more) && KeysOk(vs, more, start, allKeys)
  {
    more, allKeys := sessions, keys;
    for x := j to k
      invariant AreSessions(vs, x, more) && KeysOk(vs, more, start, allKeys)
    {
      RunOfPeers(vs, start, end, j, k, x);
      var key := if vs[x].sessionID != "" then Declared(vs[x].sessionID) else Gap(run);
      more, allKeys := AddView(vs, start, end, x, key, more, allKeys);
    }
  }

  /** The sessions of one partition, second by second. */
  method SessionizePartition(vs: seq<View>, start: nat, end: nat, sessions: seq<Session>) returns (more: seq<Session>)
    requires Sorted(vs) && IsPartition(vs, start, end) && AreSessions(vs, start, sessions)
    ensures AreSessions(vs, end, more)
  {
    more := sessions;
    var keys: map<SessionKey, nat> := map[];
    var run, j := 0, start;
    var prev := 0;
    NoKeysYet(vs, start, end, sessions);
    while j < end
      invariant start <= j <= end
      invariant run == Runs(vs, start, j)
      invariant j > start ==> prev == Seconds(vs[j - 1].ts) && (j < end ==> prev < Seconds(vs[j].ts))
      invariant AreSessions(vs, j, more) && KeysOk(vs, more, start, keys)
    {
      var t := Seconds(vs[j].ts);
      var k := PeersEnd(vs, start, end, j);
      if vs[j].sessionID == "" && (j == start || t - prev > SESSION_GAP_SECONDS) { run := run + 1; }
      RunOfPeers(vs, start, end, j, k, j);
      more, keys := AddPeers(vs, start, end, j, k, run, more, keys);
      prev, j := t, k;
    }
  }

  lemma {:induction false} NoKeysYet(vs: seq<View>, start: nat, end: nat, sessions: seq<Session>)
    requires IsPartition(vs, start, end) && AreSessions(vs, start, sessions)
    ensures KeysOk(vs, sessions, start, map[])
  {
    forall i | 0 <= i < |sessions|
      ensures IsSession(vs, start, sessions[i])
    {
    }
  }

  // ----- the sessions, by the views' fields

  /** By kind, actor, time and id; NULL last. */
  ghost predicate MayPrecede(a: View, b: View) {
    if a.kindNull != b.kindNull then b.kindNull
    else if a.kind != b.kind then SortedFirsts.ComesBefore(a.kind, b.kind)
    else if a.actorNull != b.actorNull then b.actorNull
    else if a.actor != b.actor then SortedFirsts.ComesBefore(a.actor, b.actor)
    else if a.ts != b.ts then a.ts < b.ts
    else if a.idNull != b.idNull then b.idNull
    else a.id == b.id || SortedFirsts.ComesBefore(a.id, b.id)
  }

  ghost predicate InViewOrder(vs: seq<View>) {
    forall i, j {:trigger vs[i], vs[j]} :: 0 <= i < j < |vs| ==> MayPrecede(vs[i], vs[j])
  }

  lemma {:induction false} LeMeans(a: View, b: View)
    ensures Le(a, b) <==> MayPrecede(a, b)
  {
    SortedFirsts.CompareTextMeans(a.kind, b.kind);
    SortedFirsts.CompareTextMeans(a.actor, b.actor);
    SortedFirsts.CompareTextMeans(a.id, b.id);
    CompareTextAntisymmetric(a.kind, b.kind);
    CompareTextAntisymmetric(a.actor, b.actor);
    CompareTextAntisymmetric(a.id, b.id);
  }

  ghost predicate SameActor(a: View, b: View) {
    a.kindNull == b.kindNull && a.kind == b.kind && a.actorNull == b.actorNull && a.actor == b.actor
  }

  /** A view that declares no session comes more than half an hour, in whole seconds,
      after the actor's view before it. */
  ghost predicate IsBreak(vs: seq<View>, z: nat) {
    && 0 < z < |vs| && vs[z].sessionID == "" && SameActor(vs[z - 1], vs[z])
    && vs[z].ts / 1000000 - vs[z - 1].ts / 1000000 > 1800
  }

  ghost predicate BreakWithin(vs: seq<View>, x: nat, y: nat, z: nat)
    requires x < |vs| && y < |vs|
  {
    IsBreak(vs, z) && SameActor(vs[x], vs[z]) && vs[x].ts / 1000000 < vs[z].ts / 1000000 <= vs[y].ts / 1000000
  }

  /** Two views of one actor are of one session when they declare the same one, or
      none and no break lies between them. */
  ghost predicate Together(vs: seq<View>, x: nat, y: nat)
    requires x < |vs| && y < |vs|
  {
    && SameActor(vs[x], vs[y]) && vs[x].sessionID == vs[y].sessionID
    && (vs[x].sessionID == "" ==> NoBreak(vs, x, y))
  }

  ghost predicate NoBreak(vs: seq<View>, x: nat, y: nat)
    requires x < |vs| && y < |vs|
  {
    forall z {:trigger IsBreak(vs, z)} :: !BreakWithin(vs, x, y, z) && !BreakWithin(vs, y, x, z)
  }

  ghost predicate SessionOf(vs: seq<View>, s: Session) {
    && s.first <= s.last < |vs| && Together(vs, s.first, s.last)
    && (forall x {:trigger Together(vs, s.first, x)} :: 0 <= x < |vs| && Together(vs, s.first, x) ==> s.first <= x <= s.last)
    && s.views == |set x {:trigger Together(vs, s.first, x)} | 0 <= x < |vs| && Together(vs, s.first, x)|
    && s.declared == (vs[s.first].sessionID != "")
    && s.partition <= s.first && SameActor(vs[s.partition], vs[s.first])
    && (forall x :: 0 <= x < s.partition ==> !SameActor(vs[x], vs[s.first]))
  }

  /** Each view is in one session, and the sessions come by their first views. */
  ghost predicate SessionsOf(vs: seq<View>, sessions: seq<Session>) {
    && (forall i {:trigger sessions[i]} :: 0 <= i < |sessions| ==> SessionOf(vs, sessions[i]))
    && (forall x {:trigger InSession(vs, sessions, x)} :: 0 <= x < |vs| ==> InSession(vs, sessions, x))
    && (forall i, j {:trigger sessions[i], sessions[j]} :: 0 <= i < j < |sessions| ==>
          sessions[i].first < sessions[j].first && !Together(vs, sessions[i].first, sessions[j].first))
  }

  ghost predicate InSession(vs: seq<View>, sessions: seq<Session>, x: nat)
    requires x < |vs|
  {
    exists i :: 0 <= i < |sessions| && sessions[i].first < |vs| && Together(vs, sessions[i].first, x)
  }

  lemma {:induction false} SecondsAre(ts: int)
    ensures Seconds(ts) == ts / 1000000
  {
  }

  /** The first view of a partition is its earliest. */
  lemma {:induction false} PartBegins(vs: seq<View>, z: nat, x: nat)
    requires Sorted(vs) && x < |vs| && z < |vs| && SamePart(vs[z], vs[x]) && (z == 0 || !SamePart(vs[z - 1], vs[z]))
    ensures Seconds(vs[z].ts) <= Seconds(vs[x].ts)
  {
    if x < z {
      PartitionTogether(vs, x, z - 1, z);
    } else if z < x {
      assert Le(vs[z], vs[x]);
      ComparePartitionZero(vs[z], vs[x]);
      SecondsMonotone(vs[z].ts, vs[x].ts);
    }
  }

  /** More runs begin up to a later view exactly when one begins after the earlier. */
  lemma {:induction false} RunsBetween(vs: seq<View>, x: nat, y: nat, n: nat)
    requires x < |vs| && y < |vs| && n <= |vs| && SamePart(vs[x], vs[y]) && Seconds(vs[x].ts) <= Seconds(vs[y].ts)
    ensures RunsTo(vs, x, n) <= RunsTo(vs, y, n)
    ensures RunsTo(vs, x, n) < RunsTo(vs, y, n) <==> exists z {:trigger StartsRun(vs, z)} :: 0 <= z < n && RunWithin(vs, x, y, z)
  {
    if n > 0 {
      RunsBetween(vs, x, y, n - 1);
      assert RunWithin(vs, x, y, n - 1) ==> StartsRun(vs, n - 1);
      if z :| 0 <= z < n - 1 && RunWithin(vs, x, y, z) { assert StartsRun(vs, z); }
    }
  }

  ghost predicate RunWithin(vs: seq<View>, x: nat, y: nat, z: nat)
    requires x < |vs| && y < |vs|
  {
    z < |vs| && StartsRun(vs, z) && SamePart(vs[x], vs[z]) && Seconds(vs[x].ts) < Seconds(vs[z].ts) <= Seconds(vs[y].ts)
  }

  lemma {:induction false} RunIsBreak(vs: seq<View>, x: nat, y: nat, z: nat)
    requires Sorted(vs) && x < |vs| && y < |vs|
    ensures RunWithin(vs, x, y, z) <==> BreakWithin(vs, x, y, z)
  {
    if z < |vs| {
      SecondsAre(vs[x].ts);
      SecondsAre(vs[y].ts);
      SecondsAre(vs[z].ts);
      if z > 0 { SecondsAre(vs[z - 1].ts); }
      if SamePart(vs[z], vs[x]) && (z == 0 || !SamePart(vs[z - 1], vs[z])) { PartBegins(vs, z, x); }
    }
  }

  lemma {:induction false} SameRun(vs: seq<View>, x: nat, y: nat)
    requires Sorted(vs) && x < |vs| && y < |vs| && SamePart(vs[x], vs[y]) && Seconds(vs[x].ts) <= Seconds(vs[y].ts)
    ensures RunsTo(vs, x, |vs|) == RunsTo(vs, y, |vs|) <==> NoBreak(vs, x, y)
    ensures NoBreak(vs, x, y) <==> NoBreak(vs, y, x)
  {
    RunsBetween(vs, x, y, |vs|);
    forall z
      ensures RunWithin(vs, x, y, z) <==> BreakWithin(vs, x, y, z)
      ensures !BreakWithin(vs, y, x, z)
    {
      RunIsBreak(vs, x, y, z);
      RunIsBreak(vs, y, x, z);
    }
    if z :| BreakWithin(vs, x, y, z) { assert StartsRun(vs, z) && IsBreak(vs, z); }
    if z :| 0 <= z < |vs| && RunWithin(vs, x, y, z) { assert IsBreak(vs, z); }
  }

  /** The sessions' keys say no more and no less. */
  lemma {:induction false} TogetherMeans(vs: seq<View>, x: nat, y: nat)
    requires Sorted(vs) && x < |vs| && y < |vs|
    ensures SameSession(vs, x, y) <==> Together(vs, x, y)
  {
    if SamePart(vs[x], vs[y]) && vs[x].sessionID == "" && vs[y].sessionID == "" {
      if Seconds(vs[x].ts) <= Seconds(vs[y].ts) { SameRun(vs, x, y); } else { SameRun(vs, y, x); }
    }
  }

  ghost function SessionViews(vs: seq<View>, x: nat, n: nat): set<nat>
    requires x < |vs| && n <= |vs|
  {
    set y {:trigger SameSession(vs, x, y)} | 0 <= y < n && SameSession(vs, x, y)
  }

  lemma {:induction false} CountViews(vs: seq<View>, x: nat, n: nat)
    requires x < |vs| && n <= |vs|
    ensures ViewsOf(vs, x, n) == |SessionViews(vs, x, n)|
  {
    if n > 0 {
      CountViews(vs, x, n - 1);
      OneMore(SessionViews(vs, x, n - 1), SessionViews(vs, x, n), n - 1, SameSession(vs, x, n - 1));
    }
  }

  lemma {:induction false} OneMore(a: set<nat>, b: set<nat>, n: nat, more: bool)
    requires n !in a && forall y :: y in b <==> y in a || (y == n && more)
    ensures |b| == |a| + if more then 1 else 0
  {
    assert b == if more then a + {n} else a;
  }

  lemma {:induction false} SessionMeans(vs: seq<View>, s: Session)
    requires Sorted(vs) && IsSession(vs, |vs|, s)
    ensures SessionOf(vs, s)
  {
    forall x | 0 <= x < |vs|
      ensures SameSession(vs, s.first, x) <==> Together(vs, s.first, x)
    {
      TogetherMeans(vs, s.first, x);
    }
    CountViews(vs, s.first, |vs|);
    assert SessionViews(vs, s.first, |vs|) ==
           set x {:trigger Together(vs, s.first, x)} | 0 <= x < |vs| && Together(vs, s.first, x);
  }

  lemma {:induction false} SessionsMean(vs: seq<View>, sessions: seq<Session>)
    requires Sorted(vs) && AreSessions(vs, |vs|, sessions)
    ensures InViewOrder(vs) && SessionsOf(vs, sessions)
  {
    forall i, j | 0 <= i < j < |vs|
      ensures MayPrecede(vs[i], vs[j])
    {
      LeMeans(vs[i], vs[j]);
    }
    forall i | 0 <= i < |sessions|
      ensures SessionOf(vs, sessions[i])
    {
      assert IsSession(vs, |vs|, sessions[i]);
      SessionMeans(vs, sessions[i]);
    }
    forall x | 0 <= x < |vs|
      ensures InSession(vs, sessions, x)
    {
      assert HasSession(vs, sessions, x);
      var i :| 0 <= i < |sessions| && sessions[i].first < |vs| && SameSession(vs, sessions[i].first, x);
      TogetherMeans(vs, sessions[i].first, x);
    }
    forall i, j | 0 <= i < j < |sessions|
      ensures sessions[i].first < sessions[j].first && !Together(vs, sessions[i].first, sessions[j].first)
    {
      TogetherMeans(vs, sessions[i].first, sessions[j].first);
      if Together(vs, sessions[i].first, sessions[j].first) { OneSession(vs, |vs|, sessions, i, j, sessions[j].first); }
    }
  }

  /** Sessionize: the views sorted in place, by kind, actor and time, and the sessions
      of each partition in turn. Every view is in exactly one of them. */
  method Sessionize(views: array<View>) returns (sessions: seq<Session>)
    modifies views
    ensures InViewOrder(views[..]) && multiset(views[..]) == multiset(old(views[..]))
    ensures AreSessions(views[..], views.Length, sessions)
    ensures SessionsOf(views[..], sessions)
  {
    SortViews(views);
    var vs := views[..];
    sessions := [];
    var start := 0;
    while start < |vs|
      invariant start <= |vs| && (0 < start < |vs| ==> !SamePart(vs[start - 1], vs[start]))
      invariant AreSessions(vs, start, sessions) && views[..] == vs
    {
      var end := PartitionEnd(vs, start);
      sessions := SessionizePartition(vs, start, end, sessions);
      start := end;
    }
    SessionsMean(vs, sessions);
  }

  // ----- the sessions are determined by the views

  lemma {:induction false} SameFirsts(vs: seq<View>, a: seq<Session>, b: seq<Session>, i: nat)
    requires AreSessions(vs, |vs|, a) && AreSessions(vs, |vs|, b) && i < |a|
    ensures a[i] in b
  {
    assert IsSession(vs, |vs|, a[i]);
    assert HasSession(vs, b, a[i].first);
    var j :| 0 <= j < |b| && b[j].first < |vs| && SameSession(vs, b[j].first, a[i].first);
    assert IsSession(vs, |vs|, b[j]);
    assert SameSession(vs, a[i].first, b[j].first);
    assert a[i].first == b[j].first;
    assert SameSession(vs, a[i].first, b[j].last) && SameSession(vs, b[j].first, a[i].last);
  }

  /** Sorted views have one list of sessions. */
  lemma {:induction false} SessionsUnique(vs: seq<View>, a: seq<Session>, b: seq<Session>)
    requires AreSessions(vs, |vs|, a) && AreSessions(vs, |vs|, b)
    ensures a == b
  {
    forall s
      ensures s in a <==> s in b
    {
      if s in a {
        var i :| 0 <= i < |a| && a[i] == s;
        SameFirsts(vs, a, b, i);
      }
      if s in b {
        var i :| 0 <= i < |b| && b[i] == s;
        SameFirsts(vs, b, a, i);
      }
    }
    OrderedUnique((s: Session, t: Session) => s.first < t.first, a, b);
  }
}
