/** The distinct ids of a batch's rows, added to their groups' sets and days. */
module Distinct {
  import opened Rows
  import opened Radix

  /** The rows of a batch: its selected rows, their groups (-1, none) and days, the
      rows a metric keeps (None, all), and the id column: None when the batch has none. */
  datatype Batch = Batch(sel: seq<nat>, gids: seq<int>, days: seq<int>, keep: Option<seq<bool>>, ids: Option<Column>)

  /** A column of texts: each row's place in the dictionary, -1 for NULL. */
  datatype Column = Column(dict: seq<string>, idx: seq<int>)

  predicate BatchOk(b: Batch) {
    && |b.gids| == |b.sel|
    && (forall k :: 0 <= k < |b.sel| ==> b.sel[k] < |b.days| && (b.keep.Some? ==> b.sel[k] < |b.keep.value|))
    && (b.ids.Some? ==> forall k :: 0 <= k < |b.sel| ==>
          b.sel[k] < |b.ids.value.idx| && -1 <= b.ids.value.idx[b.sel[k]] < |b.ids.value.dict|)
  }

  /** A row of a tracked group the metric counts. */
  predicate Counts(b: Batch, k: nat)
    requires BatchOk(b) && k < |b.sel|
  {
    b.gids[k] >= 0 && (b.keep.None? || b.keep.value[b.sel[k]])
  }

  function IdAt(b: Batch, k: nat): Option<string>
    requires BatchOk(b) && k < |b.sel|
  {
    if b.ids.None? || b.ids.value.idx[b.sel[k]] < 0 then None else Some(b.ids.value.dict[b.ids.value.idx[b.sel[k]]])
  }

  /** Row k adds e to day d: its group with its id, or with NULL. */
  predicate AddsToDay(b: Batch, k: nat, d: int, e: (int, Option<string>)) {
    BatchOk(b) && k < |b.sel| && Counts(b, k) && b.days[b.sel[k]] == d && e == (b.gids[k], IdAt(b, k))
  }

  type Days = seq<set<(int, Option<string>)>>

  /** days is what it was and what the first n rows add. */
  ghost predicate DaysOf(b: Batch, n: nat, was: Days, days: Days) {
    && |days| == |was|
    && forall d, e {:trigger e in days[d]} :: 0 <= d < |days| ==>
         (e in days[d] <==> e in was[d] || AddedBy(b, n, d, e))
  }

  /** One of the first n rows adds e to day d. */
  ghost predicate AddedBy(b: Batch, n: nat, d: int, e: (int, Option<string>)) {
    exists k: nat :: k < n && AddsToDay(b, k, d, e)
  }

  lemma {:induction false} AddedByMore(b: Batch, n: nat, d: int, e: (int, Option<string>))
    ensures AddedBy(b, n + 1, d, e) <==> AddedBy(b, n, d, e) || AddsToDay(b, n, d, e)
  {
  }

  /** cell: a group's day. */
  function CellOf(g: nat, day: nat, ndays: nat): nat {
    g * ndays + day
  }

  lemma {:induction false} CellTells(g: nat, day: nat, h: nat, other: nat, ndays: nat)
    requires day < ndays && other < ndays && CellOf(g, day, ndays) == CellOf(h, other, ndays)
    ensures g == h && day == other
  {
    SameParts(day, other, ndays, g, h);
  }

  /** cell is one whose day has id in its group already. */
  ghost predicate IsAdded(days: Days, cell: nat, id: Option<string>) {
    exists g: nat, d: nat :: d < |days| && cell == CellOf(g, d, |days|) && (g as int, id) in days[d]
  }

  lemma {:induction false} AddedAlready(days: Days, g: nat, d: nat, id: Option<string>)
    requires d < |days| && IsAdded(days, CellOf(g, d, |days|), id)
    ensures (g as int, id) in days[d]
  {
    var h: nat, o: nat :| o < |days| && CellOf(g, d, |days|) == CellOf(h, o, |days|) && (h as int, id) in days[o];
    CellTells(g, d, h, o, |days|);
  }

  lemma {:induction false} StaysAdded(days: Days, d: nat, e: (int, Option<string>), cell: nat, id: Option<string>)
    requires d < |days| && IsAdded(days, cell, id)
    ensures IsAdded(days[d := days[d] + {e}], cell, id)
  {
    var g: nat, o: nat :| o < |days| && cell == CellOf(g, o, |days|) && (g as int, id) in days[o];
    var more := days[d := days[d] + {e}];
    assert |more| == |days| && days[o] <= more[o];
    assert o < |more| && cell == CellOf(g, o, |more|) && (g as int, id) in more[o];
  }

  /** The cells an id was last met in: what it adds there is added. */
  ghost predicate SeenOk(days: Days, dict: seq<string>, seen: seq<nat>) {
    |seen| == |dict| && forall x {:trigger seen[x]} :: 0 <= x < |seen| && seen[x] > 0 ==> IsAdded(days, seen[x] - 1, Some(dict[x]))
  }

  lemma {:induction false} DaysMore(b: Batch, n: nat, was: Days, days: Days, d: nat, e: (int, Option<string>))
    requires DaysOf(b, n, was, days) && AddsToDay(b, n, d, e) && d < |days|
    ensures DaysOf(b, n + 1, was, days[d := days[d] + {e}])
    ensures e in days[d] ==> DaysOf(b, n + 1, was, days)
  {
    forall o, f
      ensures AddedBy(b, n + 1, o, f) <==> AddedBy(b, n, o, f) || (o == d && f == e)
    {
      AddedByMore(b, n, o, f);
    }
  }

  lemma {:induction false} DaysSame(b: Batch, n: nat, was: Days, days: Days)
    requires BatchOk(b) && n < |b.sel| && !Counts(b, n) && DaysOf(b, n, was, days)
    ensures DaysOf(b, n + 1, was, days)
  {
    forall d, e
      ensures AddedBy(b, n + 1, d, e) <==> AddedBy(b, n, d, e)
    {
      AddedByMore(b, n, d, e);
    }
  }

  /** Row k, of a tracked group g and kept, is of day d, and its dictionary has id for
      it, or none. */
  ghost predicate RowAdds(b: Batch, k: nat, d: int, g: int, id: Option<string>)
    requires BatchOk(b)
  {
    && k < |b.sel| && b.gids[k] == g && g >= 0 && (b.keep.Some? ==> b.keep.value[b.sel[k]]) && b.days[b.sel[k]] == d
    && match id
       case None => b.ids.None? || b.ids.value.idx[b.sel[k]] < 0
       case Some(x) => b.ids.Some? && b.ids.value.idx[b.sel[k]] >= 0 && x == b.ids.value.dict[b.ids.value.idx[b.sel[k]]]
  }

  lemma {:induction false} RowsAdd(b: Batch)
    requires BatchOk(b)
    ensures forall d, g, id {:trigger AddedBy(b, |b.sel|, d, (g, id))} :: AddedBy(b, |b.sel|, d, (g, id)) <==> exists k :: RowAdds(b, k, d, g, id)
  {
    forall d, g, id, k: nat
      ensures AddsToDay(b, k, d, (g, id)) <==> RowAdds(b, k, d, g, id)
    {
    }
  }

  /** The days' half of addDistinct: an id met again in the cell it was last met in
      is skipped, and so is NULL; nothing is left out by that. */
  method AddToDays(b: Batch, days0: Days) returns (ok: bool, days: Days)
    requires BatchOk(b)
    ensures ok <==> forall k :: 0 <= k < |b.sel| && b.gids[k] >= 0 && (b.keep.None? || b.keep.value[b.sel[k]]) ==>
                      0 <= b.days[b.sel[k]] < |days0|
    ensures ok ==> DaysOf(b, |b.sel|, days0, days)
    ensures ok ==> |days| == |days0| && forall d, g, id :: 0 <= d < |days| ==>
              ((g, id) in days[d] <==> (g, id) in days0[d] || exists k :: RowAdds(b, k, d, g, id))
  {
    RowsAdd(b);
    days := days0;
    ghost var dict := if b.ids.Some? then b.ids.value.dict else [];
    var seen: seq<nat> := seq(if b.ids.Some? then |b.ids.value.dict| else 0, _ => 0);
    var last: Option<nat> := None;
    for k := 0 to |b.sel|
      invariant forall j :: 0 <= j < k && Counts(b, j) ==> 0 <= b.days[b.sel[j]] < |days0|
      invariant DaysOf(b, k, days0, days) && SeenOk(days, dict, seen)
      invariant last.Some? ==> IsAdded(days, last.value, None)
    {
      if !Counts(b, k) {
        DaysSame(b, k, days0, days);
        continue;
      }
      var g := b.gids[k];
      var x := if b.ids.None? then -1 else b.ids.value.idx[b.sel[k]];
      var day := b.days[b.sel[k]];
      if day < 0 || day >= |days| { return false, days; }
      days, seen, last := AddOne(b, k, days0, days, g, day, x, dict, seen, last);
    }
    ok := true;
  }

  /** A row's id, or its NULL, added to its day unless it was there. */
  method AddOne(b: Batch, k: nat, ghost days0: Days, days: Days, g: nat, day: nat, x: int, ghost dict: seq<string>, seen: seq<nat>, last: Option<nat>)
    returns (more: Days, nowSeen: seq<nat>, nowLast: Option<nat>)
    requires BatchOk(b) && k < |b.sel| && Counts(b, k) && DaysOf(b, k, days0, days) && SeenOk(days, dict, seen)
    requires g == b.gids[k] && day == b.days[b.sel[k]] && day < |days|
    requires x == if b.ids.None? then -1 else b.ids.value.idx[b.sel[k]]
    requires dict == if b.ids.Some? then b.ids.value.dict else []
    requires last.Some? ==> IsAdded(days, last.value, None)
    ensures DaysOf(b, k + 1, days0, more) && SeenOk(more, dict, nowSeen)
    ensures nowLast.Some? ==> IsAdded(more, nowLast.value, None)
  {
    more, nowSeen, nowLast := days, seen, last;
    var cell := CellOf(g, day, |days|);
    var e: (int, Option<string>) := (g, IdAt(b, k));
    assert AddsToDay(b, k, day, e);
    DaysMore(b, k, days0, days, day, e);
    if x < 0 {
      if last == Some(cell) {
        AddedAlready(days, g, day, None);
        return;
      }
      nowLast := Some(cell);
    } else {
      if seen[x] == cell + 1 {
        AddedAlready(days, g, day, Some(dict[x]));
        return;
      }
      nowSeen := seen[x := cell + 1];
    }
    more := days[day := days[day] + {e}];
    assert e in more[day];
    assert IsAdded(more, cell, e.1);
    if last.Some? { StaysAdded(days, day, e, last.value, None); }
    forall y | 0 <= y < |seen| && seen[y] > 0
      ensures IsAdded(more, seen[y] - 1, Some(dict[y]))
    {
      StaysAdded(days, day, e, seen[y] - 1, Some(dict[y]));
    }
  }
}
