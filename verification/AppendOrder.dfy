/** In what order a day's lines are dumped. A merge reads a day's segments in
    turn, so that of a repeated id the line appended first is kept exactly when
    each segment holds older lines than the next. */
module AppendOrder {
  import opened Rows
  import opened StableSort
  import opened FirstRows
  import opened Segments
  import opened Directory

  // ----- what the order is

  /** Line i is in the day's segment s, dumped or claimed. */
  ghost predicate SegHas(files: map<Name, File>, d: int, s: nat, i: nat) {
    if DayFile(d, s) in files then i in files[DayFile(d, s)].of
    else Dumping(d, s) in files && i in files[Dumping(d, s)].of
  }

  /** Line i is in a log of the day that is not claimed. */
  ghost predicate Waits(files: map<Name, File>, d: int, i: nat) {
    (LogName(d) in files && i in files[LogName(d)].of) || exists n :: ClosedHas(files, d, n, i)
  }

  ghost predicate ClosedHas(files: map<Name, File>, d: int, n: nat, i: nat) {
    Closed(d, n) in files && i in files[Closed(d, n)].of
  }

  /** Each segment's lines were appended before the next one's, and before those
      that wait. */
  ghost predicate SegmentsInOrder(files: map<Name, File>, d: int) {
    && (forall s: nat, t: nat, i: nat, j: nat {:trigger SegHas(files, d, s, i), SegHas(files, d, t, j)} ::
          s < t && SegHas(files, d, s, i) && SegHas(files, d, t, j) ==> i < j)
    && (forall s: nat, i: nat, j: nat {:trigger SegHas(files, d, s, i), Waits(files, d, j)} ::
          SegHas(files, d, s, i) && Waits(files, d, j) ==> i < j)
  }

  ghost predicate IsOfDay(appended: seq<Entry>, i: nat, d: int) {
    i < |appended| && appended[i].day == d
  }

  /** The lines of the day among of, in the order appended. */
  ghost predicate DayAscends(appended: seq<Entry>, of: seq<nat>, d: int) {
    forall j, k :: 0 <= j < k < |of| && IsOfDay(appended, of[j], d) && IsOfDay(appended, of[k], d) ==> of[j] < of[k]
  }

  /** The day's lines are held in the order appended: segment by segment, and
      once merged in the month file. */
  ghost predicate InAppendOrder(cal: Calendar, st: State, d: int) {
    var m := MonthFile(cal.monthOf(d));
    if m in st.files then DayAscends(st.appended, st.files[m].of, d) else SegmentsInOrder(st.files, d)
  }

  ghost predicate AllBefore(a: seq<nat>, b: seq<nat>) {
    forall i, j :: i in a && j in b ==> i < j
  }

  /** No closed log of the day that waits has an older line than <day>.<n>.closed. */
  ghost predicate IsOldest(files: map<Name, File>, d: int, n: nat)
    requires Closed(d, n) in files
  {
    forall m: nat {:trigger Closed(d, m)} :: Closed(d, m) in files && m != n ==> AllBefore(files[Closed(d, n)].of, files[Closed(d, m)].of)
  }

  // ----- what every step keeps

  ghost predicate Ascends(of: seq<nat>) {
    forall j, k :: 0 <= j < k < |of| ==> of[j] < of[k]
  }

  /** But for month files each file's lines are in the order appended, and those
      of an open log the latest of its day. */
  ghost predicate FileAges(files: map<Name, File>, n: Name)
    requires n in files
  {
    && (!n.MonthFile? ==> Ascends(files[n].of))
    && (n.Closed? && LogName(n.day) in files ==> AllBefore(files[n].of, files[LogName(n.day)].of))
  }

  /** A day's segments are numbered without a gap until its month is merged. */
  ghost predicate NoGap(cal: Calendar, files: map<Name, File>, d: int, t: nat) {
    IsTarget(files, d, t) && MonthFile(cal.monthOf(d)) !in files ==> forall k :: 0 <= k < t ==> IsTarget(files, d, k)
  }

  /** A month file's lines, day by day. */
  ghost predicate ByDay(appended: seq<Entry>, of: seq<nat>) {
    forall j, k :: 0 <= j < k < |of| && of[j] < |appended| && of[k] < |appended| ==> appended[of[j]].day <= appended[of[k]].day
  }

  ghost predicate MonthByDay(st: State, n: Name) {
    n in st.files && n.MonthFile? ==> ByDay(st.appended, st.files[n].of)
  }

  ghost predicate Aged(cal: Calendar, st: State) {
    FilesAged(cal, st) && forall n {:trigger MonthByDay(st, n)} :: MonthByDay(st, n)
  }

  ghost predicate FilesAged(cal: Calendar, st: State) {
    && (forall n {:trigger FileAges(st.files, n)} :: n in st.files ==> FileAges(st.files, n))
    && (forall d, t: nat {:trigger NoGap(cal, st.files, d, t)} :: NoGap(cal, st.files, d, t))
  }

  lemma {:induction false} AppendKeepsAges(cal: Calendar, late: nat, a: State, d: int, rows: seq<Row>)
    requires Inv(cal, late, a) && FilesAged(cal, a) && Enabled(cal, late, a, Append(d, rows))
    ensures FilesAged(cal, After(cal, late, a, Append(d, rows)))
  {
    var b := After(cal, late, a, Append(d, rows));
    forall n | n in b.files
      ensures FileAges(b.files, n)
    {
      if n in a.files {
        assert FileAges(a.files, n) && FileOk(cal, a, n, a.files[n]);
      }
      if LogName(d) in a.files {
        assert FileAges(a.files, LogName(d)) && FileOk(cal, a, LogName(d), a.files[LogName(d)]);
      }
    }
    GapsStay(cal, a.files, b.files);
  }

  lemma {:induction false} GapsStay(cal: Calendar, a: map<Name, File>, b: map<Name, File>)
    requires forall d, t: nat {:trigger NoGap(cal, a, d, t)} :: NoGap(cal, a, d, t)
    requires forall n :: n in a && n.MonthFile? ==> n in b
    requires forall d, t: nat {:trigger IsTarget(a, d, t)} :: MonthFile(cal.monthOf(d)) !in a ==> (IsTarget(a, d, t) <==> IsTarget(b, d, t))
    ensures forall d, t: nat {:trigger NoGap(cal, b, d, t)} :: NoGap(cal, b, d, t)
  {
    forall d, t: nat
      ensures NoGap(cal, b, d, t)
    {
      assert NoGap(cal, a, d, t);
      if MonthFile(cal.monthOf(d)) !in b {
        assert IsTarget(a, d, t) <==> IsTarget(b, d, t);
        forall k | 0 <= k < t && IsTarget(b, d, t)
          ensures IsTarget(b, d, k)
        {
          assert IsTarget(a, d, k);
        }
      }
    }
  }

  lemma {:induction false} ClaimKeepsAges(cal: Calendar, late: nat, a: State, d: int, n: nat, seg: nat)
    requires FilesAged(cal, a) && Enabled(cal, late, a, Claim(d, n, seg))
    ensures FilesAged(cal, After(cal, late, a, Claim(d, n, seg)))
  {
    var b := After(cal, late, a, Claim(d, n, seg));
    assert FileAges(a.files, Closed(d, n));
    forall m | m in b.files
      ensures FileAges(b.files, m)
    {
      if m in a.files { assert FileAges(a.files, m); }
    }
    forall e, t: nat
      ensures NoGap(cal, b.files, e, t)
    {
      assert NoGap(cal, a.files, e, t);
      assert forall k: nat :: IsTarget(b.files, e, k) <==> IsTarget(a.files, e, k) || (e == d && k == seg);
    }
  }

  lemma {:induction false} OthersFileAges(cal: Calendar, late: nat, a: State, s: Step, n: Name)
    requires Inv(cal, late, a) && FilesAged(cal, a) && Enabled(cal, late, a, s) && !s.Append? && !s.Claim?
    requires n in After(cal, late, a, s).files
    ensures FileAges(After(cal, late, a, s).files, n)
  {
    if n in a.files { assert FileAges(a.files, n); }
    if s.Rotate? { assert FileAges(a.files, LogName(s.day)); }
    if s.WriteTarget? { assert FileAges(a.files, Dumping(s.day, s.seg)); }
  }

  lemma {:induction false} SameTargets(cal: Calendar, late: nat, a: State, s: Step, d: int, t: nat)
    requires Enabled(cal, late, a, s) && !s.Append? && !s.Claim? && MonthFile(cal.monthOf(d)) !in a.files
    ensures IsTarget(a.files, d, t) <==> IsTarget(After(cal, late, a, s).files, d, t)
  {
  }

  /** The steps that neither append nor claim: no file gains a line, and no
      target comes or goes but for a merged month's. */
  lemma {:induction false} OthersKeepAges(cal: Calendar, late: nat, a: State, s: Step)
    requires Inv(cal, late, a) && FilesAged(cal, a) && Enabled(cal, late, a, s) && !s.Append? && !s.Claim?
    ensures FilesAged(cal, After(cal, late, a, s))
  {
    var b := After(cal, late, a, s);
    forall n | n in b.files
      ensures FileAges(b.files, n)
    {
      OthersFileAges(cal, late, a, s, n);
    }
    forall d, t: nat | MonthFile(cal.monthOf(d)) !in a.files
      ensures IsTarget(a.files, d, t) <==> IsTarget(b.files, d, t)
    {
      SameTargets(cal, late, a, s, d, t);
    }
    GapsStay(cal, a.files, b.files);
  }

  /** The lines of the days in turn are day by day. */
  lemma {:induction false} DaysByDay(cal: Calendar, late: nat, st: State, days: seq<Name>)
    requires Inv(cal, late, st) && (forall k :: 0 <= k < |days| ==> days[k] in st.files && days[k].DayFile?)
    requires forall j, k :: 0 <= j < k < |days| ==> days[j].day <= days[k].day
    ensures ByDay(st.appended, OfAll(st.files, days))
  {
    if days != [] {
      assert forall k :: 0 <= k < |days[1..]| ==> days[1..][k] == days[k + 1];
      DaysByDay(cal, late, st, days[1..]);
      var of, rest := st.files[days[0]].of, OfAll(st.files, days[1..]);
      assert FileOk(cal, st, days[0], st.files[days[0]]);
      forall k | 0 <= k < |rest|
        ensures rest[k] < |st.appended| && days[0].day <= st.appended[rest[k]].day
      {
        assert rest[k] in rest;
        OfAllMember(st.files, days[1..], rest[k]);
        var n :| n in days[1..] && rest[k] in st.files[n].of;
        assert FileOk(cal, st, n, st.files[n]);
        var x :| 0 <= x < |st.files[n].of| && st.files[n].of[x] == rest[k];
        var y :| 0 <= y < |days[1..]| && days[1..][y] == n;
        assert days[0].day <= days[y + 1].day;
      }
    }
  }

  lemma {:induction false} StepKeepsByDay(cal: Calendar, late: nat, a: State, s: Step, n: Name)
    requires Inv(cal, late, a) && Aged(cal, a) && Enabled(cal, late, a, s)
    ensures MonthByDay(After(cal, late, a, s), n)
  {
    assert MonthByDay(a, n);
    if n in a.files {
      assert FileOk(cal, a, n, a.files[n]);
    } else if s.WriteMonth? {
      DaysByDay(cal, late, a, s.days);
    }
  }

  lemma {:induction false} StepKeepsDays(cal: Calendar, late: nat, a: State, s: Step)
    requires Inv(cal, late, a) && Aged(cal, a) && Enabled(cal, late, a, s)
    ensures forall n {:trigger MonthByDay(After(cal, late, a, s), n)} :: MonthByDay(After(cal, late, a, s), n)
  {
    forall n
      ensures MonthByDay(After(cal, late, a, s), n)
    {
      StepKeepsByDay(cal, late, a, s, n);
    }
  }

  lemma {:induction false} StepKeepsAges(cal: Calendar, late: nat, a: State, s: Step)
    requires Inv(cal, late, a) && Aged(cal, a) && Enabled(cal, late, a, s)
    ensures Aged(cal, After(cal, late, a, s))
  {
    StepKeepsDays(cal, late, a, s);
    match s
    case Append(d, rows) => AppendKeepsAges(cal, late, a, d, rows);
    case Claim(d, n, seg) => ClaimKeepsAges(cal, late, a, d, n, seg);
    case _ => OthersKeepAges(cal, late, a, s);
  }

  // ----- when a step keeps a day's order

  lemma {:induction false} SameOrder(a: map<Name, File>, b: map<Name, File>, d: int)
    requires forall s: nat, i: nat :: SegHas(a, d, s, i) <==> SegHas(b, d, s, i)
    requires forall i: nat :: Waits(a, d, i) <==> Waits(b, d, i)
    ensures SegmentsInOrder(a, d) <==> SegmentsInOrder(b, d)
  {
  }

  lemma {:induction false} SegLine(cal: Calendar, late: nat, st: State, d: int, s: nat, i: nat)
    requires Inv(cal, late, st) && SegHas(st.files, d, s, i)
    ensures i < |st.appended|
  {
    var n := if DayFile(d, s) in st.files then DayFile(d, s) else Dumping(d, s);
    assert FileOk(cal, st, n, st.files[n]);
    var k :| 0 <= k < |st.files[n].of| && st.files[n].of[k] == i;
  }

  lemma {:induction false} WaitsAfterAppend(cal: Calendar, late: nat, a: State, e: int, rows: seq<Row>, d: int, i: nat)
    requires Enabled(cal, late, a, Append(e, rows))
    ensures var b := After(cal, late, a, Append(e, rows));
            && (Waits(a.files, d, i) ==> Waits(b.files, d, i))
            && (Waits(b.files, d, i) ==> Waits(a.files, d, i) || i >= |a.appended|)
  {
    var b := After(cal, late, a, Append(e, rows));
    assert forall n: nat :: ClosedHas(a.files, d, n, i) <==> ClosedHas(b.files, d, n, i);
  }

  lemma {:induction false} AppendOrders(cal: Calendar, late: nat, a: State, e: int, rows: seq<Row>, d: int)
    requires Inv(cal, late, a) && Enabled(cal, late, a, Append(e, rows))
    ensures InAppendOrder(cal, After(cal, late, a, Append(e, rows)), d) <==> InAppendOrder(cal, a, d)
  {
    var b := After(cal, late, a, Append(e, rows));
    var m := MonthFile(cal.monthOf(d));
    if m in a.files {
      assert FileOk(cal, a, m, a.files[m]);
      assert forall k :: 0 <= k < |a.files[m].of| ==> (IsOfDay(b.appended, a.files[m].of[k], d) <==> IsOfDay(a.appended, a.files[m].of[k], d));
    } else {
      forall s: nat, i: nat
        ensures SegHas(b.files, d, s, i) <==> SegHas(a.files, d, s, i)
        ensures SegHas(a.files, d, s, i) ==> i < |a.appended|
      {
        if SegHas(a.files, d, s, i) { SegLine(cal, late, a, d, s, i); }
      }
      forall i: nat
        ensures Waits(a.files, d, i) ==> Waits(b.files, d, i)
        ensures Waits(b.files, d, i) ==> Waits(a.files, d, i) || i >= |a.appended|
      {
        WaitsAfterAppend(cal, late, a, e, rows, d, i);
      }
    }
  }

  // ----- a claim

  lemma {:induction false} WaitsBeforeClaim(cal: Calendar, late: nat, a: State, d: int, n: nat, seg: nat, e: int, i: nat)
    requires Enabled(cal, late, a, Claim(d, n, seg))
    ensures var b := After(cal, late, a, Claim(d, n, seg));
            Waits(a.files, e, i) <==> Waits(b.files, e, i) || (e == d && ClosedHas(a.files, d, n, i))
  {
    var b := After(cal, late, a, Claim(d, n, seg));
    assert forall m: nat :: ClosedHas(a.files, e, m, i) <==> ClosedHas(b.files, e, m, i) || (e == d && m == n && ClosedHas(a.files, d, n, i));
  }

  lemma {:induction false} SegsAfterClaim(cal: Calendar, late: nat, a: State, d: int, n: nat, seg: nat, e: int, s: nat, i: nat)
    requires Enabled(cal, late, a, Claim(d, n, seg))
    ensures var b := After(cal, late, a, Claim(d, n, seg));
            && (SegHas(b.files, e, s, i) <==> SegHas(a.files, e, s, i) || (e == d && s == seg && ClosedHas(a.files, d, n, i)))
            && !SegHas(a.files, d, seg, i)
  {
  }

  /** Which lines wait once <day>.<n>.closed is claimed: later ones, when it is
      the oldest. */
  lemma {:induction false} OldestIsBefore(cal: Calendar, late: nat, a: State, d: int, n: nat, seg: nat)
    requires Aged(cal, a) && Enabled(cal, late, a, Claim(d, n, seg))
    ensures IsOldest(a.files, d, n) <==>
            forall i: nat, j: nat {:trigger ClosedHas(a.files, d, n, i), Waits(After(cal, late, a, Claim(d, n, seg)).files, d, j)} ::
              ClosedHas(a.files, d, n, i) && Waits(After(cal, late, a, Claim(d, n, seg)).files, d, j) ==> i < j
  {
    var b := After(cal, late, a, Claim(d, n, seg));
    assert FileAges(a.files, Closed(d, n));
    if IsOldest(a.files, d, n) {
      forall i: nat, j: nat | ClosedHas(a.files, d, n, i) && Waits(b.files, d, j)
        ensures i < j
      {
        if m: nat :| ClosedHas(b.files, d, m, j) {
          assert Closed(d, m) in a.files && m != n;
        }
      }
    } else {
      var m: nat :| Closed(d, m) in a.files && m != n && !AllBefore(a.files[Closed(d, n)].of, a.files[Closed(d, m)].of);
      var i, j :| i in a.files[Closed(d, n)].of && j in a.files[Closed(d, m)].of && i >= j;
      assert ClosedHas(a.files, d, n, i) && ClosedHas(b.files, d, m, j);
      assert Waits(b.files, d, j);
    }
  }

  lemma {:induction false} NoLaterSeg(cal: Calendar, files: map<Name, File>, d: int, seg: nat, s: nat, i: nat)
    requires NoGap(cal, files, d, s) && MonthFile(cal.monthOf(d)) !in files && IsFirstTarget(files, d, seg)
    requires SegHas(files, d, s, i)
    ensures s < seg
  {
    assert IsTarget(files, d, s);
  }

  lemma {:induction false} ClaimOrders(cal: Calendar, late: nat, a: State, d: int, n: nat, seg: nat)
    requires Inv(cal, late, a) && Aged(cal, a) && Enabled(cal, late, a, Claim(d, n, seg))
    ensures InAppendOrder(cal, After(cal, late, a, Claim(d, n, seg)), d) <==> InAppendOrder(cal, a, d) && IsOldest(a.files, d, n)
  {
    var b := After(cal, late, a, Claim(d, n, seg));
    assert MonthOk(cal, a, Closed(d, n));
    OldestIsBefore(cal, late, a, d, n, seg);
    forall i: nat
      ensures Waits(a.files, d, i) <==> Waits(b.files, d, i) || ClosedHas(a.files, d, n, i)
    {
      WaitsBeforeClaim(cal, late, a, d, n, seg, d, i);
    }
    forall s: nat, i: nat
      ensures SegHas(b.files, d, s, i) <==> SegHas(a.files, d, s, i) || (s == seg && ClosedHas(a.files, d, n, i))
      ensures SegHas(a.files, d, s, i) ==> s < seg
    {
      SegsAfterClaim(cal, late, a, d, n, seg, d, s, i);
      assert NoGap(cal, a.files, d, s);
      if SegHas(a.files, d, s, i) { NoLaterSeg(cal, a.files, d, seg, s, i); }
    }
    assert forall i: nat :: ClosedHas(a.files, d, n, i) ==> SegHas(b.files, d, seg, i);
  }

  lemma {:induction false} OtherDaysClaim(cal: Calendar, late: nat, a: State, e: int, n: nat, seg: nat, d: int)
    requires Enabled(cal, late, a, Claim(e, n, seg)) && d != e
    ensures InAppendOrder(cal, After(cal, late, a, Claim(e, n, seg)), d) <==> InAppendOrder(cal, a, d)
  {
    var b := After(cal, late, a, Claim(e, n, seg));
    forall i: nat
      ensures Waits(a.files, d, i) <==> Waits(b.files, d, i)
    {
      WaitsBeforeClaim(cal, late, a, e, n, seg, d, i);
    }
    SameOrder(a.files, b.files, d);
  }

  // ----- the steps that move no line before another

  lemma {:induction false} SameSegs(cal: Calendar, late: nat, a: State, s: Step, d: int, t: nat, i: nat)
    requires Inv(cal, late, a) && Enabled(cal, late, a, s) && !s.Append? && !s.Claim? && MonthFile(cal.monthOf(d)) !in a.files
    ensures SegHas(After(cal, late, a, s).files, d, t, i) <==> SegHas(a.files, d, t, i)
  {
  }

  lemma {:induction false} SameWaits(cal: Calendar, late: nat, a: State, s: Step, d: int, i: nat)
    requires Enabled(cal, late, a, s) && !s.Append? && !s.Claim?
    ensures Waits(After(cal, late, a, s).files, d, i) <==> Waits(a.files, d, i)
  {
    var b := After(cal, late, a, s);
    if s.Rotate? && s.day == d {
      assert forall m: nat :: ClosedHas(b.files, d, m, i) <==> ClosedHas(a.files, d, m, i) || (m == s.n && i in a.files[LogName(d)].of);
      assert i in a.files[LogName(d)].of ==> ClosedHas(b.files, d, s.n, i);
    } else {
      assert forall m: nat :: ClosedHas(b.files, d, m, i) <==> ClosedHas(a.files, d, m, i);
    }
  }

  lemma {:induction false} OthersOrder(cal: Calendar, late: nat, a: State, s: Step, d: int)
    requires Inv(cal, late, a) && Enabled(cal, late, a, s) && !s.Append? && !s.Claim?
    requires s.WriteMonth? ==> s.month != cal.monthOf(d)
    ensures InAppendOrder(cal, After(cal, late, a, s), d) <==> InAppendOrder(cal, a, d)
  {
    var b := After(cal, late, a, s);
    if MonthFile(cal.monthOf(d)) !in a.files {
      forall t: nat, i: nat
        ensures SegHas(a.files, d, t, i) <==> SegHas(b.files, d, t, i)
      {
        SameSegs(cal, late, a, s, d, t, i);
      }
      forall i: nat
        ensures Waits(a.files, d, i) <==> Waits(b.files, d, i)
      {
        SameWaits(cal, late, a, s, d, i);
      }
      SameOrder(a.files, b.files, d);
    }
  }

  // ----- the merge

  ghost predicate LinesBefore(appended: seq<Entry>, a: seq<nat>, b: seq<nat>, d: int) {
    forall i, j :: i in a && j in b && IsOfDay(appended, i, d) && IsOfDay(appended, j, d) ==> i < j
  }

  lemma {:induction false} ConcatAscends(appended: seq<Entry>, a: seq<nat>, b: seq<nat>, d: int)
    ensures DayAscends(appended, a + b, d) <==> DayAscends(appended, a, d) && DayAscends(appended, b, d) && LinesBefore(appended, a, b, d)
  {
    var c := a + b;
    if DayAscends(appended, c, d) {
      forall i, j | i in a && j in b && IsOfDay(appended, i, d) && IsOfDay(appended, j, d)
        ensures i < j
      {
        var x :| 0 <= x < |a| && a[x] == i;
        var y :| 0 <= y < |b| && b[y] == j;
        assert c[x] == i && c[|a| + y] == j;
      }
      assert forall k :: 0 <= k < |a| ==> c[k] == a[k];
      assert forall k :: 0 <= k < |b| ==> c[|a| + k] == b[k];
    }
  }

  ghost predicate ReadInOrder(st: State, days: seq<Name>, d: int)
    requires forall k :: 0 <= k < |days| ==> days[k] in st.files
  {
    forall j, k {:trigger days[j], days[k]} :: 0 <= j < k < |days| ==> LinesBefore(st.appended, st.files[days[j]].of, st.files[days[k]].of, d)
  }

  /** The day's lines of some days, one after another, ascend exactly when each
      day's do and each day's come before the next one's. */
  lemma {:induction false} OfAllAscends(st: State, days: seq<Name>, d: int)
    requires forall k :: 0 <= k < |days| ==> days[k] in st.files
    ensures DayAscends(st.appended, OfAll(st.files, days), d) <==>
            && (forall k :: 0 <= k < |days| ==> DayAscends(st.appended, st.files[days[k]].of, d))
            && ReadInOrder(st, days, d)
  {
    if days != [] {
      var rest := days[1..];
      assert forall k :: 0 <= k < |rest| ==> rest[k] == days[k + 1];
      OfAllAscends(st, rest, d);
      ConcatAscends(st.appended, st.files[days[0]].of, OfAll(st.files, rest), d);
      FirstBeforeRest(st, days, d);
    }
  }

  lemma {:induction false} FirstBeforeRest(st: State, days: seq<Name>, d: int)
    requires days != [] && forall k :: 0 <= k < |days| ==> days[k] in st.files
    ensures LinesBefore(st.appended, st.files[days[0]].of, OfAll(st.files, days[1..]), d) <==>
            forall k :: 1 <= k < |days| ==> LinesBefore(st.appended, st.files[days[0]].of, st.files[days[k]].of, d)
  {
    var rest := days[1..];
    var first := st.files[days[0]].of;
    assert forall k :: 0 <= k < |rest| ==> rest[k] == days[k + 1];
    forall j: nat
      ensures j in OfAll(st.files, rest) <==> exists k :: 1 <= k < |days| && j in st.files[days[k]].of
    {
      OfAllMember(st.files, rest, j);
      if n :| n in rest && j in st.files[n].of {
        var x :| 0 <= x < |rest| && rest[x] == n;
        assert days[x + 1] == n;
      }
      if k :| 1 <= k < |days| && j in st.files[days[k]].of {
        assert rest[k - 1] in rest;
      }
    }
  }

  lemma {:induction false} LinesOfDay(cal: Calendar, late: nat, st: State, n: Name, i: nat)
    requires Inv(cal, late, st) && n in st.files && !n.MonthFile? && i in st.files[n].of
    ensures IsOfDay(st.appended, i, n.day)
  {
    assert FileOk(cal, st, n, st.files[n]);
    var k :| 0 <= k < |st.files[n].of| && st.files[n].of[k] == i;
  }

  /** Segments in order are read in order. */
  lemma {:induction false} DaysInOrder(cal: Calendar, late: nat, a: State, m: int, days: seq<Name>, d: int, j: nat, k: nat)
    requires Inv(cal, late, a) && Enabled(cal, late, a, WriteMonth(m, days)) && SegmentsInOrder(a.files, d) && j < k < |days|
    ensures LinesBefore(a.appended, a.files[days[j]].of, a.files[days[k]].of, d)
  {
    forall x, y | x in a.files[days[j]].of && y in a.files[days[k]].of && IsOfDay(a.appended, x, d) && IsOfDay(a.appended, y, d)
      ensures x < y
    {
      LinesOfDay(cal, late, a, days[j], x);
      LinesOfDay(cal, late, a, days[k], y);
      assert SegHas(a.files, d, days[j].seg, x) && SegHas(a.files, d, days[k].seg, y);
    }
  }

  lemma {:induction false} InOrderOfDays(cal: Calendar, late: nat, a: State, m: int, days: seq<Name>, d: int, s: nat, t: nat, x: nat, y: nat)
    requires Inv(cal, late, a) && Enabled(cal, late, a, WriteMonth(m, days)) && m == cal.monthOf(d) && s < t
    requires ReadInOrder(a, days, d)
    requires SegHas(a.files, d, s, x) && SegHas(a.files, d, t, y)
    ensures x < y
  {
    assert DayFile(d, s) in days && DayFile(d, t) in days;
    var j :| 0 <= j < |days| && days[j] == DayFile(d, s);
    var k :| 0 <= k < |days| && days[k] == DayFile(d, t);
    LinesOfDay(cal, late, a, days[j], x);
    LinesOfDay(cal, late, a, days[k], y);
  }

  lemma {:induction false} SegmentsAreRead(cal: Calendar, late: nat, a: State, m: int, days: seq<Name>, d: int)
    requires Inv(cal, late, a) && Enabled(cal, late, a, WriteMonth(m, days)) && m == cal.monthOf(d)
    ensures SegmentsInOrder(a.files, d) <==> ReadInOrder(a, days, d)
  {
    if SegmentsInOrder(a.files, d) {
      forall j, k | 0 <= j < k < |days|
        ensures LinesBefore(a.appended, a.files[days[j]].of, a.files[days[k]].of, d)
      {
        DaysInOrder(cal, late, a, m, days, d, j, k);
      }
    }
    if ReadInOrder(a, days, d) {
      forall s: nat, t: nat, x: nat, y: nat | s < t && SegHas(a.files, d, s, x) && SegHas(a.files, d, t, y)
        ensures x < y
      {
        InOrderOfDays(cal, late, a, m, days, d, s, t, x, y);
      }
    }
  }

  lemma {:induction false} FirstMergeOrders(cal: Calendar, late: nat, a: State, m: int, days: seq<Name>, d: int)
    requires Inv(cal, late, a) && Aged(cal, a) && Enabled(cal, late, a, WriteMonth(m, days)) && m == cal.monthOf(d)
    requires MonthFile(m) !in a.files
    ensures DayAscends(a.appended, OfAll(a.files, days), d) <==> SegmentsInOrder(a.files, d)
  {
    forall k | 0 <= k < |days|
      ensures DayAscends(a.appended, a.files[days[k]].of, d)
    {
      assert FileAges(a.files, days[k]);
    }
    OfAllAscends(a, days, d);
    SegmentsAreRead(cal, late, a, m, days, d);
  }

  lemma {:induction false} MergeOrders(cal: Calendar, late: nat, a: State, m: int, days: seq<Name>, d: int)
    requires Inv(cal, late, a) && Aged(cal, a) && Enabled(cal, late, a, WriteMonth(m, days)) && m == cal.monthOf(d)
    ensures InAppendOrder(cal, After(cal, late, a, WriteMonth(m, days)), d) <==> InAppendOrder(cal, a, d)
  {
    if MonthFile(m) in a.files {
      DaysAreTables(cal, late, a, m, days);
      SecondMerge(cal, late, a, m, days);
    } else {
      FirstMergeOrders(cal, late, a, m, days, d);
    }
  }

  /** No step but a claim decides a day's order, and a claim keeps it exactly when
      it takes the oldest closed log that waits. */
  lemma {:induction false} StepOrders(cal: Calendar, late: nat, a: State, s: Step, d: int)
    requires Inv(cal, late, a) && Aged(cal, a) && Enabled(cal, late, a, s)
    ensures InAppendOrder(cal, After(cal, late, a, s), d) <==>
            InAppendOrder(cal, a, d) && (s.Claim? && s.day == d ==> IsOldest(a.files, d, s.n))
  {
    match s
    case Append(e, rows) => AppendOrders(cal, late, a, e, rows, d);
    case Claim(e, n, seg) =>
      if e == d { ClaimOrders(cal, late, a, d, n, seg); } else { OtherDaysClaim(cal, late, a, e, n, seg, d); }
    case WriteMonth(m, days) =>
      if m == cal.monthOf(d) { MergeOrders(cal, late, a, m, days, d); } else { OthersOrder(cal, late, a, s, d); }
    case _ => OthersOrder(cal, late, a, s, d);
  }

  // ----- over whole runs

  /** The states steps go through. */
  ghost predicate IsRunOf(cal: Calendar, late: nat, run: seq<State>, steps: seq<Step>) {
    && |run| == |steps| + 1
    && forall i :: 0 <= i < |steps| ==> Enabled(cal, late, run[i], steps[i]) && run[i + 1] == After(cal, late, run[i], steps[i])
  }

  /** Step j, if it claims a log of the day, claims the oldest that waits. */
  ghost predicate ClaimsOldest(run: seq<State>, steps: seq<Step>, d: int, j: nat)
    requires j < |run| && j < |steps|
  {
    steps[j].Claim? && steps[j].day == d ==> Closed(d, steps[j].n) in run[j].files && IsOldest(run[j].files, d, steps[j].n)
  }

  /** However appends, closings, claims, dumps and merges interleave, a day's lines
      are held in the order appended if and only if at each claim no older closed
      log of the day waited. */
  lemma {:induction false} OldestFirst(cal: Calendar, late: nat, run: seq<State>, steps: seq<Step>, d: int, i: nat)
    requires IsRunOf(cal, late, run, steps) && run[0].files == map[] && run[0].appended == [] && i <= |steps|
    ensures Inv(cal, late, run[i]) && Aged(cal, run[i])
    ensures InAppendOrder(cal, run[i], d) <==> forall j :: 0 <= j < i ==> ClaimsOldest(run, steps, d, j)
  {
    if i == 0 {
      EmptyOk(cal, late, run[0].today);
    } else {
      OldestFirst(cal, late, run, steps, d, i - 1);
      StepKeepsInv(cal, late, run[i - 1], steps[i - 1]);
      StepKeepsAges(cal, late, run[i - 1], steps[i - 1]);
      StepOrders(cal, late, run[i - 1], steps[i - 1], d);
      assert ClaimsOldest(run, steps, d, i - 1) <==>
             (steps[i - 1].Claim? && steps[i - 1].day == d ==> IsOldest(run[i - 1].files, d, steps[i - 1].n));
    }
  }

  function LinesOf(steps: seq<Step>): seq<Entry> {
    if steps == [] then []
    else LinesOf(steps[..|steps| - 1]) +
         match steps[|steps| - 1]
         case Append(d, rows) => seq(|rows|, k requires 0 <= k < |rows| => Entry(rows[k], d))
         case _ => []
  }

  /** The lines appended in a run are those of its appends, one after another. */
  lemma {:induction false} AppendedLines(cal: Calendar, late: nat, run: seq<State>, steps: seq<Step>, i: nat)
    requires IsRunOf(cal, late, run, steps) && run[0].appended == [] && i <= |steps|
    ensures run[i].appended == LinesOf(steps[..i])
  {
    if i > 0 {
      AppendedLines(cal, late, run, steps, i - 1);
      assert steps[..i][..i - 1] == steps[..i - 1] && steps[..i][i - 1] == steps[i - 1];
    }
  }

  ghost function Midnights(steps: seq<Step>, i: nat): set<nat>
    requires i <= |steps|
  {
    set j | 0 <= j < i && steps[j].NextDay?
  }

  lemma {:induction false} MidnightsMore(steps: seq<Step>, i: nat)
    requires i < |steps|
    ensures |Midnights(steps, i + 1)| == |Midnights(steps, i)| + if steps[i].NextDay? then 1 else 0
  {
    assert Midnights(steps, i + 1) == if steps[i].NextDay? then Midnights(steps, i) + {i} else Midnights(steps, i);
  }

  lemma {:induction false} DayAfter(cal: Calendar, late: nat, a: State, s: Step)
    requires Enabled(cal, late, a, s)
    ensures After(cal, late, a, s).today == a.today + if s.NextDay? then 1 else 0
  {
  }

  /** The day is that of the midnights passed. */
  lemma {:induction false} DaysPass(cal: Calendar, late: nat, run: seq<State>, steps: seq<Step>, i: nat)
    requires IsRunOf(cal, late, run, steps) && i <= |steps|
    ensures run[i].today == run[0].today + |Midnights(steps, i)|
  {
    if i > 0 {
      DaysPass(cal, late, run, steps, i - 1);
      MidnightsMore(steps, i - 1);
      DayAfter(cal, late, run[i - 1], steps[i - 1]);
    }
  }

  /** A log is torn only by a write that is not cut back. */
  lemma {:induction false} TornOnlyByTear(cal: Calendar, late: nat, run: seq<State>, steps: seq<Step>, i: nat, d: int)
    requires IsRunOf(cal, late, run, steps) && i <= |steps| && run[0].files == map[]
    requires LogName(d) in run[i].files && run[i].files[LogName(d)].Log? && run[i].files[LogName(d)].torn
    ensures exists j :: 0 <= j < i && steps[j] == Tear(d) &&
              forall k :: j < k < i ==> steps[k] != CutLog(d) && !(steps[k].Append? && steps[k].day == d)
  {
    if steps[i - 1] != Tear(d) {
      TornOnlyByTear(cal, late, run, steps, i - 1, d);
    }
  }

  /** Of each id a file keeps a line of a day; when that day's lines are in order, no
      other of the day with that id was appended before it; and none of an earlier
      day has it, where the lines are held day by day. */
  lemma {:induction false} EarliestKept(appended: seq<Entry>, of: seq<nat>, r: Row) returns (p: nat)
    requires forall k :: 0 <= k < |of| ==> of[k] < |appended|
    requires r in DumpOf(RowsAt(appended, of))
    ensures p < |of| && appended[of[p]].row == r
    ensures DayAscends(appended, of, appended[of[p]].day) ==>
              forall q :: 0 <= q < |of| && appended[of[q]].row.id == r.id && appended[of[q]].day == appended[of[p]].day ==> of[p] <= of[q]
    ensures ByDay(appended, of) ==> forall q :: 0 <= q < |of| && appended[of[q]].row.id == r.id ==> appended[of[p]].day <= appended[of[q]].day
  {
    var rows := RowsAt(appended, of);
    SortSorted(First({}, rows));
    p := FirstPlace({}, rows, r);
    forall q | 0 <= q < |of| && appended[of[q]].row.id == r.id && appended[of[q]].day == appended[of[p]].day
      ensures DayAscends(appended, of, appended[of[p]].day) ==> of[p] <= of[q]
    {
      assert rows[q].id == r.id;
      assert IsOfDay(appended, of[p], appended[of[p]].day) && IsOfDay(appended, of[q], appended[of[p]].day);
    }
    forall q | 0 <= q < |of| && appended[of[q]].row.id == r.id
      ensures ByDay(appended, of) ==> appended[of[p]].day <= appended[of[q]].day
    {
      assert rows[q].id == r.id;
    }
  }

  lemma {:induction false} RunKeepsAges(cal: Calendar, late: nat, run: seq<State>, i: nat)
    requires IsRun(cal, late, run) && i < |run| && Inv(cal, late, run[0]) && Aged(cal, run[0])
    ensures Inv(cal, late, run[i]) && Aged(cal, run[i])
  {
    if i > 0 {
      RunKeepsAges(cal, late, run, i - 1);
      assert CanStep(cal, late, run[i - 1], run[i]);
      var s :| Enabled(cal, late, run[i - 1], s) && run[i] == After(cal, late, run[i - 1], s);
      StepKeepsInv(cal, late, run[i - 1], s);
      StepKeepsAges(cal, late, run[i - 1], s);
    }
  }
}
