/** What a reader lists of a project's directory: the files that hold its
    events, the sessions files that still describe them, and the days none does. */
module Reader {
  import opened Ordered
  import opened Directory
  import opened Spans

  /** A derived file: the sessions of a day not merged yet, or of a merged month. */
  datatype SessionsFile = OfDay(day: int) | OfMonth(month: int)

  /** The days of month, first to last. */
  ghost predicate MonthsOk(cal: Calendar, firstDay: int -> int) {
    && CalendarOk(cal)
    && (forall m :: firstDay(m) <= cal.lastDay(m))
    && forall d, m {:trigger IsIn(cal, firstDay, d, m)} :: IsIn(cal, firstDay, d, m) <==> cal.monthOf(d) == m
  }

  predicate IsIn(cal: Calendar, firstDay: int -> int, d: int, m: int) {
    firstDay(m) <= d <= cal.lastDay(m)
  }

  // ----- the events files

  /** The files by what they tell: each day not merged and its files, the merged
      months, the days with a log. */
  datatype Found = Found(days: map<int, seq<Name>>, months: set<int>, logDays: set<int>)

  ghost predicate FoundOk(cal: Calendar, names: seq<Name>, n: nat, parquet: seq<Name>, logs: seq<Name>, f: Found)
    requires n <= |names|
  {
    && (forall x :: x in parquet <==> x in names[..n] && ListsName(cal, names, x) && (x.DayFile? || x.MonthFile?))
    && (forall x :: x in logs <==> x in names[..n] && ListsName(cal, names, x) && IsOpen(x))
    && (forall d :: d in f.days <==> exists x :: x in parquet && x.DayFile? && x.day == d)
    && (forall d, x :: d in f.days ==> (x in f.days[d] <==> x in parquet && x.DayFile? && x.day == d))
    && (forall m :: m in f.months <==> MonthFile(m) in parquet)
    && (forall d :: d in f.logDays <==> exists x :: x in logs && x.day == d)
  }

  /** And each as often as the names have it. */
  ghost predicate Counted(cal: Calendar, names: seq<Name>, n: nat, parquet: seq<Name>, logs: seq<Name>)
    requires n <= |names|
  {
    && (forall x: Name {:trigger multiset(parquet)[x]} ::
          multiset(parquet)[x] == if (x.DayFile? || x.MonthFile?) && ListsName(cal, names, x) then multiset(names[..n])[x] else 0)
    && (forall x: Name {:trigger multiset(logs)[x]} ::
          multiset(logs)[x] == if IsOpen(x) && ListsName(cal, names, x) then multiset(names[..n])[x] else 0)
  }

  ghost predicate DaysCounted(parquet: seq<Name>, days: map<int, seq<Name>>) {
    forall d, x: Name {:trigger multiset(days[d])[x]} :: d in days ==>
      multiset(days[d])[x] == if x.DayFile? && x.day == d then multiset(parquet)[x] else 0
  }

  lemma {:induction false} CountedNext(cal: Calendar, names: seq<Name>, n: nat, parquet: seq<Name>, logs: seq<Name>)
    requires n < |names| && Counted(cal, names, n, parquet, logs)
    ensures !ListsName(cal, names, names[n]) ==> Counted(cal, names, n + 1, parquet, logs)
    ensures ListsName(cal, names, names[n]) && !IsOpen(names[n]) ==> Counted(cal, names, n + 1, parquet + [names[n]], logs)
    ensures ListsName(cal, names, names[n]) && IsOpen(names[n]) ==> Counted(cal, names, n + 1, parquet, logs + [names[n]])
  {
    assert names[..n + 1] == names[..n] + [names[n]];
  }

  lemma {:induction false} DaysCountedNext(parquet: seq<Name>, days: map<int, seq<Name>>, x: Name)
    requires DaysCounted(parquet, days) && !IsOpen(x)
    requires x.DayFile? && x.day !in days ==> x !in parquet && forall s :: DayFile(x.day, s) !in parquet
    ensures x.MonthFile? ==> DaysCounted(parquet + [x], days)
    ensures x.DayFile? ==> DaysCounted(parquet + [x], days[x.day := (if x.day in days then days[x.day] else []) + [x]])
  {
    if x.DayFile? {
      var was := if x.day in days then days[x.day] else [];
      forall y: Name
        ensures multiset(was + [x])[y] == if y.DayFile? && y.day == x.day then multiset(parquet + [x])[y] else 0
      {
        assert x.day !in days && y.DayFile? && y.day == x.day ==> DayFile(x.day, y.seg) !in parquet;
      }
    }
  }

  /** Of a listing: parquet and logs have each file to be read as often as names has
      it, a day's file until its month's is there and a claimed log until its day's
      is, and no other. */
  ghost predicate Lists(cal: Calendar, names: seq<Name>, parquet: seq<Name>, logs: seq<Name>) {
    && (forall x: Name {:trigger multiset(parquet)[x]} ::
          multiset(parquet)[x] ==
          if x.MonthFile? || (x.DayFile? && MonthFile(cal.monthOf(x.day)) !in names) then multiset(names)[x] else 0)
    && (forall x: Name {:trigger multiset(logs)[x]} ::
          multiset(logs)[x] ==
          if x.LogName? || x.Closed? || (x.Dumping? && DayFile(x.day, x.seg) !in names) then multiset(names)[x] else 0)
  }

  lemma {:induction false} OnceInMultiset(s: seq<Name>, i: nat, j: nat)
    requires i < j < |s| && s[i] == s[j]
    ensures multiset(s)[s[i]] >= 2
  {
    assert s == s[..j] + s[j..];
    assert s[..j][i] in s[..j] && s[j..][0] in s[j..];
  }

  /** What a reader lists of a directory holds each line appended in one place of the
      list, and there once. */
  lemma {:induction false} ReadOnce(cal: Calendar, st: State, names: seq<Name>, parquet: seq<Name>, logs: seq<Name>, i: nat)
    requires ExactlyOnce(cal, st) && i < |st.appended|
    requires (forall x :: x in names <==> x in st.files) && (forall x: Name :: multiset(names)[x] <= 1)
    requires Lists(cal, names, parquet, logs)
    ensures forall x :: x in parquet + logs ==> x in st.files
    ensures exists k :: 0 <= k < |parquet + logs| && i in st.files[(parquet + logs)[k]].of
    ensures forall j, k :: 0 <= j < k < |parquet + logs| ==>
              (parquet + logs)[j] != (parquet + logs)[k] &&
              !(i in st.files[(parquet + logs)[j]].of && i in st.files[(parquet + logs)[k]].of)
    ensures forall x :: x in parquet + logs ==> multiset(st.files[x].of)[i] <= 1
  {
    var all := parquet + logs;
    forall x: Name
      ensures x in all <==> Listed(cal, st.files, x)
      ensures multiset(all)[x] <= 1
    {
      assert multiset(all)[x] == multiset(parquet)[x] + multiset(logs)[x];
      assert x in names <==> multiset(names)[x] > 0;
      assert x in all <==> multiset(all)[x] > 0;
      assert x.Dumping? ==> (DayFile(x.day, x.seg) in names <==> DayFile(x.day, x.seg) in st.files);
      assert x.DayFile? ==> (MonthFile(cal.monthOf(x.day)) in names <==> MonthFile(cal.monthOf(x.day)) in st.files);
    }
    assert HeldOnce(cal, st.files, i);
    var n :| Holds(cal, st.files, n, i);
    var k :| 0 <= k < |all| && all[k] == n;
    forall j, k | 0 <= j < k < |all|
      ensures all[j] in st.files && all[k] in st.files
      ensures all[j] != all[k] && !(i in st.files[all[j]].of && i in st.files[all[k]].of)
    {
      if all[j] == all[k] { OnceInMultiset(all, j, k); }
      assert all[j] in all && all[k] in all;
      if i in st.files[all[j]].of && i in st.files[all[k]].of {
        assert Holds(cal, st.files, all[j], i) && Holds(cal, st.files, all[k], i);
      }
    }
    forall x | x in all
      ensures multiset(st.files[x].of)[i] <= 1
    {
      OnceWithin(st.files[x].of, i);
    }
  }

  lemma {:induction false} OnceWithin(of: seq<nat>, i: nat)
    requires NoRepeats(of)
    ensures multiset(of)[i] <= 1
  {
    if of != [] {
      var n := |of| - 1;
      assert of == of[..n] + [of[n]];
      OnceWithin(of[..n], i);
      if of[n] == i {
        assert forall k :: 0 <= k < n ==> of[..n][k] == of[k];
        assert i !in of[..n];
      }
    }
  }

  /** Listed, of a listing. */
  predicate ListsName(cal: Calendar, names: seq<Name>, n: Name) {
    n in names &&
    match n
    case Dumping(d, s) => DayFile(d, s) !in names
    case DayFile(d, _) => MonthFile(cal.monthOf(d)) !in names
    case _ => true
  }

  lemma {:induction false} ListsListed(cal: Calendar, files: map<Name, File>, names: seq<Name>, n: Name)
    requires forall x :: x in names <==> x in files
    ensures ListsName(cal, names, n) <==> Listed(cal, files, n)
  {
  }

  lemma {:induction false} FoundSkips(cal: Calendar, names: seq<Name>, n: nat, parquet: seq<Name>, logs: seq<Name>, f: Found)
    requires n < |names| && FoundOk(cal, names, n, parquet, logs, f) && !ListsName(cal, names, names[n])
    ensures FoundOk(cal, names, n + 1, parquet, logs, f)
  {
    assert names[..n + 1] == names[..n] + [names[n]];
  }

  lemma {:induction false} FoundMonth(cal: Calendar, names: seq<Name>, n: nat, parquet: seq<Name>, logs: seq<Name>, f: Found)
    requires n < |names| && FoundOk(cal, names, n, parquet, logs, f) && names[n].MonthFile?
    ensures FoundOk(cal, names, n + 1, parquet + [names[n]], logs, f.(months := f.months + {names[n].month}))
  {
    assert names[..n + 1] == names[..n] + [names[n]];
  }

  lemma {:induction false} FoundDay(cal: Calendar, names: seq<Name>, n: nat, parquet: seq<Name>, logs: seq<Name>, f: Found, days: map<int, seq<Name>>)
    requires n < |names| && FoundOk(cal, names, n, parquet, logs, f) && names[n].DayFile? && ListsName(cal, names, names[n])
    requires days == f.days[names[n].day := (if names[n].day in f.days then f.days[names[n].day] else []) + [names[n]]]
    ensures FoundOk(cal, names, n + 1, parquet + [names[n]], logs, f.(days := days))
  {
    assert names[..n + 1] == names[..n] + [names[n]];
    var x, more := names[n], parquet + [names[n]];
    forall d
      ensures d in days <==> exists y :: y in more && y.DayFile? && y.day == d
    {
      assert x in more;
    }
  }

  lemma {:induction false} FoundLog(cal: Calendar, names: seq<Name>, n: nat, parquet: seq<Name>, logs: seq<Name>, f: Found)
    requires n < |names| && FoundOk(cal, names, n, parquet, logs, f) && IsOpen(names[n]) && ListsName(cal, names, names[n])
    ensures FoundOk(cal, names, n + 1, parquet, logs + [names[n]], f.(logDays := f.logDays + {names[n].day}))
  {
    assert names[..n + 1] == names[..n] + [names[n]];
    var x, more := names[n], logs + [names[n]];
    forall d
      ensures d in f.logDays + {x.day} <==> exists y :: y in more && y.day == d
    {
      assert x in more;
    }
  }

  /** projectOf: each name by its pattern. */
  method ProjectOf(cal: Calendar, names: seq<Name>) returns (parquet: seq<Name>, logs: seq<Name>, f: Found)
    ensures Lists(cal, names, parquet, logs)
    ensures forall d :: d in f.days <==> exists s :: DayFile(d, s) in parquet
    ensures forall d, x: Name {:trigger multiset(f.days[d])[x]} :: d in f.days ==>
              multiset(f.days[d])[x] == if x.DayFile? && x.day == d then multiset(parquet)[x] else 0
    ensures forall m :: m in f.months <==> MonthFile(m) in parquet
    ensures forall d :: d in f.logDays <==> exists x :: x in logs && !x.MonthFile? && x.day == d
    ensures forall d :: d in f.days ==> cal.monthOf(d) !in f.months
  {
    parquet, logs, f := [], [], Found(map[], {}, {});
    for n := 0 to |names|
      invariant FoundOk(cal, names, n, parquet, logs, f)
      invariant Counted(cal, names, n, parquet, logs) && DaysCounted(parquet, f.days)
    {
      var x := names[n];
      CountedNext(cal, names, n, parquet, logs);
      if !IsOpen(x) { DaysCountedNext(parquet, f.days, x); }
      if !ListsName(cal, names, x) { FoundSkips(cal, names, n, parquet, logs, f); }
      match x {
        case MonthFile(m) =>
          FoundMonth(cal, names, n, parquet, logs, f);
          parquet := parquet + [x];
          f := f.(months := f.months + {m});
        case DayFile(d, _) =>
          if MonthFile(cal.monthOf(d)) !in names {
            var days := f.days[d := (if d in f.days then f.days[d] else []) + [x]];
            FoundDay(cal, names, n, parquet, logs, f, days);
            parquet := parquet + [x];
            f := f.(days := days);
          }
        case Dumping(d, s) =>
          if DayFile(d, s) !in names {
            FoundLog(cal, names, n, parquet, logs, f);
            logs := logs + [x];
            f := f.(logDays := f.logDays + {d});
          }
        case _ =>
          FoundLog(cal, names, n, parquet, logs, f);
          logs := logs + [x];
          f := f.(logDays := f.logDays + {x.day});
      }
    }
    FoundMeans(cal, names, parquet, logs, f);
  }

  lemma {:induction false} FoundMeans(cal: Calendar, names: seq<Name>, parquet: seq<Name>, logs: seq<Name>, f: Found)
    requires FoundOk(cal, names, |names|, parquet, logs, f) && Counted(cal, names, |names|, parquet, logs)
    ensures Lists(cal, names, parquet, logs)
    ensures forall d :: d in f.days <==> exists s :: DayFile(d, s) in parquet
  {
    assert names[..|names|] == names;
    forall x: Name
      ensures x in names <==> multiset(names)[x] > 0
    {
    }
    forall d
      ensures d in f.days <==> exists s :: DayFile(d, s) in parquet
    {
      if x :| x in parquet && x.DayFile? && x.day == d { assert DayFile(d, x.seg) in parquet; }
    }
  }

  // ----- the sessions files

  /** current: whether the sessions file is there and no input is newer; an error
      when an input has vanished. A file's entry is when it was modified. */
  predicate Current(sessions: map<SessionsFile, int>, mtimes: map<Name, int>, s: SessionsFile, inputs: seq<Name>)
    requires forall i :: 0 <= i < |inputs| ==> inputs[i] in mtimes
  {
    s in sessions && forall i :: 0 <= i < |inputs| ==> mtimes[inputs[i]] <= sessions[s]
  }

  /** An input has vanished, and none before it is newer than m. */
  ghost predicate MissesInput(m: int, mtimes: map<Name, int>, inputs: seq<Name>) {
    exists i :: 0 <= i < |inputs| && inputs[i] !in mtimes && forall j :: 0 <= j < i ==> inputs[j] in mtimes && mtimes[inputs[j]] <= m
  }

  method IsCurrent(sessions: map<SessionsFile, int>, mtimes: map<Name, int>, s: SessionsFile, inputs: seq<Name>)
    returns (found: bool, ok: bool)
    ensures found ==> (ok <==> (forall i :: 0 <= i < |inputs| ==> inputs[i] in mtimes) && Current(sessions, mtimes, s, inputs))
    ensures found ==> (ok <==> s in sessions && forall i :: 0 <= i < |inputs| ==> inputs[i] in mtimes && mtimes[inputs[i]] <= sessions[s])
    ensures !found <==> s in sessions && MissesInput(sessions[s], mtimes, inputs)
  {
    if s !in sessions { return true, false; }
    for i := 0 to |inputs|
      invariant forall j :: 0 <= j < i ==> inputs[j] in mtimes && mtimes[inputs[j]] <= sessions[s]
    {
      if inputs[i] !in mtimes { return false, false; }
      if mtimes[inputs[i]] > sessions[s] { return true, false; }
    }
    return true, true;
  }

  /** A log of month, which should not be when the month is merged. */
  predicate Late(cal: Calendar, f: Found, month: int) {
    exists d :: d in f.logDays && cal.monthOf(d) == month
  }

  /** On the way: the months of gapMonths and the days of gapDays are gaps, and
      those of months and days that are none are described. */
  ghost predicate SplitOk(cal: Calendar, gaps: seq<Span>, listed: seq<SessionsFile>, months: set<int>, gapMonths: set<int>,
                          days: set<int>, gapDays: set<int>)
  {
    && AreSpans(gaps) && gapMonths <= months && gapDays <= days
    && (forall d :: Covers(gaps, d) <==> cal.monthOf(d) in gapMonths || d in gapDays)
    && (forall m :: OfMonth(m) in listed <==> m in months - gapMonths)
    && (forall d :: OfDay(d) in listed <==> d in days - gapDays)
    && (forall i, j :: 0 <= i < j < |listed| ==> listed[i] != listed[j])
  }

  lemma {:induction false} CoversAnd(gaps: seq<Span>, s: Span, d: int)
    ensures Covers(gaps + [s], d) <==> Covers(gaps, d) || s.from <= d <= s.to
  {
    assert (gaps + [s])[|gaps|] == s;
    assert forall i :: 0 <= i < |gaps| ==> (gaps + [s])[i] == gaps[i];
  }

  lemma {:induction false} GapMonth(cal: Calendar, firstDay: int -> int, gaps: seq<Span>, listed: seq<SessionsFile>, months: set<int>,
                                    gapMonths: set<int>, m: int)
    requires MonthsOk(cal, firstDay) && SplitOk(cal, gaps, listed, months, gapMonths, {}, {}) && m !in months
    ensures SplitOk(cal, gaps + [Span(firstDay(m), cal.lastDay(m))], listed, months + {m}, gapMonths + {m}, {}, {})
    ensures SplitOk(cal, gaps, listed + [OfMonth(m)], months + {m}, gapMonths, {}, {})
  {
    forall d
      ensures Covers(gaps + [Span(firstDay(m), cal.lastDay(m))], d) <==> cal.monthOf(d) in gapMonths + {m}
    {
      CoversAnd(gaps, Span(firstDay(m), cal.lastDay(m)), d);
      assert IsIn(cal, firstDay, d, m) <==> cal.monthOf(d) == m;
    }
  }

  lemma {:induction false} GapDay(cal: Calendar, gaps: seq<Span>, listed: seq<SessionsFile>, months: set<int>, gapMonths: set<int>,
                                  days: set<int>, gapDays: set<int>, x: int)
    requires SplitOk(cal, gaps, listed, months, gapMonths, days, gapDays) && x !in days
    ensures SplitOk(cal, gaps + [Span(x, x)], listed, months, gapMonths, days + {x}, gapDays + {x})
    ensures SplitOk(cal, gaps, listed + [OfDay(x)], months, gapMonths, days + {x}, gapDays)
  {
    forall d
      ensures Covers(gaps + [Span(x, x)], d) <==> cal.monthOf(d) in gapMonths || d in gapDays + {x}
    {
      CoversAnd(gaps, Span(x, x), d);
    }
  }

  ghost predicate MonthCurrent(cal: Calendar, f: Found, sessions: map<SessionsFile, int>, mtimes: map<Name, int>, m: int) {
    !Late(cal, f, m) && MonthFile(m) in mtimes && Current(sessions, mtimes, OfMonth(m), [MonthFile(m)])
  }

  /** The month's sessions file is there but its month file has gone since. */
  ghost predicate MonthVanished(sessions: map<SessionsFile, int>, mtimes: map<Name, int>, m: int) {
    OfMonth(m) in sessions && MonthFile(m) !in mtimes
  }

  /** Of a day without a log a file has gone, before a newer one is met. */
  ghost predicate DayVanished(f: Found, sessions: map<SessionsFile, int>, mtimes: map<Name, int>, d: int)
    requires d in f.days
  {
    d !in f.logDays && OfDay(d) in sessions && MissesInput(sessions[OfDay(d)], mtimes, f.days[d])
  }

  /** The merged months: each month's sessions, or a gap. */
  method MonthSessions(cal: Calendar, firstDay: int -> int, f: Found, sessions: map<SessionsFile, int>, mtimes: map<Name, int>)
    returns (found: bool, listed: seq<SessionsFile>, gaps: seq<Span>, ghost gapMonths: set<int>)
    requires MonthsOk(cal, firstDay)
    ensures found ==> SplitOk(cal, gaps, listed, f.months, gapMonths, {}, {})
    ensures found ==> forall m {:trigger MonthCurrent(cal, f, sessions, mtimes, m)} ::
                        m in f.months ==> (m !in gapMonths <==> MonthCurrent(cal, f, sessions, mtimes, m))
    ensures !found <==> exists m :: m in f.months && MonthVanished(sessions, mtimes, m)
  {
    listed, gaps, gapMonths := [], [], {};
    var months := SortedSet(f.months);
    ghost var done: set<int> := {};
    for i := 0 to |months|
      invariant forall m :: m in done ==> !MonthVanished(sessions, mtimes, m)
      invariant forall m :: m in done <==> m in months[..i]
      invariant SplitOk(cal, gaps, listed, done, gapMonths, {}, {})
      invariant forall m {:trigger MonthCurrent(cal, f, sessions, mtimes, m)} ::
                  m in done ==> (m !in gapMonths <==> MonthCurrent(cal, f, sessions, mtimes, m))
    {
      var m := months[i];
      assert months[..i + 1] == months[..i] + [m];
      assert m !in done;
      GapMonth(cal, firstDay, gaps, listed, done, gapMonths, m);
      var ok;
      found, ok := IsCurrent(sessions, mtimes, OfMonth(m), [MonthFile(m)]);
      assert [MonthFile(m)][0] == MonthFile(m) && m in f.months;
      assert !found <==> MonthVanished(sessions, mtimes, m);
      if !found { return; }
      if ok && !Late(cal, f, m) {
        assert MonthCurrent(cal, f, sessions, mtimes, m);
        listed := listed + [OfMonth(m)];
      } else {
        gaps := gaps + [Span(firstDay(m), cal.lastDay(m))];
        gapMonths := gapMonths + {m};
      }
      done := done + {m};
    }
    assert months[..|months|] == months;
    assert forall m :: m in done <==> m in f.months;
    assert done == f.months;
    found := true;
  }

  /** A day not merged, its sessions file read: no log of it, and none of its
      files newer. */
  ghost predicate DayCurrent(f: Found, sessions: map<SessionsFile, int>, mtimes: map<Name, int>, d: int) {
    && d in f.days && d !in f.logDays
    && (forall i :: 0 <= i < |f.days[d]| ==> f.days[d][i] in mtimes)
    && Current(sessions, mtimes, OfDay(d), f.days[d])
  }

  /** The days not merged: each day's sessions, or a gap. */
  method DaySessions(cal: Calendar, f: Found, sessions: map<SessionsFile, int>, mtimes: map<Name, int>,
                     listed0: seq<SessionsFile>, gaps0: seq<Span>, ghost gapMonths: set<int>)
    returns (found: bool, listed: seq<SessionsFile>, gaps: seq<Span>, ghost gapDays: set<int>)
    requires SplitOk(cal, gaps0, listed0, f.months, gapMonths, {}, {})
    ensures found ==> SplitOk(cal, gaps, listed, f.months, gapMonths, f.days.Keys, gapDays)
    ensures found ==> forall d {:trigger DayCurrent(f, sessions, mtimes, d)} ::
                        d in f.days ==> (d !in gapDays <==> DayCurrent(f, sessions, mtimes, d))
    ensures !found <==> exists d :: d in f.days && DayVanished(f, sessions, mtimes, d)
  {
    listed, gaps, gapDays := listed0, gaps0, {};
    var days := SortedSet(f.days.Keys);
    ghost var done: set<int> := {};
    for i := 0 to |days|
      invariant forall d :: d in done ==> d in f.days && !DayVanished(f, sessions, mtimes, d)
      invariant forall d :: d in done <==> d in days[..i]
      invariant SplitOk(cal, gaps, listed, f.months, gapMonths, done, gapDays)
      invariant forall d {:trigger DayCurrent(f, sessions, mtimes, d)} ::
                  d in done ==> (d !in gapDays <==> DayCurrent(f, sessions, mtimes, d))
    {
      var d := days[i];
      assert days[..i + 1] == days[..i] + [d];
      assert d in days[..i + 1] && d in f.days && d !in done;
      GapDay(cal, gaps, listed, f.months, gapMonths, done, gapDays, d);
      done := done + {d};
      if d in f.logDays {
        gaps := gaps + [Span(d, d)];
        gapDays := gapDays + {d};
        continue;
      }
      var ok;
      found, ok := IsCurrent(sessions, mtimes, OfDay(d), f.days[d]);
      assert !found <==> DayVanished(f, sessions, mtimes, d);
      if !found { return; }
      if ok {
        assert DayCurrent(f, sessions, mtimes, d);
        listed := listed + [OfDay(d)];
      } else {
        gaps := gaps + [Span(d, d)];
        gapDays := gapDays + {d};
      }
    }
    assert days[..|days|] == days;
    assert forall d :: d in done <==> d in f.days.Keys;
    assert done == f.days.Keys;
    found := true;
  }

  /** The days with a log only. */
  method LogGaps(cal: Calendar, f: Found, listed: seq<SessionsFile>, gaps0: seq<Span>, ghost gapMonths: set<int>, ghost gapDays0: set<int>)
    returns (gaps: seq<Span>, ghost gapDays: set<int>, ghost days: set<int>)
    requires SplitOk(cal, gaps0, listed, f.months, gapMonths, f.days.Keys, gapDays0)
    ensures SplitOk(cal, gaps, listed, f.months, gapMonths, days, gapDays)
    ensures days - gapDays == f.days.Keys - gapDays0
    ensures forall d :: d in days <==> d in f.days || (d in f.logDays && cal.monthOf(d) !in f.months)
  {
    gaps, gapDays, days := gaps0, gapDays0, f.days.Keys;
    var rest := f.logDays;
    while rest != {}
      invariant rest <= f.logDays
      invariant SplitOk(cal, gaps, listed, f.months, gapMonths, days, gapDays)
      invariant days - gapDays == f.days.Keys - gapDays0
      invariant forall d :: d in days <==> d in f.days || (d in f.logDays && d !in rest && cal.monthOf(d) !in f.months)
      decreases rest
    {
      SomeIn(rest);
      var d :| d in rest;
      if d !in f.days && cal.monthOf(d) !in f.months {
        GapDay(cal, gaps, listed, f.months, gapMonths, days, gapDays, d);
        gaps := gaps + [Span(d, d)];
        gapDays, days := gapDays + {d}, days + {d};
      }
      rest := rest - {d};
    }
  }

  /** The sessions files that are current, and the gaps as they are met. */
  method Collect(cal: Calendar, firstDay: int -> int, f: Found, sessions: map<SessionsFile, int>, mtimes: map<Name, int>)
    returns (found: bool, listed: seq<SessionsFile>, gaps: seq<Span>, ghost gapMonths: set<int>, ghost gapDays: set<int>, ghost days: set<int>)
    requires MonthsOk(cal, firstDay)
    ensures found ==> SplitOk(cal, gaps, listed, f.months, gapMonths, days, gapDays) && days - gapDays <= f.days.Keys
    ensures found ==> forall d :: d in days <==> d in f.days || (d in f.logDays && cal.monthOf(d) !in f.months)
    ensures found ==> forall m :: OfMonth(m) in listed <==> m in f.months && MonthCurrent(cal, f, sessions, mtimes, m)
    ensures found ==> forall d :: OfDay(d) in listed <==> d in f.days && DayCurrent(f, sessions, mtimes, d)
    ensures !found <==> (exists m :: m in f.months && MonthVanished(sessions, mtimes, m)) ||
                        exists d :: d in f.days && DayVanished(f, sessions, mtimes, d)
  {
    gapDays, days := {}, {};
    found, listed, gaps, gapMonths := MonthSessions(cal, firstDay, f, sessions, mtimes);
    if !found { return; }
    found, listed, gaps, gapDays := DaySessions(cal, f, sessions, mtimes, listed, gaps, gapMonths);
    if !found { return; }
    gaps, gapDays, days := LogGaps(cal, f, listed, gaps, gapMonths, gapDays);
  }

  /** derived: of each day with events, either one sessions file listed describes
      it, or it is in one gap, and no other day is described; those listed are, each
      once, all that have no newer input and no log beside it. It fails only when a
      file has gone. */
  method Derived(cal: Calendar, firstDay: int -> int, f: Found, sessions: map<SessionsFile, int>, mtimes: map<Name, int>)
    returns (found: bool, listed: seq<SessionsFile>, gaps: seq<Span>)
    requires MonthsOk(cal, firstDay) && forall d :: d in f.days ==> cal.monthOf(d) !in f.months
    ensures found ==> (forall i :: 0 <= i < |gaps| ==> gaps[i].from <= gaps[i].to)
    ensures found ==> (forall i, j :: 0 <= i < j < |gaps| ==> gaps[i].to + 1 < gaps[j].from)
    ensures found ==> forall d :: d in f.days || d in f.logDays || cal.monthOf(d) in f.months <==>
                        OfDay(d) in listed || OfMonth(cal.monthOf(d)) in listed || exists i :: 0 <= i < |gaps| && gaps[i].from <= d <= gaps[i].to
    ensures found ==> forall d, i :: 0 <= i < |gaps| && gaps[i].from <= d <= gaps[i].to ==>
                        OfDay(d) !in listed && OfMonth(cal.monthOf(d)) !in listed
    ensures found ==> forall d :: !(OfDay(d) in listed && OfMonth(cal.monthOf(d)) in listed)
    ensures found ==> forall i, j :: 0 <= i < j < |listed| ==> listed[i] != listed[j]
    ensures found ==> forall m :: OfMonth(m) in listed <==>
                        m in f.months && (forall d :: d in f.logDays ==> cal.monthOf(d) != m) && OfMonth(m) in sessions &&
                        MonthFile(m) in mtimes && mtimes[MonthFile(m)] <= sessions[OfMonth(m)]
    ensures found ==> forall d :: OfDay(d) in listed <==>
                        d in f.days && d !in f.logDays && OfDay(d) in sessions &&
                        forall i :: 0 <= i < |f.days[d]| ==> f.days[d][i] in mtimes && mtimes[f.days[d][i]] <= sessions[OfDay(d)]
    ensures !found <==> (exists m :: m in f.months && MonthVanished(sessions, mtimes, m)) ||
                        exists d :: d in f.days && DayVanished(f, sessions, mtimes, d)
  {
    ghost var gapMonths, gapDays, days;
    found, listed, gaps, gapMonths, gapDays, days := Collect(cal, firstDay, f, sessions, mtimes);
    if !found { return; }
    ghost var before := gaps;
    gaps := JoinSpans(gaps);
    DescribedOnce(cal, f, listed, before, gaps, gapMonths, days, gapDays);
    ListedAreCurrent(cal, f, sessions, mtimes, listed);
  }

  lemma {:induction false} ListedAreCurrent(cal: Calendar, f: Found, sessions: map<SessionsFile, int>, mtimes: map<Name, int>,
                                            listed: seq<SessionsFile>)
    requires forall m :: OfMonth(m) in listed <==> m in f.months && MonthCurrent(cal, f, sessions, mtimes, m)
    requires forall d :: OfDay(d) in listed <==> d in f.days && DayCurrent(f, sessions, mtimes, d)
    ensures forall m :: OfMonth(m) in listed <==>
              m in f.months && (forall d :: d in f.logDays ==> cal.monthOf(d) != m) && OfMonth(m) in sessions &&
              MonthFile(m) in mtimes && mtimes[MonthFile(m)] <= sessions[OfMonth(m)]
    ensures forall d :: OfDay(d) in listed <==>
              d in f.days && d !in f.logDays && OfDay(d) in sessions &&
              forall i :: 0 <= i < |f.days[d]| ==> f.days[d][i] in mtimes && mtimes[f.days[d][i]] <= sessions[OfDay(d)]
  {
    forall m
      ensures MonthCurrent(cal, f, sessions, mtimes, m) <==>
              (forall d :: d in f.logDays ==> cal.monthOf(d) != m) && OfMonth(m) in sessions &&
              MonthFile(m) in mtimes && mtimes[MonthFile(m)] <= sessions[OfMonth(m)]
    {
      assert [MonthFile(m)][0] == MonthFile(m);
    }
  }

  lemma {:induction false} DescribedOnce(cal: Calendar, f: Found, listed: seq<SessionsFile>, before: seq<Span>, gaps: seq<Span>,
                                         gapMonths: set<int>, days: set<int>, gapDays: set<int>)
    requires SplitOk(cal, before, listed, f.months, gapMonths, days, gapDays)
    requires forall d :: d in days <==> d in f.days || (d in f.logDays && cal.monthOf(d) !in f.months)
    requires days - gapDays <= f.days.Keys && forall d :: d in f.days ==> cal.monthOf(d) !in f.months
    requires forall d :: Covers(gaps, d) <==> Covers(before, d)
    ensures forall d :: d in f.days || d in f.logDays || cal.monthOf(d) in f.months <==>
              OfDay(d) in listed || OfMonth(cal.monthOf(d)) in listed || exists i :: 0 <= i < |gaps| && gaps[i].from <= d <= gaps[i].to
    ensures forall d, i :: 0 <= i < |gaps| && gaps[i].from <= d <= gaps[i].to ==>
              OfDay(d) !in listed && OfMonth(cal.monthOf(d)) !in listed
  {
    forall d
      ensures d in f.days || d in f.logDays || cal.monthOf(d) in f.months <==>
              OfDay(d) in listed || OfMonth(cal.monthOf(d)) in listed || exists i :: 0 <= i < |gaps| && gaps[i].from <= d <= gaps[i].to
    {
      assert Covers(gaps, d) <==> Covers(before, d);
    }
    forall d, i | 0 <= i < |gaps| && gaps[i].from <= d <= gaps[i].to
      ensures OfDay(d) !in listed && OfMonth(cal.monthOf(d)) !in listed
    {
      assert Covers(gaps, d);
    }
  }
}
