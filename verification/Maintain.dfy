/** The daily pass over one project's directory, as it runs: it lists the
    directory, then renames, writes and deletes one file at a time, while
    events are still appended and midnight may pass, and any file operation
    may fail. */
module Maintain {
  import opened Ordered
  import opened Directory
  import opened AppendOrder
  import opened Listing

  // ----- what happens beside the pass

  /** What ingestion does to the directory: appends, and a cut-back that
      fails, only for days whose month still takes events. */
  predicate IsIngest(cal: Calendar, late: nat, st: State, s: Step) {
    match s
    case Append(_, _) => true
    case Tear(d) => !Final(cal, late, st.today, cal.monthOf(d))
    case CutLog(d) => !Final(cal, late, st.today, cal.monthOf(d))
    case NextDay => true
    case _ => false
  }

  /** From a to b only logs of months that took events changed. */
  ghost predicate Meanwhile(cal: Calendar, late: nat, a: State, b: State) {
    && a.today <= b.today
    && (forall n :: n in a.files && !n.LogName? ==> n in b.files && b.files[n] == a.files[n])
    && (forall n :: n in b.files && !n.LogName? ==> n in a.files)
    && (forall n :: n in b.files && n.LogName? && Final(cal, late, a.today, cal.monthOf(n.day)) ==> n in a.files)
  }

  // ----- how far a pass has come, but for the months in which a step failed

  ghost predicate LogsClosed(cal: Calendar, late: nat, files: map<Name, File>, today: int, failed: set<int>) {
    forall n :: n in files && n.LogName? && Final(cal, late, today, cal.monthOf(n.day)) ==> cal.monthOf(n.day) in failed
  }

  ghost predicate ClosedClaimed(cal: Calendar, files: map<Name, File>, failed: set<int>) {
    forall n :: n in files && n.Closed? ==> cal.monthOf(n.day) in failed
  }

  ghost predicate ClaimedDumped(cal: Calendar, files: map<Name, File>, failed: set<int>) {
    forall n :: n in files && n.Dumping? ==> cal.monthOf(n.day) in failed
  }

  ghost predicate DaysMerged(cal: Calendar, late: nat, files: map<Name, File>, today: int, failed: set<int>) {
    forall n :: n in files && n.DayFile? && Final(cal, late, today, cal.monthOf(n.day)) ==> cal.monthOf(n.day) in failed
  }

  // ----- listings in order

  /** The order days are merged in: by day, then segment. */
  predicate DayBefore(a: Name, b: Name) {
    a.DayFile? && b.DayFile? && (a.day < b.day || (a.day == b.day && a.seg < b.seg))
  }

  /** The day files and segments of month, in the order they are merged in. */
  method DaysIn(cal: Calendar, names: seq<Name>, month: int) returns (days: seq<Name>)
    ensures InOrder(DayBefore, days)
    ensures forall n :: n in days <==> n in names && n.DayFile? && cal.monthOf(n.day) == month
  {
    days := [];
    for i := 0 to |names|
      invariant InOrder(DayBefore, days)
      invariant forall n :: n in days <==> n in names[..i] && n.DayFile? && cal.monthOf(n.day) == month
    {
      assert names[..i + 1] == names[..i] + [names[i]];
      if names[i].DayFile? && cal.monthOf(names[i].day) == month {
        PutInOrder(DayBefore, days, names[i]);
        days := Put(DayBefore, days, names[i]);
      }
    }
    assert names[..|names|] == names;
  }

  /** The months any file of names belongs to, each once, earliest first. */
  method Months(cal: Calendar, names: seq<Name>) returns (months: seq<int>)
    ensures InOrder(Less, months)
    ensures forall n :: n in names ==> MonthOfName(cal, n) in months
  {
    months := [];
    for i := 0 to |names|
      invariant InOrder(Less, months)
      invariant forall n :: n in names[..i] ==> MonthOfName(cal, n) in months
    {
      assert names[..i + 1] == names[..i] + [names[i]];
      PutInOrder(Less, months, MonthOfName(cal, names[i]));
      months := Put(Less, months, MonthOfName(cal, names[i]));
    }
    assert names[..|names|] == names;
  }

  /** Some log of the month, open, closed or claimed, is among the names. */
  predicate Open(cal: Calendar, names: seq<Name>, month: int) {
    exists n :: n in names && IsOpen(n) && cal.monthOf(n.day) == month
  }

  /** Every line of the month is in its month file, which has the first of each id,
      earlier days' before later days', and the directory has no other file of the
      month. */
  ghost predicate MonthDone(cal: Calendar, st: State, month: int) {
    && (forall n :: n in st.files && MonthOfName(cal, n) == month ==> n == MonthFile(month))
    && (forall i: nat :: i < |st.appended| && cal.monthOf(st.appended[i].day) == month ==>
          MonthFile(month) in st.files && i in st.files[MonthFile(month)].of)
    && (MonthFile(month) in st.files ==>
          HoldsFirsts(st.appended, st.files[MonthFile(month)]) && ByDay(st.appended, st.files[MonthFile(month)].of))
  }

  lemma {:induction false} NothingLeft(cal: Calendar, late: nat, st: State, today: int, failed: set<int>, month: int)
    requires Inv(cal, late, st) && Aged(cal, st) && Final(cal, late, today, month) && month !in failed
    requires LogsClosed(cal, late, st.files, today, failed) && ClosedClaimed(cal, st.files, failed)
    requires ClaimedDumped(cal, st.files, failed) && DaysMerged(cal, late, st.files, today, failed)
    ensures MonthDone(cal, st, month)
  {
    forall i: nat | i < |st.appended| && cal.monthOf(st.appended[i].day) == month
      ensures MonthFile(month) in st.files && i in st.files[MonthFile(month)].of
    {
      assert HeldOnce(cal, st.files, i);
      var n :| Holds(cal, st.files, n, i);
      assert FileOk(cal, st, n, st.files[n]);
      var k :| 0 <= k < |st.files[n].of| && st.files[n].of[k] == i;
    }
    if MonthFile(month) in st.files {
      assert FileOk(cal, st, MonthFile(month), st.files[MonthFile(month)]);
      TableHoldsFirsts(st.appended, st.files[MonthFile(month)]);
      assert MonthByDay(st, MonthFile(month));
    }
  }

  lemma {:induction false} AllDone(cal: Calendar, late: nat, st: State, today: int, failed: set<int>)
    requires Inv(cal, late, st) && Aged(cal, st)
    requires LogsClosed(cal, late, st.files, today, failed) && ClosedClaimed(cal, st.files, failed)
    requires ClaimedDumped(cal, st.files, failed) && DaysMerged(cal, late, st.files, today, failed)
    ensures forall month :: Final(cal, late, today, month) && month !in failed ==> MonthDone(cal, st, month)
  {
    forall month | Final(cal, late, today, month) && month !in failed
      ensures MonthDone(cal, st, month)
    {
      NothingLeft(cal, late, st, today, failed, month);
    }
  }

  /** A log's lines are in a claimed log of the day that was not there. */
  ghost predicate ClaimedAs(before: map<Name, File>, files: map<Name, File>, day: int, seg: nat, of: seq<nat>) {
    IsFirstTarget(before, day, seg) && Dumping(day, seg) in files && files[Dumping(day, seg)].of == of
  }

  // ----- what a pass does to the order of a day's lines

  ghost predicate OrderKept(cal: Calendar, a: State, b: State) {
    forall d {:trigger InAppendOrder(cal, b, d)} :: InAppendOrder(cal, a, d) ==> InAppendOrder(cal, b, d)
  }

  ghost predicate Has(files: map<Name, File>, n: Name, i: nat) {
    n in files && i in files[n].of
  }

  /** A line of a log of b's was in it in a, or is new. */
  ghost predicate LogsGrow(a: State, b: State) {
    && a.appended <= b.appended
    && forall n: Name, i: nat {:trigger Has(b.files, n, i)} ::
         n.LogName? && Has(b.files, n, i) ==> i >= |a.appended| || Has(a.files, n, i)
  }

  /** a's logs of that day and the days after it have their lines. */
  ghost predicate LogsKeptFrom(a: State, b: State, day: int) {
    forall n: Name, i: nat {:trigger Has(b.files, n, i)} :: n.LogName? && n.day >= day && Has(a.files, n, i) ==> Has(b.files, n, i)
  }

  ghost predicate LogsKept(a: State, b: State) {
    forall n: Name, i: nat {:trigger Has(b.files, n, i)} :: n.LogName? && Has(a.files, n, i) ==> Has(b.files, n, i)
  }

  /** Nothing but a log's closing and a claim does more to the logs and the order of
      their lines. */
  ghost predicate Onward(cal: Calendar, a: State, b: State) {
    OrderKept(cal, a, b) && LogsGrow(a, b) && LogsKept(a, b)
  }

  ghost predicate OnwardFrom(cal: Calendar, a: State, b: State, day: int) {
    OrderKept(cal, a, b) && LogsGrow(a, b) && LogsKeptFrom(a, b, day)
  }

  /** Day's order is kept if its oldest waiting log was claimed, the other days' in
      any case. */
  ghost predicate OrderKeptBut(cal: Calendar, a: State, b: State, day: int, n: nat) {
    forall d {:trigger InAppendOrder(cal, b, d)} ::
      InAppendOrder(cal, a, d) && (d == day ==> Closed(day, n) in a.files && IsOldest(a.files, day, n)) ==> InAppendOrder(cal, b, d)
  }

  ghost predicate OnwardBut(cal: Calendar, a: State, b: State, day: int, n: nat) {
    OrderKeptBut(cal, a, b, day, n) && LogsGrow(a, b) && LogsKept(a, b)
  }

  lemma {:induction false} Orders(cal: Calendar, late: nat, a: State, s: Step)
    requires Inv(cal, late, a) && Aged(cal, a) && Enabled(cal, late, a, s)
    ensures !s.Claim? && !s.Rotate? ==> Onward(cal, a, After(cal, late, a, s))
    ensures s.Rotate? ==> OnwardFrom(cal, a, After(cal, late, a, s), s.day + 1)
    ensures s.Claim? ==> OnwardBut(cal, a, After(cal, late, a, s), s.day, s.n)
  {
    forall d
      ensures InAppendOrder(cal, After(cal, late, a, s), d) <==>
              InAppendOrder(cal, a, d) && (s.Claim? && s.day == d ==> IsOldest(a.files, d, s.n))
    {
      StepOrders(cal, late, a, s, d);
    }
    LogsAfter(cal, late, a, s);
  }

  lemma {:induction false} LogsAfter(cal: Calendar, late: nat, a: State, s: Step)
    requires Enabled(cal, late, a, s)
    ensures LogsGrow(a, After(cal, late, a, s))
    ensures if s.Rotate? then LogsKeptFrom(a, After(cal, late, a, s), s.day + 1) else LogsKept(a, After(cal, late, a, s))
  {
  }

  /** But for open logs a and b have the same files, of the same lines. */
  ghost predicate SameButLogs(a: map<Name, File>, b: map<Name, File>) {
    forall n: Name {:trigger n in a} {:trigger n in b} :: !n.LogName? ==> (n in a <==> n in b) && (n in a ==> a[n].of == b[n].of)
  }

  lemma {:induction false} FirstTargetStays(a: map<Name, File>, b: map<Name, File>, d: int, seg: nat)
    requires SameButLogs(a, b) && IsFirstTarget(b, d, seg)
    ensures IsFirstTarget(a, d, seg)
  {
    assert forall k: nat :: IsTarget(a, d, k) <==> IsTarget(b, d, k);
  }

  lemma {:induction false} OldestStays(a: map<Name, File>, b: map<Name, File>, d: int, n: nat)
    requires SameButLogs(a, b) && Closed(d, n) in a && Closed(d, n) in b && IsOldest(a, d, n)
    ensures IsOldest(b, d, n)
  {
    forall m: nat | Closed(d, m) in b && m != n
      ensures AllBefore(b[Closed(d, n)].of, b[Closed(d, m)].of)
    {
      assert Closed(d, m) in a;
    }
  }

  ghost predicate NoneClosed(files: map<Name, File>, d: int) {
    forall n: nat {:trigger Closed(d, n)} :: Closed(d, n) !in files
  }

  ghost predicate OneClosed(files: map<Name, File>, d: int) {
    forall m: nat, n: nat {:trigger Closed(d, m), Closed(d, n)} :: Closed(d, m) in files && Closed(d, n) in files ==> m == n
  }

  /** The closed logs of the day are listed oldest first. */
  ghost predicate ListedByAge(files: map<Name, File>, d: int) {
    forall m: nat, n: nat {:trigger Closed(d, m), Closed(d, n)} ::
      Closed(d, m) in files && Closed(d, n) in files && ListedBefore(Closed(d, m), Closed(d, n)) ==>
        AllBefore(files[Closed(d, m)].of, files[Closed(d, n)].of)
  }

  lemma {:induction false} OneListedByAge(files: map<Name, File>, d: int)
    requires OneClosed(files, d)
    ensures ListedByAge(files, d)
  {
    forall n: nat
      ensures !ListedBefore(Closed(d, n), Closed(d, n))
    {
      ListedTotal(Closed(d, n), Closed(d, n));
    }
  }

  /** Each closed log of the day is still as it was, or claimed. */
  ghost predicate ClosedFrom(was: map<Name, File>, files: map<Name, File>) {
    forall n: Name {:trigger n in files} :: n in files && n.Closed? ==> n in was && was[n].of == files[n].of
  }

  /** The one listed first of the closed logs left is the oldest. */
  lemma {:induction false} FirstIsOldest(was: map<Name, File>, files: map<Name, File>, names: seq<Name>, i: nat, d: int, n: nat)
    requires InOrder(ListedBefore, names) && i < |names| && names[i] == Closed(d, n) && names[i] in files && ClosedFrom(was, files)
    requires ListedByAge(was, d)
    requires OneClosed(was, d) || forall m: nat :: Closed(d, m) in files ==> Closed(d, m) in names[i..]
    ensures IsOldest(files, d, n)
  {
    forall m: nat | Closed(d, m) in files && m != n
      ensures AllBefore(files[Closed(d, n)].of, files[Closed(d, m)].of)
    {
      assert Closed(d, m) in was && Closed(d, n) in was;
      assert Closed(d, m) in names[i..];
      var k :| 0 <= k < |names[i..]| && names[i..][k] == Closed(d, m);
      assert names[i + k] == Closed(d, m) && k > 0;
    }
  }

  /** A day without a closed log at first has one at most, and none while its log
      is still to be closed. */
  ghost predicate ClosedOnce(was: map<Name, File>, files: map<Name, File>, left: seq<Name>) {
    forall d {:trigger OneClosed(files, d)} :: NoneClosed(was, d) ==> OneClosed(files, d) && (LogName(d) in left ==> NoneClosed(files, d))
  }

  lemma {:induction false} StillOnce(was: map<Name, File>, a: map<Name, File>, b: map<Name, File>, left: seq<Name>)
    requires ClosedOnce(was, a, left) && forall n: Name :: n.Closed? ==> (n in a <==> n in b)
    ensures ClosedOnce(was, b, left)
  {
    forall d | NoneClosed(was, d)
      ensures OneClosed(b, d) && (LogName(d) in left ==> NoneClosed(b, d))
    {
      assert OneClosed(a, d);
    }
  }

  lemma {:induction false} OnceLess(was: map<Name, File>, files: map<Name, File>, names: seq<Name>, i: nat)
    requires i < |names| && ClosedOnce(was, files, names[i..])
    ensures ClosedOnce(was, files, names[i + 1..])
  {
    assert names[i..] == [names[i]] + names[i + 1..];
    assert forall n: Name :: n in names[i + 1..] ==> n in names[i..];
    forall d | NoneClosed(was, d)
      ensures OneClosed(files, d) && (LogName(d) in names[i + 1..] ==> NoneClosed(files, d))
    {
      assert OneClosed(files, d);
    }
  }

  lemma {:induction false} OnceMore(was: map<Name, File>, a: map<Name, File>, names: seq<Name>, i: nat, n: nat)
    requires i < |names| && names[i].LogName? && InOrder(ListedBefore, names) && ClosedOnce(was, a, names[i..]) && names[i] in a
    ensures ClosedOnce(was, Rename(a, names[i], Closed(names[i].day, n)), names[i + 1..])
  {
    var b := Rename(a, names[i], Closed(names[i].day, n));
    assert names[i..] == [names[i]] + names[i + 1..];
    assert forall k :: i < k < |names| ==> ListedBefore(names[i], names[k]);
    assert names[i] !in names[i + 1..];
    forall d | NoneClosed(was, d)
      ensures OneClosed(b, d) && (LogName(d) in names[i + 1..] ==> NoneClosed(b, d))
    {
      assert OneClosed(a, d);
      if LogName(d) == names[i] {
        assert NoneClosed(a, d);
        assert forall m: nat :: Closed(d, m) in b ==> m == n;
      } else {
        assert forall m: nat :: Closed(d, m) in b <==> Closed(d, m) in a;
      }
    }
  }

  /** A name is listed once. */
  lemma {:induction false} LaterNames(names: seq<Name>, i: nat)
    requires InOrder(ListedBefore, names) && i < |names|
    ensures names[i] !in names[i + 1..]
    ensures forall n {:trigger n in names[i + 1..]} {:trigger n in names[i..]} :: n in names[i..] <==> n == names[i] || n in names[i + 1..]
  {
    assert names[i..] == [names[i]] + names[i + 1..];
    if names[i] in names[i + 1..] {
      var k :| 0 <= k < |names[i + 1..]| && names[i + 1..][k] == names[i];
      assert ListedBefore(names[i], names[i + 1 + k]);
      ListedTotal(names[i], names[i]);
    }
  }

  /** Of the lines a's files hold, a log of a day gone by has one left only if it is
      among the names left, or a step failed in its month. */
  ghost predicate LogsLeft(cal: Calendar, a: State, b: State, left: seq<Name>, today: int, failed: set<int>) {
    forall n: Name, i: nat {:trigger Has(b.files, n, i)} ::
      n.LogName? && n.day < today && Has(b.files, n, i) && i < |a.appended| ==> n in left || cal.monthOf(n.day) in failed
  }

  lemma {:induction false} LogsLeftAfter(cal: Calendar, first: State, a: State, b: State, today: int, failed: set<int>, more: set<int>)
    requires LogsLeft(cal, first, a, [], today, failed) && LogsGrow(a, b) && first.appended <= a.appended && failed <= more
    ensures LogsLeft(cal, first, b, [], today, more)
  {
  }

  /** A line of a day gone by, or of a closed or claimed log, is settled, where no
      step failed in its month. */
  lemma {:induction false} LinesSettled(cal: Calendar, late: nat, a: State, b: State, today: int, failed: set<int>, n: Name, i: nat)
    requires Inv(cal, late, a) && Inv(cal, late, b) && a.appended <= b.appended
    requires LogsGrow(a, b) && LogsLeft(cal, a, b, [], today, failed)
    requires ClosedClaimed(cal, b.files, failed) && ClaimedDumped(cal, b.files, failed)
    requires n in a.files && i in a.files[n].of
    requires n.Closed? || n.Dumping? || (n.LogName? && n.day < today)
    requires cal.monthOf(n.day) !in failed
    ensures exists m :: m in b.files && i in b.files[m].of && (m.DayFile? || m.MonthFile?)
  {
    assert FileOk(cal, a, n, a.files[n]);
    var k :| 0 <= k < |a.files[n].of| && a.files[n].of[k] == i;
    assert i < |a.appended| && b.appended[i] == a.appended[i] && a.appended[i].day == n.day;
    assert HeldOnce(cal, b.files, i);
    var m :| Holds(cal, b.files, m, i);
    assert FileOk(cal, b, m, b.files[m]);
    var j :| 0 <= j < |b.files[m].of| && b.files[m].of[j] == i;
    if m.LogName? {
      assert m.day == n.day && Has(b.files, m, i) && Has(a.files, m, i);
      InOneLog(cal, late, a, n, m.day, i);
    }
  }

  lemma {:induction false} InOneLog(cal: Calendar, late: nat, a: State, n: Name, d: int, i: nat)
    requires Inv(cal, late, a) && IsOpen(n) && n in a.files && LogName(d) in a.files
    requires i in a.files[n].of && i in a.files[LogName(d)].of
    ensures n == LogName(d)
  {
    assert FileOk(cal, a, n, a.files[n]) && ClaimOk(a.files, n) && MonthOk(cal, a, n);
    var k :| 0 <= k < |a.files[n].of| && a.files[n].of[k] == i;
    assert HeldOnce(cal, a.files, i) && Holds(cal, a.files, LogName(d), i);
    if n.Dumping? && DayFile(n.day, n.seg) in a.files {
      assert Holds(cal, a.files, DayFile(n.day, n.seg), i);
    } else {
      assert Holds(cal, a.files, n, i);
    }
  }

  lemma {:induction false} AllSettled(cal: Calendar, late: nat, a: State, b: State, today: int, failed: set<int>)
    requires Inv(cal, late, a) && Inv(cal, late, b) && LogsGrow(a, b)
    requires LogsLeft(cal, a, b, [], today, failed) && ClosedClaimed(cal, b.files, failed) && ClaimedDumped(cal, b.files, failed)
    ensures forall n, i: nat ::
              n in a.files && i in a.files[n].of &&
              (n.Closed? || n.Dumping? || (n.LogName? && n.day < today)) && cal.monthOf(n.day) !in failed ==>
                exists m :: m in b.files && i in b.files[m].of && (m.DayFile? || m.MonthFile?)
  {
    forall n, i: nat | n in a.files && i in a.files[n].of &&
                       (n.Closed? || n.Dumping? || (n.LogName? && n.day < today)) && cal.monthOf(n.day) !in failed
      ensures exists m :: m in b.files && i in b.files[m].of && (m.DayFile? || m.MonthFile?)
    {
      LinesSettled(cal, late, a, b, today, failed, n, i);
    }
  }

  function NowFailed(failed: set<int>, ok: bool, month: int): set<int> {
    if ok then failed else failed + {month}
  }

  /** The closed logs there are: those of left, which are all there, and those of
      days on which a claim was missed. */
  ghost predicate ClosedLeft(cal: Calendar, files: map<Name, File>, left: seq<Name>, failed: set<int>, missed: set<int>) {
    && (forall n {:trigger n in files} :: n in files && n.Closed? ==> n in left || (cal.monthOf(n.day) in failed && n.day in missed))
    && (forall n: Name {:trigger n in left} :: n in left && n.Closed? ==> n in files)
  }

  lemma {:induction false} OneLeft(cal: Calendar, a: map<Name, File>, b: map<Name, File>, names: seq<Name>, i: nat, ok: bool, failed: set<int>, missed: set<int>)
    requires i < |names| && names[i].Closed? && InOrder(ListedBefore, names) && ClosedLeft(cal, a, names[i..], failed, missed)
    requires forall n :: n in b && n.Closed? ==> n in a
    requires forall n :: n in a && n.Closed? && n != names[i] ==> n in b
    requires ok ==> names[i] !in b
    ensures ClosedLeft(cal, b, names[i + 1..], NowFailed(failed, ok, cal.monthOf(names[i].day)), NowFailed(missed, ok, names[i].day))
  {
    LaterNames(names, i);
  }

  /** What claims have done since a: nothing to the order of a day's lines where its
      logs are listed by age and none was missed, and nothing to open logs. */
  ghost predicate ClaimedInOrder(cal: Calendar, a: State, b: State, missed: set<int>) {
    LogsGrow(a, b) && LogsKept(a, b) &&
    forall d {:trigger InAppendOrder(cal, b, d)} ::
      ListedByAge(a.files, d) && (OneClosed(a.files, d) || d !in missed) && InAppendOrder(cal, a, d) ==> InAppendOrder(cal, b, d)
  }

  lemma {:induction false} OrderAfterClaim(cal: Calendar, a: State, b: State, c: State, names: seq<Name>, i: nat, failed: set<int>, missed: set<int>)
    requires i < |names| && names[i].Closed? && InOrder(ListedBefore, names) && names[i] in b.files
    requires ClosedFrom(a.files, b.files) && ClaimedInOrder(cal, a, b, missed)
    requires ClosedLeft(cal, b.files, names[i..], failed, missed)
    requires OnwardBut(cal, b, c, names[i].day, names[i].n)
    ensures ClaimedInOrder(cal, a, c, missed)
  {
    forall d | ListedByAge(a.files, d) && (OneClosed(a.files, d) || d !in missed) && InAppendOrder(cal, a, d)
      ensures InAppendOrder(cal, c, d)
    {
      assert InAppendOrder(cal, b, d);
      if d == names[i].day { FirstIsOldest(a.files, b.files, names, i, d, names[i].n); }
    }
  }

  /** The names of b that a has not are logs of months that take events. */
  ghost predicate OnlyNewLogs(cal: Calendar, late: nat, today: int, a: map<Name, File>, b: map<Name, File>) {
    forall n {:trigger n in b} :: n in b && n !in a ==> n.LogName? && !Final(cal, late, today, cal.monthOf(n.day))
  }

  /** Of a's files but open logs, those of days are gone, and no other. */
  ghost predicate Without(a: map<Name, File>, b: map<Name, File>, days: seq<Name>) {
    && (forall n {:trigger n in a} {:trigger n in b} :: n in a && !n.LogName? && n !in days ==> n in b)
    && (forall k {:trigger days[k]} :: 0 <= k < |days| ==> days[k] !in b)
  }

  lemma {:induction false} OneWithout(a: map<Name, File>, b: map<Name, File>, c: map<Name, File>, days: seq<Name>, day: Name)
    requires Without(a, b, days) && day !in c && (forall k :: 0 <= k < |days| ==> !days[k].LogName?)
    requires forall n :: n in b && !n.LogName? && n != day ==> n in c
    requires forall n :: n in c && n !in b ==> n.LogName?
    ensures Without(a, c, days + [day])
  {
    assert forall n :: n in days + [day] <==> n in days || n == day;
  }

  // ----- the operations of the pass

  /** An operation of the pass on a file of the month. */
  predicate IsOfMonth(cal: Calendar, s: Step, month: int) {
    match s
    case Rotate(d, _) => cal.monthOf(d) == month
    case CutClosed(d, _) => cal.monthOf(d) == month
    case DropEmpty(d, _) => cal.monthOf(d) == month
    case Claim(d, _, _) => cal.monthOf(d) == month
    case WriteTarget(d, _) => cal.monthOf(d) == month
    case DropClaimed(d, _) => cal.monthOf(d) == month
    case WriteMonth(m, _) => m == month
    case DropMerged(d, _) => cal.monthOf(d) == month
    case _ => false
  }

  /** One on a closed log of the day. */
  predicate IsOnClosed(s: Step, day: int) {
    match s
    case CutClosed(d, _) => d == day
    case DropEmpty(d, _) => d == day
    case Claim(d, _, _) => d == day
    case _ => false
  }

  // ----- the pass

  class Archive {
    const cal: Calendar
    const late: nat
    // Which operations fail, listings and looks at a log's size do, and between
    // which a pass is stopped: the n-th of all.
    const fails: (Step, nat) -> bool
    const listFails: nat -> bool
    const statFails: nat -> bool
    const stops: nat -> bool
    var st: State
    var clock: nat
    ghost var run: seq<State>

    /** The directory as it is, with every state it went through: what a crash
        at that point would have left. */
    ghost predicate Valid()
      reads this
    {
      && CalendarOk(cal)
      && run != [] && run[|run| - 1] == st
      && IsRun(cal, late, run)
      && Inv(cal, late, run[0]) && Aged(cal, run[0])
    }

    lemma {:induction false} Sound()
      requires Valid()
      ensures Inv(cal, late, st) && Aged(cal, st)
    {
      RunKeepsAges(cal, late, run, |run| - 1);
    }

    ghost predicate FailedAt(s: Step, k: nat, month: int) {
      IsOfMonth(cal, s, month) && fails(s, k)
    }

    /** Of the operations c0 to c1 one of the month's failed. */
    ghost predicate MonthFailed(month: int, c0: nat, c1: nat) {
      exists s, k: nat {:trigger FailedAt(s, k, month)} :: c0 <= k < c1 && FailedAt(s, k, month)
    }

    ghost predicate AllFailed(months: set<int>, c0: nat, c1: nat) {
      forall month {:trigger MonthFailed(month, c0, c1)} :: month in months ==> MonthFailed(month, c0, c1)
    }

    /** An operation more: of month month, and failed unless ok. */
    lemma {:induction false} Tally(failed: set<int>, ok: bool, month: int, c0: nat, c1: nat, c2: nat)
      requires AllFailed(failed, c0, c1) && c0 <= c1 <= c2 && (!ok ==> MonthFailed(month, c1, c2))
      ensures AllFailed(NowFailed(failed, ok, month), c0, c2)
    {
      forall m | m in NowFailed(failed, ok, month)
        ensures MonthFailed(m, c0, c2)
      {
        if m in failed { assert MonthFailed(m, c0, c1); }
      }
    }

    lemma {:induction false} FailedStays(months: set<int>, c0: nat, c1: nat, c2: nat)
      requires AllFailed(months, c0, c1) && c1 <= c2
      ensures AllFailed(months, c0, c2)
    {
      forall m | m in months
        ensures MonthFailed(m, c0, c2)
      {
        assert MonthFailed(m, c0, c1);
      }
    }

    lemma {:induction false} NoneFailed(months: set<int>, c0: nat, c1: nat)
      requires AllFailed(months, c0, c1)
      ensures (forall s, k :: !fails(s, k)) ==> months == {}
    {
      if (forall s, k :: !fails(s, k)) && months != {} {
        SomeIn(months);
        var m :| m in months;
        assert MonthFailed(m, c0, c1);
      }
    }

    ghost predicate ClaimFailedAt(s: Step, k: nat, day: int) {
      IsOnClosed(s, day) && fails(s, k)
    }

    ghost predicate ClaimFailed(day: int, c0: nat, c1: nat) {
      exists s, k: nat {:trigger ClaimFailedAt(s, k, day)} :: c0 <= k < c1 && ClaimFailedAt(s, k, day)
    }

    lemma {:induction false} ClaimOfMonth(day: int, c0: nat, c1: nat)
      requires ClaimFailed(day, c0, c1)
      ensures MonthFailed(cal.monthOf(day), c0, c1)
    {
      var s, k: nat :| c0 <= k < c1 && ClaimFailedAt(s, k, day);
      assert FailedAt(s, k, cal.monthOf(day));
    }

    /** The day's closed logs are claimed oldest first: they are listed so, and of
        several no claim fails. */
    ghost predicate ClaimsInOrder(files: map<Name, File>, day: int, c0: nat, c1: nat) {
      ListedByAge(files, day) && (OneClosed(files, day) || !ClaimFailed(day, c0, c1))
    }

    ghost predicate MissedFailed(missed: set<int>, c0: nat, c1: nat) {
      forall d {:trigger ClaimFailed(d, c0, c1)} :: d in missed ==> ClaimFailed(d, c0, c1)
    }

    lemma {:induction false} MissedStays(missed: set<int>, c0: nat, c1: nat, c2: nat)
      requires MissedFailed(missed, c0, c1) && c1 <= c2
      ensures MissedFailed(missed, c0, c2)
    {
      forall d | d in missed
        ensures ClaimFailed(d, c0, c2)
      {
        assert ClaimFailed(d, c0, c1);
      }
    }

    constructor (cal: Calendar, late: nat, st: State, fails: (Step, nat) -> bool, listFails: nat -> bool,
                 statFails: nat -> bool, stops: nat -> bool)
      requires CalendarOk(cal) && Inv(cal, late, st) && Aged(cal, st)
      ensures Valid() && this.cal == cal && this.late == late && this.st == st && clock == 0
      ensures this.fails == fails && this.listFails == listFails && this.statFails == statFails && this.stops == stops
    {
      this.cal, this.late, this.st, this.run := cal, late, st, [st];
      this.fails, this.listFails, this.statFails, this.stops, this.clock := fails, listFails, statFails, stops, 0;
    }

    /** One file operation; when it fails nothing changed. */
    method Do(s: Step) returns (ok: bool)
      requires Valid() && Enabled(cal, late, st, s)
      modifies this
      ensures Valid() && old(run) <= run && clock == old(clock) + 1
      ensures ok <==> !fails(s, old(clock))
      ensures st == if ok then After(cal, late, old(st), s) else old(st)
      ensures !s.Claim? && !s.Rotate? ==> Onward(cal, old(st), st)
      ensures s.Rotate? ==> OnwardFrom(cal, old(st), st, s.day + 1)
      ensures s.Claim? && ok ==> OnwardBut(cal, old(st), st, s.day, s.n)
    {
      ok := !fails(s, clock);
      clock := clock + 1;
      if ok { Occur(s); }
    }

    method Occur(s: Step)
      requires Valid() && Enabled(cal, late, st, s)
      modifies `st, `run
      ensures Valid() && old(run) <= run && st == After(cal, late, old(st), s)
      ensures !s.Claim? && !s.Rotate? ==> Onward(cal, old(st), st)
      ensures s.Rotate? ==> OnwardFrom(cal, old(st), st, s.day + 1)
      ensures s.Claim? ==> OnwardBut(cal, old(st), st, s.day, s.n)
    {
      Sound();
      Orders(cal, late, st, s);
      ghost var was := run;
      st := After(cal, late, st, s);
      run := run + [st];
      assert CanStep(cal, late, was[|was| - 1], st);
    }

    /** What goes on between two operations of the pass. */
    method Others()
      requires Valid()
      modifies `st, `run
      ensures Valid() && old(run) <= run
      ensures Meanwhile(cal, late, old(st), st) && Onward(cal, old(st), st)
    {
      var k: nat := *;
      while k > 0
        invariant Valid() && old(run) <= run
        invariant Meanwhile(cal, late, old(st), st) && Onward(cal, old(st), st)
      {
        var s: Step := *;
        if IsIngest(cal, late, st, s) && Enabled(cal, late, st, s) {
          Occur(s);
        }
        k := k - 1;
      }
    }

    /** list: every name there is, in order. */
    method List() returns (ok: bool, names: seq<Name>)
      requires Valid()
      modifies `clock
      ensures Valid() && clock == old(clock) + 1 && ok == !listFails(old(clock))
      ensures if ok then InOrder(ListedBefore, names) && forall n :: n in names <==> n in st.files else names == []
    {
      ok := !listFails(clock);
      clock := clock + 1;
      names := [];
      if ok { names := Listing.Sorted(st.files.Keys); }
    }

    /** nextClosed: the first free <day>.<n>.closed. */
    method NextClosed(day: int) returns (n: nat)
      ensures IsFirstFree(st.files, day, n)
      ensures n >= 1 && Closed(day, n) !in st.files && forall k: nat :: 1 <= k < n ==> Closed(day, k) in st.files
    {
      n := 1;
      ghost var free := st.files.Keys;
      while Closed(day, n) in st.files
        invariant 1 <= n
        invariant forall k :: 1 <= k < n ==> Closed(day, k) in st.files
        invariant forall k :: n <= k && Closed(day, k) in st.files ==> Closed(day, k) in free
        decreases free
      {
        free := free - {Closed(day, n)};
        n := n + 1;
      }
    }

    /** Log.Rotate: with the log's lock held, so nothing is appended in between. */
    method Rotate(day: int) returns (ok: bool, n: nat)
      requires Valid() && day < st.today
      modifies this
      ensures Valid() && old(run) <= run && st.today == old(st.today) && old(clock) <= clock
      ensures !ok ==> MonthFailed(cal.monthOf(day), old(clock), clock)
      ensures st.files == if ok && LogName(day) in old(st.files) then Rename(old(st.files), LogName(day), Closed(day, n)) else old(st.files)
      ensures LogName(day) in old(st.files) ==> IsFirstFree(old(st.files), day, n)
      ensures OnwardFrom(cal, old(st), st, day + 1)
    {
      if LogName(day) !in st.files { return true, 0; }
      n := NextClosed(day);
      ok := Do(Directory.Step.Rotate(day, n));
      assert !ok ==> FailedAt(Directory.Step.Rotate(day, n), old(clock), cal.monthOf(day));
    }

    /** The first free target for a day's dump: its file, or its next segment. */
    method FreeTarget(day: int) returns (seg: nat)
      ensures IsFirstTarget(st.files, day, seg)
      ensures DayFile(day, seg) !in st.files && Dumping(day, seg) !in st.files
      ensures forall k: nat {:trigger DayFile(day, k)} :: k < seg ==> DayFile(day, k) in st.files || Dumping(day, k) in st.files
    {
      seg := 0;
      ghost var free := st.files.Keys;
      while DayFile(day, seg) in st.files || Dumping(day, seg) in st.files
        invariant forall k :: 0 <= k < seg ==> IsTarget(st.files, day, k)
        invariant forall k: nat :: seg <= k && DayFile(day, k) in st.files ==> DayFile(day, k) in free
        invariant forall k: nat :: seg <= k && Dumping(day, k) in st.files ==> Dumping(day, k) in free
        decreases free
      {
        free := free - {DayFile(day, seg), Dumping(day, seg)};
        seg := seg + 1;
      }
      forall k: nat | k < seg
        ensures DayFile(day, k) in st.files || Dumping(day, k) in st.files
      {
        assert IsTarget(st.files, day, k);
      }
    }

    /** The closed log opened and read, and a torn line at its end cut off. */
    method CutTorn(day: int, n: nat) returns (ok: bool)
      requires Valid() && Closed(day, n) in st.files
      modifies this
      ensures Valid() && old(run) <= run && old(st.today) <= st.today && old(clock) <= clock
      ensures !ok ==> ClaimFailed(day, old(clock), clock)
      ensures SameButLogs(old(st.files), st.files) && Onward(cal, old(st), st)
      ensures ok ==> st.files[Closed(day, n)].Log? && !st.files[Closed(day, n)].torn
      ensures forall m :: m in st.files && m.LogName? && Final(cal, late, old(st.today), cal.monthOf(m.day)) ==> m in old(st.files)
    {
      Sound();
      assert FileOk(cal, st, Closed(day, n), st.files[Closed(day, n)]);
      if st.files[Closed(day, n)].torn {
        ok := Do(Directory.CutClosed(day, n));
      } else {
        ok := !fails(Directory.CutClosed(day, n), clock);
        clock := clock + 1;
      }
      assert !ok ==> ClaimFailedAt(Directory.CutClosed(day, n), old(clock), day);
      Others();
    }

    /** A closed log renamed to the first free target's .dumping. */
    method ClaimLines(day: int, n: nat) returns (ok: bool)
      requires Valid() && Closed(day, n) in st.files
      requires st.files[Closed(day, n)].Log? && !st.files[Closed(day, n)].torn
      modifies this
      ensures Valid() && old(run) <= run && st.today == old(st.today) && clock == old(clock) + 1
      ensures !ok ==> ClaimFailed(day, old(clock), clock) && st == old(st)
      ensures ok ==> Closed(day, n) !in st.files && OnwardBut(cal, old(st), st, day, n)
      ensures ok ==> exists seg :: ClaimedAs(old(st.files), st.files, day, seg, old(st.files)[Closed(day, n)].of)
      ensures forall m :: m in st.files && m !in old(st.files) ==> m.Dumping? && m.day == day
      ensures forall m :: m in old(st.files) && m != Closed(day, n) ==> m in st.files && st.files[m] == old(st.files)[m]
    {
      var seg := FreeTarget(day);
      ghost var of := st.files[Closed(day, n)].of;
      ok := Do(Directory.Claim(day, n, seg));
      assert !ok ==> ClaimFailedAt(Directory.Claim(day, n, seg), old(clock), day);
      assert ok ==> ClaimedAs(old(st.files), st.files, day, seg, of);
    }

    /** An empty log removed, or a log's lines claimed. */
    method Settle(day: int, n: nat) returns (ok: bool)
      requires Valid() && Closed(day, n) in st.files
      requires st.files[Closed(day, n)].Log? && !st.files[Closed(day, n)].torn
      modifies this
      ensures Valid() && old(run) <= run && st.today == old(st.today) && clock == old(clock) + 1
      ensures !ok ==> ClaimFailed(day, old(clock), clock) && st == old(st)
      ensures ok ==> Closed(day, n) !in st.files && OnwardBut(cal, old(st), st, day, n)
      ensures ok && old(st.files)[Closed(day, n)].of != [] ==>
                exists seg :: ClaimedAs(old(st.files), st.files, day, seg, old(st.files)[Closed(day, n)].of)
      ensures old(st.files)[Closed(day, n)].of == [] && !statFails(old(clock)) ==> st.files.Keys <= old(st.files.Keys)
      ensures forall m :: m in st.files && m !in old(st.files) ==> m.Dumping? && m.day == day
      ensures forall m :: m in old(st.files) && m != Closed(day, n) ==> m in st.files && st.files[m] == old(st.files)[m]
    {
      if !statFails(clock) && st.files[Closed(day, n)].of == [] {
        ok := Do(Directory.DropEmpty(day, n));
        assert !ok ==> ClaimFailedAt(Directory.DropEmpty(day, n), old(clock), day);
      } else {
        ok := ClaimLines(day, n);
      }
    }

    /** claim: cut the torn line off, drop an empty log, or rename the log to
        the first free target's .dumping. */
    method Claim(day: int, n: nat) returns (ok: bool)
      requires Valid() && Closed(day, n) in st.files
      modifies this
      ensures Valid() && old(run) <= run && old(st.today) <= st.today && old(clock) <= clock
      ensures !ok ==> ClaimFailed(day, old(clock), clock) && Onward(cal, old(st), st) && SameButLogs(old(st.files), st.files)
      ensures ok ==> Closed(day, n) !in st.files && OnwardBut(cal, old(st), st, day, n)
      ensures ok && old(st.files)[Closed(day, n)].of != [] ==>
                exists seg :: ClaimedAs(old(st.files), st.files, day, seg, old(st.files)[Closed(day, n)].of)
      ensures old(st.files)[Closed(day, n)].of == [] && (forall k :: !statFails(k)) ==>
                forall m :: m in st.files && m !in old(st.files) ==> m.LogName?
      ensures forall m :: m in st.files && m !in old(st.files) ==> m.LogName? || (m.Dumping? && m.day == day)
      ensures forall m :: m in old(st.files) && m != Closed(day, n) && !m.LogName? ==> m in st.files && st.files[m].of == old(st.files)[m].of
      ensures forall m :: m in st.files && m.LogName? && Final(cal, late, old(st.today), cal.monthOf(m.day)) ==> m in old(st.files)
    {
      ok := CutTorn(day, n);
      if !ok { return; }
      ghost var mid := st;
      ok := Settle(day, n);
      if ok {
        if IsOldest(old(st.files), day, n) { OldestStays(old(st.files), mid.files, day, n); }
        if mid.files[Closed(day, n)].of != [] {
          ghost var seg :| ClaimedAs(mid.files, st.files, day, seg, mid.files[Closed(day, n)].of);
          FirstTargetStays(old(st.files), mid.files, day, seg);
          assert ClaimedAs(old(st.files), st.files, day, seg, old(st.files)[Closed(day, n)].of);
        }
      }
    }

    /** dump: write the claimed log's target unless it is there, then delete the log. */
    method Dump(day: int, seg: nat) returns (ok: bool)
      requires Valid() && Dumping(day, seg) in st.files
      modifies this
      ensures Valid() && old(run) <= run && old(st.today) <= st.today && old(clock) <= clock
      ensures !ok ==> MonthFailed(cal.monthOf(day), old(clock), clock)
      ensures Onward(cal, old(st), st)
      ensures ok ==> Dumping(day, seg) !in st.files
      ensures ok ==> DayFile(day, seg) in st.files && st.files[DayFile(day, seg)].of == old(st.files)[Dumping(day, seg)].of
      ensures forall m :: m in st.files && m !in old(st.files) ==> m.LogName? || m == DayFile(day, seg)
      ensures forall m :: m in old(st.files) && m != Dumping(day, seg) && !m.LogName? ==> m in st.files
      ensures forall m :: m in st.files && m.LogName? && Final(cal, late, old(st.today), cal.monthOf(m.day)) ==> m in old(st.files)
    {
      Sound();
      assert FileOk(cal, st, Dumping(day, seg), st.files[Dumping(day, seg)]) && ClaimOk(st.files, Dumping(day, seg));
      ok := true;
      if DayFile(day, seg) !in st.files {
        ok := Do(WriteTarget(day, seg));
        assert !ok ==> FailedAt(WriteTarget(day, seg), clock - 1, cal.monthOf(day));
      }
      if ok { ok := DropDumped(day, seg); }
    }

    method DropDumped(day: int, seg: nat) returns (ok: bool)
      requires Valid() && Dumping(day, seg) in st.files && DayFile(day, seg) in st.files
      modifies this
      ensures Valid() && old(run) <= run && old(st.today) <= st.today && old(clock) <= clock
      ensures !ok ==> MonthFailed(cal.monthOf(day), old(clock), clock)
      ensures Onward(cal, old(st), st)
      ensures ok ==> Dumping(day, seg) !in st.files
      ensures DayFile(day, seg) in st.files && st.files[DayFile(day, seg)] == old(st.files)[DayFile(day, seg)]
      ensures forall m :: m in st.files && m !in old(st.files) ==> m.LogName?
      ensures forall m :: m in old(st.files) && m != Dumping(day, seg) && !m.LogName? ==> m in st.files
      ensures forall m :: m in st.files && m.LogName? && Final(cal, late, old(st.today), cal.monthOf(m.day)) ==> m in old(st.files)
    {
      Others();
      ok := Do(DropClaimed(day, seg));
      assert !ok ==> FailedAt(DropClaimed(day, seg), clock - 1, cal.monthOf(day));
    }

    /** A complete listing without an open log of a final month allows its merge. */
    lemma {:induction false} CanMerge(names: seq<Name>, today: int, month: int, days: seq<Name>)
      requires Valid() && today <= st.today && Final(cal, late, today, month)
      requires forall n :: n in st.files && n.DayFile? ==> n in names
      requires forall n :: n in st.files && IsOpen(n) && Final(cal, late, today, cal.monthOf(n.day)) ==> n in names
      requires !Open(cal, names, month)
      requires days != [] && InOrder(DayBefore, days)
      requires forall n :: n in days <==> n in names && n.DayFile? && cal.monthOf(n.day) == month
      requires forall n :: n in days ==> n in st.files
      ensures Enabled(cal, late, st, WriteMonth(month, days))
    {
      Sound();
      assert forall k :: 0 <= k < |days| ==> days[k] in days;
      assert DaysOf(cal, st.files, month, days);
      DaysAreTables(cal, late, st, month, days);
      assert forall k :: 0 <= k < |days| ==> days[k] in st.files && TableOk(st.appended, st.files[days[k]]);
      if MonthFile(month) in st.files {
        assert FileOk(cal, st, MonthFile(month), st.files[MonthFile(month)]);
      }
    }

    /** A day of a merged month deleted. */
    method DropDay(day: int, seg: nat) returns (ok: bool)
      requires Valid() && DayFile(day, seg) in st.files && MonthFile(cal.monthOf(day)) in st.files
      modifies this
      ensures Valid() && old(run) <= run && old(st.today) <= st.today && old(clock) <= clock
      ensures !ok ==> MonthFailed(cal.monthOf(day), old(clock), clock)
      ensures Onward(cal, old(st), st)
      ensures ok ==> DayFile(day, seg) !in st.files
      ensures forall n :: n in old(st.files) && !n.LogName? && n != DayFile(day, seg) ==> n in st.files
      ensures forall n :: n in st.files && n !in old(st.files) ==>
                n.LogName? && !Final(cal, late, old(st.today), cal.monthOf(n.day))
    {
      Others();
      ok := Do(DropMerged(day, seg));
      assert !ok ==> FailedAt(DropMerged(day, seg), clock - 1, cal.monthOf(day));
    }

    method DropNext(days: seq<Name>, i: nat, month: int, ghost was: map<Name, File>) returns (ok: bool)
      requires Valid() && InOrder(DayBefore, days) && i < |days| && MonthFile(month) in was && Without(was, st.files, days[..i])
      requires forall k :: 0 <= k < |days| ==> days[k] in was && days[k].DayFile? && cal.monthOf(days[k].day) == month
      modifies this
      ensures Valid() && old(run) <= run && old(st.today) <= st.today && old(clock) <= clock
      ensures !ok ==> MonthFailed(month, old(clock), clock)
      ensures Onward(cal, old(st), st) && OnlyNewLogs(cal, late, old(st.today), old(st.files), st.files)
      ensures ok ==> Without(was, st.files, days[..i + 1])
      ensures forall n :: n in was && !n.LogName? && n !in days ==> n in st.files
    {
      assert days[..i + 1] == days[..i] + [days[i]];
      assert forall k :: 0 <= k < i ==> DayBefore(days[k], days[i]);
      assert days[i] !in days[..i] && MonthFile(month) !in days[..i];
      assert forall n: Name :: n in days[..i] ==> n in days;
      assert days[i] in days;
      ok := DropDay(days[i].day, days[i].seg);
      if ok { OneWithout(was, old(st.files), st.files, days[..i], days[i]); }
    }

    /** The merged days deleted one by one. */
    method DropDays(days: seq<Name>, month: int) returns (ok: bool)
      requires Valid() && InOrder(DayBefore, days) && MonthFile(month) in st.files
      requires forall k :: 0 <= k < |days| ==> days[k] in st.files && days[k].DayFile? && cal.monthOf(days[k].day) == month
      modifies this
      ensures Valid() && old(run) <= run && old(st.today) <= st.today && old(clock) <= clock
      ensures !ok ==> MonthFailed(month, old(clock), clock)
      ensures Onward(cal, old(st), st)
      ensures ok ==> Without(old(st.files), st.files, days)
      ensures forall n :: n in old(st.files) && !n.LogName? && n !in days ==> n in st.files
      ensures OnlyNewLogs(cal, late, old(st.today), old(st.files), st.files)
    {
      ok := true;
      for i := 0 to |days|
        invariant Valid() && old(run) <= run && old(st.today) <= st.today && old(clock) <= clock && ok
        invariant Onward(cal, old(st), st)
        invariant Without(old(st.files), st.files, days[..i])
        invariant OnlyNewLogs(cal, late, old(st.today), old(st.files), st.files)
      {
        ok := DropNext(days, i, month, old(st.files));
        if !ok { return; }
      }
      assert days[..|days|] == days;
    }

    /** merge: write the month's days, with the month file if there is one, as
        the month file, then delete them. */
    method MergeMonth(names: seq<Name>, today: int, month: int) returns (ok: bool)
      requires Valid() && today <= st.today && Final(cal, late, today, month)
      requires forall n :: n in st.files && n.DayFile? ==> n in names
      requires forall n :: n in names && n.DayFile? && cal.monthOf(n.day) == month ==> n in st.files
      requires forall n :: n in st.files && IsOpen(n) && Final(cal, late, today, cal.monthOf(n.day)) ==> n in names
      requires !Open(cal, names, month)
      modifies this
      ensures Valid() && old(run) <= run && today <= st.today && old(clock) <= clock
      ensures !ok ==> MonthFailed(month, old(clock), clock)
      ensures Onward(cal, old(st), st)
      ensures ok ==> forall n :: n in st.files && n.DayFile? ==> cal.monthOf(n.day) != month
      ensures ok && (exists n :: n in old(st.files) && n.DayFile? && cal.monthOf(n.day) == month) ==> MonthFile(month) in st.files
      ensures forall n :: n in old(st.files) && !n.LogName? && !(n.DayFile? && cal.monthOf(n.day) == month) ==> n in st.files
      ensures forall n :: n in st.files && n !in old(st.files) ==>
                (n.LogName? && !Final(cal, late, today, cal.monthOf(n.day))) || n == MonthFile(month)
    {
      var days := DaysIn(cal, names, month);
      if days == [] { return true; }
      CanMerge(names, today, month, days);
      ok := Do(WriteMonth(month, days));
      assert !ok ==> FailedAt(WriteMonth(month, days), clock - 1, month);
      if !ok { return; }
      assert forall k :: 0 <= k < |days| ==> days[k] in days;
      ok := DropDays(days, month);
    }

    // ----- 1. the logs of days gone by are closed

    ghost predicate RotatedTo(was: State, names: seq<Name>, i: nat, today: int, failed: set<int>, c0: nat)
      requires i <= |names|
      reads this
    {
      && today <= st.today && c0 <= clock && AllFailed(failed, c0, clock)
      && (forall n :: n in st.files && n.LogName? && Final(cal, late, today, cal.monthOf(n.day)) ==>
            n in names[i..] || cal.monthOf(n.day) in failed)
      && LogsLeft(cal, was, st, names[i..], today, failed)
      && OnwardFrom(cal, was, st, today)
      && ClosedOnce(was.files, st.files, names[i..])
    }

    method RotateAll(names: seq<Name>, today: int, ghost c0: nat) returns (failed: set<int>)
      requires Valid() && today <= st.today && InOrder(ListedBefore, names) && c0 <= clock
      requires forall n :: n in st.files && n.LogName? ==> n in names
      modifies this
      ensures Valid() && old(run) <= run && today <= st.today && old(clock) <= clock
      ensures AllFailed(failed, c0, clock)
      ensures LogsClosed(cal, late, st.files, today, failed)
      ensures LogsLeft(cal, old(st), st, [], today, failed)
      ensures OnwardFrom(cal, old(st), st, today)
      ensures forall d {:trigger OneClosed(st.files, d)} :: NoneClosed(old(st.files), d) ==> OneClosed(st.files, d)
    {
      failed := {};
      assert names[0..] == names;
      for i := 0 to |names|
        invariant Valid() && old(run) <= run && old(clock) <= clock
        invariant RotatedTo(old(st), names, i, today, failed, c0)
      {
        failed := RotateNext(names, i, today, failed, c0, old(st));
      }
    }

    method RotateNext(names: seq<Name>, i: nat, today: int, failed0: set<int>, ghost c0: nat, ghost was: State) returns (failed: set<int>)
      requires Valid() && i < |names| && InOrder(ListedBefore, names) && RotatedTo(was, names, i, today, failed0, c0)
      modifies this
      ensures Valid() && old(run) <= run && old(clock) <= clock && RotatedTo(was, names, i + 1, today, failed, c0)
    {
      failed := failed0;
      assert names[i..] == [names[i]] + names[i + 1..];
      Others();
      StillOnce(was.files, old(st.files), st.files, names[i..]);
      if names[i].LogName? && names[i].day < today {
        failed := RotateOne(names, i, today, failed, c0, was);
      } else {
        OnceLess(was.files, st.files, names, i);
      }
    }

    method RotateOne(names: seq<Name>, i: nat, today: int, failed0: set<int>, ghost c0: nat, ghost was: State) returns (failed: set<int>)
      requires Valid() && i < |names| && InOrder(ListedBefore, names) && RotatedTo(was, names, i, today, failed0, c0)
      requires names[i].LogName? && names[i].day < today
      modifies this
      ensures Valid() && old(run) <= run && old(clock) <= clock && RotatedTo(was, names, i + 1, today, failed, c0)
    {
      failed := failed0;
      assert names[i..] == [names[i]] + names[i + 1..];
      OnceLess(was.files, st.files, names, i);
      var ok, n := Rotate(names[i].day);
      if ok && names[i] in old(st.files) { OnceMore(was.files, old(st.files), names, i, n); }
      Tally(failed, ok, cal.monthOf(names[i].day), c0, old(clock), clock);
      if !ok { failed := failed + {cal.monthOf(names[i].day)}; }
    }

    // ----- 2. the closed logs, of whatever pass, are claimed

    ghost predicate ClaimedTo(was: State, c: nat, names: seq<Name>, i: nat, today: int, failed: set<int>, missed: set<int>, c0: nat)
      requires i <= |names|
      reads this
    {
      && today <= st.today && c0 <= c <= clock && AllFailed(failed, c0, clock)
      && LogsClosed(cal, late, st.files, today, failed)
      && ClosedLeft(cal, st.files, names[i..], failed, missed)
      && ClosedFrom(was.files, st.files)
      && MissedFailed(missed, c, clock)
      && ClaimedInOrder(cal, was, st, missed)
    }

    method ClaimAll(names: seq<Name>, today: int, failed0: set<int>, ghost c0: nat) returns (failed: set<int>)
      requires Valid() && today <= st.today && c0 <= clock && AllFailed(failed0, c0, clock)
      requires LogsClosed(cal, late, st.files, today, failed0)
      requires InOrder(ListedBefore, names) && forall n: Name :: n.Closed? ==> (n in st.files <==> n in names)
      modifies this
      ensures Valid() && old(run) <= run && today <= st.today && old(clock) <= clock
      ensures failed0 <= failed && AllFailed(failed, c0, clock)
      ensures LogsClosed(cal, late, st.files, today, failed) && ClosedClaimed(cal, st.files, failed)
      ensures LogsGrow(old(st), st) && LogsKept(old(st), st)
      ensures forall d {:trigger InAppendOrder(cal, st, d)} ::
                InAppendOrder(cal, old(st), d) && ClaimsInOrder(old(st.files), d, old(clock), clock) ==> InAppendOrder(cal, st, d)
    {
      failed := failed0;
      ghost var missed: set<int> := {};
      assert names[0..] == names;
      for i := 0 to |names|
        invariant Valid() && old(run) <= run && failed0 <= failed
        invariant ClaimedTo(old(st), old(clock), names, i, today, failed, missed, c0)
      {
        failed, missed := ClaimNext(names, i, today, failed, missed, c0, old(st), old(clock));
      }
    }

    method ClaimNext(names: seq<Name>, i: nat, today: int, failed0: set<int>, ghost missed0: set<int>, ghost c0: nat,
                     ghost was: State, ghost c: nat) returns (failed: set<int>, ghost missed: set<int>)
      requires Valid() && i < |names| && InOrder(ListedBefore, names) && ClaimedTo(was, c, names, i, today, failed0, missed0, c0)
      modifies this
      ensures Valid() && old(run) <= run && failed0 <= failed
      ensures ClaimedTo(was, c, names, i + 1, today, failed, missed, c0)
    {
      failed, missed := failed0, missed0;
      LaterNames(names, i);
      Others();
      assert ClaimedTo(was, c, names, i, today, failed0, missed0, c0);
      if names[i].Closed? {
        failed, missed := ClaimOne(names, i, today, failed, missed, c0, was, c);
      }
    }

    method ClaimOne(names: seq<Name>, i: nat, today: int, failed0: set<int>, ghost missed0: set<int>, ghost c0: nat,
                    ghost was: State, ghost c: nat) returns (failed: set<int>, ghost missed: set<int>)
      requires Valid() && i < |names| && InOrder(ListedBefore, names) && ClaimedTo(was, c, names, i, today, failed0, missed0, c0)
      requires names[i].Closed?
      modifies this
      ensures Valid() && old(run) <= run && failed0 <= failed
      ensures ClaimedTo(was, c, names, i + 1, today, failed, missed, c0)
    {
      failed, missed := failed0, missed0;
      assert names[i..][0] == names[i] && names[i] in names[i..];
      var ok := Claim(names[i].day, names[i].n);
      MissedStays(missed, c, old(clock), clock);
      if ok {
        OrderAfterClaim(cal, was, old(st), st, names, i, failed0, missed);
      } else {
        ClaimOfMonth(names[i].day, old(clock), clock);
        missed := missed + {names[i].day};
      }
      OneLeft(cal, old(st.files), st.files, names, i, ok, failed0, missed0);
      Tally(failed, ok, cal.monthOf(names[i].day), c0, old(clock), clock);
      if !ok { failed := failed + {cal.monthOf(names[i].day)}; }
    }

    // ----- and dumped, unless the pass is stopped

    ghost predicate DumpedTo(was: State, names: seq<Name>, i: nat, today: int, failed: set<int>, c0: nat)
      requires i <= |names|
      reads this
    {
      && today <= st.today && c0 <= clock && AllFailed(failed, c0, clock)
      && LogsClosed(cal, late, st.files, today, failed) && ClosedClaimed(cal, st.files, failed)
      && (forall n {:trigger n in st.files} :: n in st.files && n.Dumping? ==> n in names[i..] || cal.monthOf(n.day) in failed)
      && (forall n: Name {:trigger n in names[i..]} :: n in names[i..] && n.Dumping? ==> n in st.files)
      && Onward(cal, was, st)
    }

    method DumpAll(names: seq<Name>, today: int, failed0: set<int>, ghost c0: nat) returns (done: bool, failed: set<int>)
      requires Valid() && today <= st.today && c0 <= clock && AllFailed(failed0, c0, clock)
      requires LogsClosed(cal, late, st.files, today, failed0) && ClosedClaimed(cal, st.files, failed0)
      requires InOrder(ListedBefore, names) && forall n: Name :: n.Dumping? ==> (n in st.files <==> n in names)
      modifies this
      ensures Valid() && old(run) <= run && today <= st.today && old(clock) <= clock
      ensures failed0 <= failed && AllFailed(failed, c0, clock)
      ensures LogsClosed(cal, late, st.files, today, failed) && ClosedClaimed(cal, st.files, failed)
      ensures done ==> ClaimedDumped(cal, st.files, failed)
      ensures !done ==> exists k :: old(clock) <= k < clock && stops(k)
      ensures Onward(cal, old(st), st)
    {
      failed := failed0;
      assert names[0..] == names;
      for i := 0 to |names|
        invariant Valid() && old(run) <= run && old(clock) <= clock && failed0 <= failed
        invariant DumpedTo(old(st), names, i, today, failed, c0)
      {
        done, failed := DumpNext(names, i, today, failed, c0, old(st));
        if !done { return; }
      }
      done := true;
    }

    method DumpNext(names: seq<Name>, i: nat, today: int, failed0: set<int>, ghost c0: nat, ghost was: State) returns (done: bool, failed: set<int>)
      requires Valid() && i < |names| && InOrder(ListedBefore, names) && DumpedTo(was, names, i, today, failed0, c0)
      modifies this
      ensures Valid() && old(run) <= run && old(clock) <= clock && failed0 <= failed
      ensures DumpedTo(was, names, if done then i + 1 else i, today, failed, c0)
      ensures done <==> names[i].Dumping? ==> !stops(old(clock))
      ensures !done ==> exists k :: old(clock) <= k < clock && stops(k)
    {
      done, failed := true, failed0;
      LaterNames(names, i);
      Others();
      assert DumpedTo(was, names, i, today, failed0, c0);
      if names[i].Dumping? {
        clock := clock + 1;
        FailedStays(failed, c0, clock - 1, clock);
        if stops(clock - 1) { return false, failed; }
        failed := DumpOne(names, i, today, failed, c0, was);
      }
    }

    method DumpOne(names: seq<Name>, i: nat, today: int, failed0: set<int>, ghost c0: nat, ghost was: State) returns (failed: set<int>)
      requires Valid() && i < |names| && InOrder(ListedBefore, names) && DumpedTo(was, names, i, today, failed0, c0)
      requires names[i].Dumping?
      modifies this
      ensures Valid() && old(run) <= run && old(clock) <= clock && failed0 <= failed
      ensures DumpedTo(was, names, i + 1, today, failed, c0)
    {
      failed := failed0;
      LaterNames(names, i);
      var ok := Dump(names[i].day, names[i].seg);
      Tally(failed, ok, cal.monthOf(names[i].day), c0, old(clock), clock);
      if !ok { failed := failed + {cal.monthOf(names[i].day)}; }
    }

    // ----- 4. the final months are merged

    ghost predicate MergedTo(was: State, names: seq<Name>, months: seq<int>, i: nat, today: int, failed: set<int>, c0: nat)
      requires i <= |months|
      reads this
    {
      && today <= st.today && c0 <= clock && AllFailed(failed, c0, clock)
      && (forall n :: n in st.files && n !in names ==> (n.LogName? && !Final(cal, late, today, cal.monthOf(n.day))) || n.MonthFile?)
      && (forall n :: n in st.files && n.DayFile? && Final(cal, late, today, cal.monthOf(n.day)) ==>
            cal.monthOf(n.day) in months[i..] || cal.monthOf(n.day) in failed)
      && (forall n :: n in names && n.DayFile? && cal.monthOf(n.day) in months[i..] ==> n in st.files)
      && Onward(cal, was, st)
    }

    method MergeAll(names: seq<Name>, today: int, failed0: set<int>, ghost c0: nat) returns (failed: set<int>)
      requires Valid() && today <= st.today && c0 <= clock && AllFailed(failed0, c0, clock)
      requires forall n :: n in names <==> n in st.files
      requires LogsClosed(cal, late, st.files, today, failed0) && ClosedClaimed(cal, st.files, failed0)
      requires ClaimedDumped(cal, st.files, failed0)
      modifies this
      ensures Valid() && old(run) <= run && today <= st.today && old(clock) <= clock
      ensures failed0 <= failed && AllFailed(failed, c0, clock)
      ensures LogsClosed(cal, late, st.files, today, failed) && ClosedClaimed(cal, st.files, failed)
      ensures ClaimedDumped(cal, st.files, failed) && DaysMerged(cal, late, st.files, today, failed)
      ensures Onward(cal, old(st), st)
    {
      var months := Months(cal, names);
      failed := failed0;
      assert months[0..] == months;
      for i := 0 to |months|
        invariant Valid() && old(run) <= run && old(clock) <= clock && failed0 <= failed
        invariant MergedTo(old(st), names, months, i, today, failed, c0)
      {
        failed := MergeNext(names, months, i, today, failed0, failed, c0, old(st));
      }
    }

    method MergeNext(names: seq<Name>, months: seq<int>, i: nat, today: int, ghost failed0: set<int>, failed1: set<int>, ghost c0: nat,
                     ghost was: State) returns (failed: set<int>)
      requires Valid() && i < |months| && InOrder(Less, months) && failed0 <= failed1 && MergedTo(was, names, months, i, today, failed1, c0)
      requires forall n :: n in names <==> n in was.files
      requires LogsClosed(cal, late, was.files, today, failed0) && ClosedClaimed(cal, was.files, failed0)
      requires ClaimedDumped(cal, was.files, failed0)
      modifies this
      ensures Valid() && old(run) <= run && old(clock) <= clock && failed1 <= failed
      ensures MergedTo(was, names, months, i + 1, today, failed, c0)
    {
      failed := failed1;
      assert months[i..] == [months[i]] + months[i + 1..];
      assert forall k :: i < k < |months| ==> Less(months[i], months[k]);
      Others();
      if Final(cal, late, today, months[i]) {
        if Open(cal, names, months[i]) {
          assert months[i] in failed0;
        } else {
          var ok := MergeMonth(names, today, months[i]);
          Tally(failed, ok, months[i], c0, old(clock), clock);
          if !ok { failed := failed + {months[i]}; }
        }
      }
    }

    /** maintainProject: whatever fails, every state on the way is one step of
        the protocol after the one before; and a pass that gets through leaves
        each final month in which no operation failed as its month file alone. It
        gets through unless a listing fails or it is stopped; and a day without a
        closed log at its beginning has its lines in order after it. */
    method Maintain() returns (done: bool, failed: set<int>)
      requires Valid()
      modifies this
      ensures Valid() && old(run) <= run && Inv(cal, late, st) && old(clock) <= clock
      ensures !done ==> exists k :: old(clock) <= k < clock && (listFails(k) || stops(k))
      ensures AllFailed(failed, old(clock), clock)
      ensures (forall s, k :: !fails(s, k)) && (forall k :: !listFails(k) && !stops(k)) ==> done && failed == {}
      ensures done ==> forall month :: cal.lastDay(month) + late < old(st.today) && month !in failed ==> MonthDone(cal, st, month)
      ensures done ==> forall n :: n in st.files && (n.Closed? || n.Dumping?) ==> cal.monthOf(n.day) in failed
      ensures done ==> forall n, i: nat ::
                n in old(st.files) && i in old(st.files)[n].of &&
                (n.Closed? || n.Dumping? || (n.LogName? && n.day < old(st.today))) && cal.monthOf(n.day) !in failed ==>
                  exists m :: m in st.files && i in st.files[m].of && (m.DayFile? || m.MonthFile?)
      ensures forall n: Name, i: nat :: n.LogName? && n.day >= old(st.today) && n in old(st.files) && i in old(st.files)[n].of ==>
                n in st.files && i in st.files[n].of
      ensures forall d :: NoneClosed(old(st.files), d) && InAppendOrder(cal, old(st), d) ==> InAppendOrder(cal, st, d)
    {
      Sound();
      ghost var today := st.today;
      done, failed := Stages();
      Sound();
      NoneFailed(failed, old(clock), clock);
      if done {
        AllSettled(cal, late, old(st), st, today, failed);
        AllDone(cal, late, st, today, failed);
      }
      forall n: Name, i: nat | n.LogName? && n.day >= today && n in old(st.files) && i in old(st.files)[n].of
        ensures n in st.files && i in st.files[n].of
      {
        assert Has(old(st.files), n, i) && Has(st.files, n, i);
      }
    }

    // The pass, stage by stage.
    method Stages() returns (done: bool, failed: set<int>)
      requires Valid()
      modifies this
      ensures Valid() && old(run) <= run && old(clock) <= clock && AllFailed(failed, old(clock), clock)
      ensures !done ==> exists k :: old(clock) <= k < clock && (listFails(k) || stops(k))
      ensures done ==> LogsClosed(cal, late, st.files, old(st.today), failed) && ClosedClaimed(cal, st.files, failed)
      ensures done ==> ClaimedDumped(cal, st.files, failed) && DaysMerged(cal, late, st.files, old(st.today), failed)
      ensures done ==> LogsLeft(cal, old(st), st, [], old(st.today), failed)
      ensures LogsGrow(old(st), st) && LogsKeptFrom(old(st), st, old(st.today))
      ensures forall d {:trigger InAppendOrder(cal, st, d)} ::
                NoneClosed(old(st.files), d) && InAppendOrder(cal, old(st), d) ==> InAppendOrder(cal, st, d)
    {
      var today := st.today;
      var names;
      done, failed, names := ListAndRotate();
      ghost var mid, was := st, failed;
      if done {
        done, failed := ClaimAndDump(names, today, failed, old(clock), old(st));
      }
      if done {
        done, failed := ListAndMerge(today, failed, old(clock));
        LogsLeftAfter(cal, old(st), mid, st, today, was, failed);
      }
    }

    // The logs of days gone by closed, and another listing.
    method ListAndRotate() returns (done: bool, failed: set<int>, names: seq<Name>)
      requires Valid()
      modifies this
      ensures Valid() && old(run) <= run && old(st.today) <= st.today && old(clock) <= clock
      ensures AllFailed(failed, old(clock), clock)
      ensures done ==> LogsClosed(cal, late, st.files, old(st.today), failed)
      ensures done ==> LogsLeft(cal, old(st), st, [], old(st.today), failed)
      ensures done ==> InOrder(ListedBefore, names) && forall n :: n in names <==> n in st.files
      ensures !done ==> exists k :: old(clock) <= k < clock && listFails(k)
      ensures OnwardFrom(cal, old(st), st, old(st.today))
      ensures forall d {:trigger OneClosed(st.files, d)} :: NoneClosed(old(st.files), d) ==> OneClosed(st.files, d)
    {
      failed := {};
      done, names := List();
      if done {
        failed := RotateAll(names, st.today, old(clock));
        ghost var c := clock;
        done, names := List();
        FailedStays(failed, old(clock), c, clock);
      }
    }

    // The final months merged, after another listing.
    method ListAndMerge(today: int, failed0: set<int>, ghost c0: nat) returns (done: bool, failed: set<int>)
      requires Valid() && today <= st.today && c0 <= clock && AllFailed(failed0, c0, clock)
      requires LogsClosed(cal, late, st.files, today, failed0) && ClosedClaimed(cal, st.files, failed0)
      requires ClaimedDumped(cal, st.files, failed0)
      modifies this
      ensures Valid() && old(run) <= run && today <= st.today && old(clock) <= clock
      ensures failed0 <= failed && AllFailed(failed, c0, clock)
      ensures done ==> LogsClosed(cal, late, st.files, today, failed) && ClosedClaimed(cal, st.files, failed)
      ensures done ==> ClaimedDumped(cal, st.files, failed) && DaysMerged(cal, late, st.files, today, failed)
      ensures !done ==> exists k :: old(clock) <= k < clock && listFails(k)
      ensures Onward(cal, old(st), st)
    {
      var names;
      failed := failed0;
      ghost var c := clock;
      done, names := List();
      FailedStays(failed, c0, c, clock);
      if done {
        failed := MergeAll(names, today, failed, c0);
      }
    }

    // The closed logs claimed and dumped, after another listing.
    method ClaimAndDump(names: seq<Name>, today: int, failed0: set<int>, ghost c0: nat, ghost first: State) returns (done: bool, failed: set<int>)
      requires Valid() && today <= st.today && c0 <= clock && AllFailed(failed0, c0, clock)
      requires LogsClosed(cal, late, st.files, today, failed0)
      requires InOrder(ListedBefore, names) && forall n :: n in names <==> n in st.files
      requires OnwardFrom(cal, first, st, today)
      requires forall d {:trigger OneClosed(st.files, d)} :: NoneClosed(first.files, d) ==> OneClosed(st.files, d)
      modifies this
      ensures Valid() && old(run) <= run && today <= st.today && old(clock) <= clock
      ensures failed0 <= failed && AllFailed(failed, c0, clock)
      ensures done ==> LogsClosed(cal, late, st.files, today, failed) && ClosedClaimed(cal, st.files, failed) && ClaimedDumped(cal, st.files, failed)
      ensures !done ==> exists k :: old(clock) <= k < clock && (listFails(k) || stops(k))
      ensures LogsGrow(old(st), st) && LogsKept(old(st), st)
      ensures forall d {:trigger InAppendOrder(cal, st, d)} :: NoneClosed(first.files, d) && InAppendOrder(cal, first, d) ==> InAppendOrder(cal, st, d)
    {
      ghost var before := st.files;
      failed := ClaimAll(names, today, failed0, c0);
      forall d | NoneClosed(first.files, d)
        ensures forall k0: nat, k1: nat {:trigger ClaimsInOrder(before, d, k0, k1)} :: ClaimsInOrder(before, d, k0, k1)
      {
        OneListedByAge(before, d);
      }
      ghost var c := clock;
      var now;
      done, now := List();
      FailedStays(failed, c0, c, clock);
      if done {
        done, failed := DumpAll(now, today, failed, c0);
      }
    }
  }
}
