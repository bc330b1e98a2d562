/** One project's directory: the files a line lives in between its append and
    the month file, and the steps, one rename, write or delete at a time, that
    move it. A crash stops between steps; what a reader lists must hold every
    line exactly once in every state. */
module Directory {
  import opened Rows
  import opened FirstRows
  import opened Segments
  import opened SortedFirsts

  /** Which month a day is in and the month's last day, days being numbered. */
  datatype Calendar = Calendar(monthOf: int -> int, lastDay: int -> int)

  ghost predicate CalendarOk(cal: Calendar) {
    forall d :: d <= cal.lastDay(cal.monthOf(d))
  }

  datatype Name =
    | LogName(day: int)                  // <day>.log
    | Closed(day: int, n: nat)           // <day>.<n>.closed
    | Dumping(day: int, seg: nat)        // <day>[.<seg>].parquet.dumping
    | DayFile(day: int, seg: nat)        // <day>[.<seg>].parquet
    | MonthFile(month: int)              // <month>.parquet

  /** A line appended: its row and the day it was appended for. */
  datatype Entry = Entry(row: Row, day: int)

  /** A log's lines, by their place in the order appended, and whether a torn
      line follows them; or a Parquet file's rows, with the lines they were made of. */
  datatype File =
    | Log(of: seq<nat>, torn: bool)
    | Table(of: seq<nat>, rows: seq<Row>)

  datatype State = State(files: map<Name, File>, appended: seq<Entry>, today: int)

  function RowsAt(appended: seq<Entry>, of: seq<nat>): seq<Row>
    requires forall k :: 0 <= k < |of| ==> of[k] < |appended|
  {
    seq(|of|, k requires 0 <= k < |of| => appended[of[k]].row)
  }

  // ----- what a reader lists

  /** ListFiles: every log; a claimed log until its target exists; a day file
      until its month's file exists. */
  predicate Listed(cal: Calendar, files: map<Name, File>, n: Name) {
    n in files &&
    match n
    case LogName(_) => true
    case Closed(_, _) => true
    case Dumping(d, s) => DayFile(d, s) !in files
    case DayFile(d, _) => MonthFile(cal.monthOf(d)) !in files
    case MonthFile(_) => true
  }

  /** A listed file that holds line i. */
  predicate Holds(cal: Calendar, files: map<Name, File>, n: Name, i: nat) {
    Listed(cal, files, n) && i in files[n].of
  }

  ghost predicate Held(cal: Calendar, files: map<Name, File>, i: nat) {
    exists n :: Holds(cal, files, n, i)
  }

  ghost predicate HeldOnce(cal: Calendar, files: map<Name, File>, i: nat) {
    Held(cal, files, i) && forall m, n :: Holds(cal, files, m, i) && Holds(cal, files, n, i) ==> m == n
  }

  ghost predicate NoRepeats(of: seq<nat>) {
    forall j, k :: 0 <= j < k < |of| ==> of[j] != of[k]
  }

  /** Every line appended is in exactly one file a reader lists, once. */
  ghost predicate ExactlyOnce(cal: Calendar, st: State) {
    && (forall i: nat :: i < |st.appended| ==> HeldOnce(cal, st.files, i))
    && (forall n :: n in st.files ==> NoRepeats(st.files[n].of))
  }

  // ----- the invariant

  function MonthOfName(cal: Calendar, n: Name): int {
    if n.MonthFile? then n.month else cal.monthOf(n.day)
  }

  /** A month is final once its last day is past the late window: no event is
      appended to it any more. */
  predicate Final(cal: Calendar, late: nat, today: int, month: int) {
    cal.lastDay(month) + late < today
  }

  predicate IsOpen(n: Name) {
    n.LogName? || n.Closed? || n.Dumping?
  }

  /** The file n holds what its name says: lines appended, of its day or month;
      a table, the dump of its lines. */
  ghost predicate FileOk(cal: Calendar, st: State, n: Name, f: File) {
    && (f.Log? <==> IsOpen(n))
    && (n.Dumping? ==> !f.torn)
    && (forall k :: 0 <= k < |f.of| ==> f.of[k] < |st.appended|)
    && (forall k :: 0 <= k < |f.of| ==>
          if n.MonthFile? then cal.monthOf(st.appended[f.of[k]].day) == n.month else st.appended[f.of[k]].day == n.day)
    && (f.Table? ==> f.rows == DumpOf(RowsAt(st.appended, f.of)))
  }

  /** A claimed log and its target are the same lines. */
  ghost predicate ClaimOk(files: map<Name, File>, n: Name)
    requires n in files
  {
    n.Dumping? && DayFile(n.day, n.seg) in files ==> files[DayFile(n.day, n.seg)].of == files[n].of
  }

  /** A month file holds the lines of every day file still beside it, and no
      line of the month is left elsewhere. */
  ghost predicate MonthOk(cal: Calendar, st: State, n: Name)
    requires n in st.files
  {
    !n.MonthFile? ==> MonthFile(cal.monthOf(n.day)) in st.files ==>
      && n.DayFile?
      && forall i :: i in st.files[n].of ==> i in st.files[MonthFile(cal.monthOf(n.day))].of
  }

  ghost predicate Inv(cal: Calendar, late: nat, st: State) {
    && ExactlyOnce(cal, st)
    && (forall n :: n in st.files ==> FileOk(cal, st, n, st.files[n]))
    && (forall n :: n in st.files ==> ClaimOk(st.files, n))
    && (forall n :: n in st.files ==> MonthOk(cal, st, n))
    && (forall n :: n in st.files && n.MonthFile? ==> Final(cal, late, st.today, n.month))
  }

  // ----- the steps

  function Rename(files: map<Name, File>, src: Name, dst: Name): map<Name, File>
    requires src in files
  {
    (files - {src})[dst := files[src]]
  }

  /** The day files and segments of month, and in what order a merge reads them. */
  predicate DaysOf(cal: Calendar, files: map<Name, File>, month: int, days: seq<Name>) {
    && (forall k :: 0 <= k < |days| ==> days[k] in files && days[k].DayFile? && cal.monthOf(days[k].day) == month)
    && (forall j, k :: 0 <= j < k < |days| ==>
          days[j].day < days[k].day || (days[j].day == days[k].day && days[j].seg < days[k].seg))
    && (forall n :: n in files && n.DayFile? && cal.monthOf(n.day) == month ==> n in days)
  }

  function OfAll(files: map<Name, File>, days: seq<Name>): seq<nat>
    requires forall k :: 0 <= k < |days| ==> days[k] in files
  {
    if days == [] then [] else files[days[0]].of + OfAll(files, days[1..])
  }

  function TablesOf(files: map<Name, File>, days: seq<Name>): seq<seq<Row>>
    requires forall k :: 0 <= k < |days| ==> days[k] in files && files[days[k]].Table?
  {
    seq(|days|, k requires 0 <= k < |days| => files[days[k]].rows)
  }

  /** The month file a merge of days writes: with the month file a crashed merge
      left, if there is one, first. */
  function Merged(files: map<Name, File>, month: int, days: seq<Name>): File
    requires forall k :: 0 <= k < |days| ==> days[k] in files && files[days[k]].Table?
    requires MonthFile(month) in files ==> files[MonthFile(month)].Table?
  {
    var m := MonthFile(month);
    if m in files then Table(files[m].of, MergeOf([files[m].rows] + TablesOf(files, days)))
    else Table(OfAll(files, days), MergeOf(TablesOf(files, days)))
  }

  /** n is the first free <day>.<n>.closed. */
  predicate IsFirstFree(files: map<Name, File>, day: int, n: nat) {
    1 <= n && Closed(day, n) !in files && forall k :: 1 <= k < n ==> Closed(day, k) in files
  }

  predicate IsTarget(files: map<Name, File>, day: int, seg: nat) {
    DayFile(day, seg) in files || Dumping(day, seg) in files
  }

  /** The day's target seg is free, and none before it. */
  predicate IsFirstTarget(files: map<Name, File>, day: int, seg: nat) {
    !IsTarget(files, day, seg) && forall k :: 0 <= k < seg ==> IsTarget(files, day, k)
  }

  datatype Step =
    | Append(day: int, rows: seq<Row>)      // whole lines, at the end of the day's log
    | Tear(day: int)                        // a torn line left at its end: a failed cut-back, a crash
    | CutLog(day: int)                      // cut back to its last newline, by open or OpenLog
    | Rotate(day: int, n: nat)              // <day>.log becomes <day>.<n>.closed
    | CutClosed(day: int, n: nat)
    | DropEmpty(day: int, n: nat)           // a closed log without a line is removed
    | Claim(day: int, n: nat, seg: nat)     // a closed log becomes <target>.dumping
    | WriteTarget(day: int, seg: nat)       // a claimed log's dump is put in place
    | DropClaimed(day: int, seg: nat)       // and the log deleted
    | WriteMonth(month: int, days: seq<Name>)
    | DropMerged(day: int, seg: nat)        // a day file of a merged month is deleted
    | NextDay

  /** When the step can be taken: what the code looks at before it, and, for an
      append, the late window. */
  predicate Enabled(cal: Calendar, late: nat, st: State, s: Step) {
    match s
    case Append(d, rows) =>
      !Final(cal, late, st.today, cal.monthOf(d)) && (LogName(d) in st.files ==> st.files[LogName(d)].Log? && !st.files[LogName(d)].torn)
    case Tear(d) => LogName(d) in st.files && st.files[LogName(d)].Log?
    case CutLog(d) => LogName(d) in st.files && st.files[LogName(d)].Log?
    case Rotate(d, n) => d < st.today && LogName(d) in st.files && IsFirstFree(st.files, d, n)
    case CutClosed(d, n) => Closed(d, n) in st.files && st.files[Closed(d, n)].Log?
    case DropEmpty(d, n) => Closed(d, n) in st.files && st.files[Closed(d, n)] == Log([], false)
    case Claim(d, n, seg) =>
      Closed(d, n) in st.files && st.files[Closed(d, n)].Log? && !st.files[Closed(d, n)].torn &&
      IsFirstTarget(st.files, d, seg)
    case WriteTarget(d, seg) =>
      Dumping(d, seg) in st.files && DayFile(d, seg) !in st.files &&
      forall k :: 0 <= k < |st.files[Dumping(d, seg)].of| ==> st.files[Dumping(d, seg)].of[k] < |st.appended|
    case DropClaimed(d, seg) => Dumping(d, seg) in st.files && DayFile(d, seg) in st.files
    case WriteMonth(m, days) =>
      Final(cal, late, st.today, m) && days != [] && DaysOf(cal, st.files, m, days) &&
      (forall n :: n in st.files && IsOpen(n) ==> cal.monthOf(n.day) != m) &&
      (forall k :: 0 <= k < |days| ==> st.files[days[k]].Table?) &&
      (MonthFile(m) in st.files ==> st.files[MonthFile(m)].Table?)
    case DropMerged(d, seg) => DayFile(d, seg) in st.files && MonthFile(cal.monthOf(d)) in st.files
    case NextDay => true
  }

  /** The state after the step. */
  function After(cal: Calendar, late: nat, st: State, s: Step): State
    requires Enabled(cal, late, st, s)
  {
    match s
    case Append(d, rows) =>
      var was := if LogName(d) in st.files then st.files[LogName(d)].of else [];
      var more := seq(|rows|, k requires 0 <= k < |rows| => |st.appended| + k);
      st.(files := st.files[LogName(d) := Log(was + more, false)],
          appended := st.appended + seq(|rows|, k requires 0 <= k < |rows| => Entry(rows[k], d)))
    case Tear(d) => st.(files := st.files[LogName(d) := Log(st.files[LogName(d)].of, true)])
    case CutLog(d) => st.(files := st.files[LogName(d) := Log(st.files[LogName(d)].of, false)])
    case Rotate(d, n) => st.(files := Rename(st.files, LogName(d), Closed(d, n)))
    case CutClosed(d, n) => st.(files := st.files[Closed(d, n) := Log(st.files[Closed(d, n)].of, false)])
    case DropEmpty(d, n) => st.(files := st.files - {Closed(d, n)})
    case Claim(d, n, seg) => st.(files := Rename(st.files, Closed(d, n), Dumping(d, seg)))
    case WriteTarget(d, seg) =>
      var of := st.files[Dumping(d, seg)].of;
      st.(files := st.files[DayFile(d, seg) := Table(of, DumpOf(RowsAt(st.appended, of)))])
    case DropClaimed(d, seg) => st.(files := st.files - {Dumping(d, seg)})
    case WriteMonth(m, days) => st.(files := st.files[MonthFile(m) := Merged(st.files, m, days)])
    case DropMerged(d, seg) => st.(files := st.files - {DayFile(d, seg)})
    case NextDay => st.(today := st.today + 1)
  }

  // ----- every step keeps the invariant

  /** A step that hands line i from each listed holder to another keeps it held once. */
  lemma {:induction false} Moved(cal: Calendar, a: map<Name, File>, b: map<Name, File>, g: Name -> Name, i: nat)
    requires HeldOnce(cal, a, i)
    requires forall n :: Holds(cal, a, n, i) ==> Holds(cal, b, g(n), i)
    requires forall n :: Holds(cal, b, n, i) ==> exists m :: Holds(cal, a, m, i) && g(m) == n
    ensures HeldOnce(cal, b, i)
  {
    var n :| Holds(cal, a, n, i);
    assert Holds(cal, b, g(n), i);
  }

  /** A rename to a free name of the same kind of listing. */
  lemma {:induction false} RenameKeepsHeld(cal: Calendar, files: map<Name, File>, src: Name, dst: Name, i: nat)
    requires src in files && dst !in files && src != dst
    requires src.LogName? || src.Closed?
    requires dst.Closed? || (dst.Dumping? && DayFile(dst.day, dst.seg) !in files)
    requires HeldOnce(cal, files, i)
    ensures HeldOnce(cal, Rename(files, src, dst), i)
  {
    var b := Rename(files, src, dst);
    var g := (n: Name) => if n == src then dst else n;
    forall n | Holds(cal, files, n, i)
      ensures Holds(cal, b, g(n), i)
    {
      assert n != dst;
    }
    forall n | Holds(cal, b, n, i)
      ensures exists m :: Holds(cal, files, m, i) && g(m) == n
    {
      if n == dst {
        assert Holds(cal, files, src, i) && g(src) == n;
      } else {
        assert Holds(cal, files, n, i) && g(n) == n;
      }
    }
    Moved(cal, files, b, g, i);
  }

  lemma {:induction false} RenameKeepsInv(cal: Calendar, late: nat, st: State, src: Name, dst: Name)
    requires Inv(cal, late, st)
    requires src in st.files && dst !in st.files
    requires src.LogName? || src.Closed?
    requires dst.Closed? || dst.Dumping?
    requires dst.day == src.day
    requires dst.Dumping? ==> DayFile(dst.day, dst.seg) !in st.files && st.files[src].Log? && !st.files[src].torn
    ensures Inv(cal, late, st.(files := Rename(st.files, src, dst)))
  {
    var st' := st.(files := Rename(st.files, src, dst));
    forall i: nat | i < |st.appended|
      ensures HeldOnce(cal, st'.files, i)
    {
      assert HeldOnce(cal, st.files, i);
      RenameKeepsHeld(cal, st.files, src, dst, i);
    }
    assert FileOk(cal, st, src, st.files[src]);
    assert MonthOk(cal, st, src);
    forall n | n in st'.files
      ensures FileOk(cal, st', n, st'.files[n]) && ClaimOk(st'.files, n) && MonthOk(cal, st', n)
    {
      if n != dst {
        assert FileOk(cal, st, n, st.files[n]) && ClaimOk(st.files, n) && MonthOk(cal, st, n);
      }
    }
  }

  /** A log cut back or torn holds the lines it held. */
  lemma {:induction false} TornKeepsInv(cal: Calendar, late: nat, st: State, n: Name, torn: bool)
    requires Inv(cal, late, st) && n in st.files && (n.LogName? || n.Closed?)
    ensures Inv(cal, late, st.(files := st.files[n := Log(st.files[n].of, torn)]))
  {
    var st' := st.(files := st.files[n := Log(st.files[n].of, torn)]);
    forall i: nat | i < |st.appended|
      ensures HeldOnce(cal, st'.files, i)
    {
      assert HeldOnce(cal, st.files, i);
      assert forall m :: Holds(cal, st'.files, m, i) <==> Holds(cal, st.files, m, i);
      Moved(cal, st.files, st'.files, m => m, i);
    }
    forall m | m in st'.files
      ensures FileOk(cal, st', m, st'.files[m]) && ClaimOk(st'.files, m) && MonthOk(cal, st', m)
    {
      assert FileOk(cal, st, m, st.files[m]) && ClaimOk(st.files, m) && MonthOk(cal, st, m);
    }
  }

  /** Deleting a file a reader does not list, or one without a line. */
  lemma {:induction false} DropKeepsInv(cal: Calendar, late: nat, st: State, n: Name)
    requires Inv(cal, late, st) && n in st.files && !n.MonthFile?
    requires n.DayFile? ==> MonthFile(cal.monthOf(n.day)) in st.files
    requires n.LogName? || n.Closed? ==> st.files[n].of == []
    requires n.Dumping? ==> DayFile(n.day, n.seg) in st.files
    ensures Inv(cal, late, st.(files := st.files - {n}))
  {
    var st' := st.(files := st.files - {n});
    forall i: nat | i < |st.appended|
      ensures HeldOnce(cal, st'.files, i)
    {
      assert HeldOnce(cal, st.files, i);
      forall m
        ensures Holds(cal, st'.files, m, i) <==> Holds(cal, st.files, m, i)
      {
        assert m in st.files ==> MonthOk(cal, st, m);
      }
      Moved(cal, st.files, st'.files, m => m, i);
    }
    forall m | m in st'.files
      ensures FileOk(cal, st', m, st'.files[m]) && ClaimOk(st'.files, m) && MonthOk(cal, st', m)
    {
      assert FileOk(cal, st, m, st.files[m]) && ClaimOk(st.files, m) && MonthOk(cal, st, m);
    }
  }

  lemma {:induction false} RowsAtMore(a: seq<Entry>, b: seq<Entry>, of: seq<nat>)
    requires forall k :: 0 <= k < |of| ==> of[k] < |a|
    ensures RowsAt(a + b, of) == RowsAt(a, of)
  {
  }

  /** A line appended is in the day's log; a line that was there is where it was. */
  lemma {:induction false} AppendHolds(cal: Calendar, late: nat, st: State, d: int, rows: seq<Row>, i: nat)
    requires Inv(cal, late, st) && Enabled(cal, late, st, Append(d, rows)) && i < |st.appended| + |rows|
    ensures HeldOnce(cal, After(cal, late, st, Append(d, rows)).files, i)
  {
    var st' := After(cal, late, st, Append(d, rows));
    var n := LogName(d);
    var was := if n in st.files then st.files[n].of else [];
    var of := st'.files[n].of;
    var k0 := |st.appended|;
    if n in st.files { assert FileOk(cal, st, n, st.files[n]); }
    assert forall k :: 0 <= k < |of| ==> (k < |was| ==> of[k] == was[k]) && (k >= |was| ==> of[k] == k0 + (k - |was|));
    if i < k0 {
      assert HeldOnce(cal, st.files, i);
      forall m
        ensures Holds(cal, st'.files, m, i) <==> Holds(cal, st.files, m, i)
      {
        if m == n {
          assert i in of <==> i in was;
        }
      }
      Moved(cal, st.files, st'.files, m => m, i);
    } else {
      assert of[|was| + (i - k0)] == i;
      assert Holds(cal, st'.files, n, i);
      forall m | Holds(cal, st'.files, m, i)
        ensures m == n
      {
        assert m in st.files ==> FileOk(cal, st, m, st.files[m]);
      }
    }
  }

  lemma {:induction false} AppendKeepsInv(cal: Calendar, late: nat, st: State, d: int, rows: seq<Row>)
    requires Inv(cal, late, st) && Enabled(cal, late, st, Append(d, rows))
    ensures Inv(cal, late, After(cal, late, st, Append(d, rows)))
  {
    var st' := After(cal, late, st, Append(d, rows));
    var entries := seq(|rows|, k requires 0 <= k < |rows| => Entry(rows[k], d));
    assert MonthFile(cal.monthOf(d)) !in st.files;
    forall i: nat | i < |st'.appended|
      ensures HeldOnce(cal, st'.files, i)
    {
      AppendHolds(cal, late, st, d, rows, i);
    }
    forall m | m in st'.files
      ensures FileOk(cal, st', m, st'.files[m]) && ClaimOk(st'.files, m) && MonthOk(cal, st', m)
      ensures NoRepeats(st'.files[m].of)
    {
      if m in st.files {
        assert FileOk(cal, st, m, st.files[m]) && ClaimOk(st.files, m) && MonthOk(cal, st, m);
        assert NoRepeats(st.files[m].of);
        if st.files[m].Table? { RowsAtMore(st.appended, entries, st.files[m].of); }
      }
    }
  }

  lemma {:induction false} WriteTargetKeepsInv(cal: Calendar, late: nat, st: State, d: int, seg: nat)
    requires Inv(cal, late, st) && Enabled(cal, late, st, WriteTarget(d, seg))
    ensures Inv(cal, late, After(cal, late, st, WriteTarget(d, seg)))
  {
    var st' := After(cal, late, st, WriteTarget(d, seg));
    var src, dst := Dumping(d, seg), DayFile(d, seg);
    assert MonthOk(cal, st, src) && FileOk(cal, st, src, st.files[src]);
    var g := (n: Name) => if n == src then dst else n;
    forall i: nat | i < |st.appended|
      ensures HeldOnce(cal, st'.files, i)
    {
      assert HeldOnce(cal, st.files, i);
      forall n | Holds(cal, st'.files, n, i)
        ensures exists m :: Holds(cal, st.files, m, i) && g(m) == n
      {
        if n == dst {
          assert Holds(cal, st.files, src, i) && g(src) == n;
        } else {
          assert Holds(cal, st.files, n, i) && g(n) == n;
        }
      }
      Moved(cal, st.files, st'.files, g, i);
    }
    forall m | m in st'.files
      ensures FileOk(cal, st', m, st'.files[m]) && ClaimOk(st'.files, m) && MonthOk(cal, st', m)
      ensures NoRepeats(st'.files[m].of)
    {
      if m != dst {
        assert FileOk(cal, st, m, st.files[m]) && ClaimOk(st.files, m) && MonthOk(cal, st, m);
      }
      assert NoRepeats(st.files[src].of);
    }
  }

  // ----- the merge

  ghost predicate TableOk(appended: seq<Entry>, f: File) {
    && f.Table?
    && (forall j :: 0 <= j < |f.of| ==> f.of[j] < |appended|)
    && f.rows == DumpOf(RowsAt(appended, f.of))
  }

  /** The file's rows are the first of each id among its lines, by family and ts. */
  ghost predicate HoldsFirsts(appended: seq<Entry>, f: File) {
    && f.Table?
    && (forall j :: 0 <= j < |f.of| ==> f.of[j] < |appended|)
    && InFileOrder(f.rows)
    && exists rows, at ::
         |rows| == |f.of| && (forall k :: 0 <= k < |rows| ==> rows[k] == appended[f.of[k]].row) && AreFirsts(rows, f.rows, at)
  }

  lemma {:induction false} TableHoldsFirsts(appended: seq<Entry>, f: File)
    requires TableOk(appended, f)
    ensures HoldsFirsts(appended, f)
  {
    var rows := seq(|f.of|, k requires 0 <= k < |f.of| => appended[f.of[k]].row);
    assert RowsAt(appended, f.of) == rows;
    DumpIsFirsts(rows);
  }

  ghost predicate TablesOk(appended: seq<Entry>, files: map<Name, File>, days: seq<Name>) {
    forall k :: 0 <= k < |days| ==> days[k] in files && TableOk(appended, files[days[k]])
  }

  lemma {:induction false} TablesOkTail(appended: seq<Entry>, files: map<Name, File>, days: seq<Name>)
    requires TablesOk(appended, files, days) && days != []
    ensures TablesOk(appended, files, days[1..])
  {
    assert forall k :: 0 <= k < |days[1..]| ==> days[1..][k] == days[k + 1];
  }

  function LogsOf(appended: seq<Entry>, files: map<Name, File>, days: seq<Name>): seq<seq<Row>>
    requires TablesOk(appended, files, days)
  {
    seq(|days|, k requires 0 <= k < |days| => RowsAt(appended, files[days[k]].of))
  }

  /** The lines of the days, in order, are the days' lines one after another. */
  lemma {:induction false} OfAllRows(appended: seq<Entry>, files: map<Name, File>, days: seq<Name>)
    requires TablesOk(appended, files, days)
    ensures forall k :: 0 <= k < |OfAll(files, days)| ==> OfAll(files, days)[k] < |appended|
    ensures RowsAt(appended, OfAll(files, days)) == Concat(LogsOf(appended, files, days))
  {
    if days != [] {
      TablesOkTail(appended, files, days);
      OfAllRows(appended, files, days[1..]);
      assert LogsOf(appended, files, days)[1..] == LogsOf(appended, files, days[1..]);
    }
  }

  lemma {:induction false} OfAllMember(files: map<Name, File>, days: seq<Name>, i: nat)
    requires forall k :: 0 <= k < |days| ==> days[k] in files
    ensures i in OfAll(files, days) <==> exists n :: n in days && i in files[n].of
  {
    if days != [] {
      assert days == [days[0]] + days[1..];
      OfAllMember(files, days[1..], i);
    }
  }

  lemma {:induction false} OfAllNoRepeats(files: map<Name, File>, days: seq<Name>)
    requires forall k :: 0 <= k < |days| ==> days[k] in files && NoRepeats(files[days[k]].of)
    requires forall j, k :: 0 <= j < k < |days| ==> forall i :: i in files[days[j]].of ==> i !in files[days[k]].of
    ensures NoRepeats(OfAll(files, days))
  {
    if days != [] {
      var rest := days[1..];
      assert forall k :: 0 <= k < |rest| ==> rest[k] == days[k + 1];
      OfAllNoRepeats(files, rest);
      var a, b := files[days[0]].of, OfAll(files, rest);
      forall j, k | 0 <= j < k < |a + b|
        ensures (a + b)[j] != (a + b)[k]
      {
        if j < |a| <= k {
          OfAllMember(files, rest, b[k - |a|]);
          assert b[k - |a|] in b;
          var n :| n in rest && b[k - |a|] in files[n].of;
          var m :| 0 <= m < |rest| && rest[m] == n;
          assert a[j] in a;
        }
      }
    }
  }

  /** The first merge of a month writes the dump of all its lines. */
  lemma {:induction false} FirstMerge(st: State, days: seq<Name>)
    requires TablesOk(st.appended, st.files, days)
    ensures forall k :: 0 <= k < |OfAll(st.files, days)| ==> OfAll(st.files, days)[k] < |st.appended|
    ensures MergeOf(TablesOf(st.files, days)) == DumpOf(RowsAt(st.appended, OfAll(st.files, days)))
  {
    OfAllRows(st.appended, st.files, days);
    var logs := LogsOf(st.appended, st.files, days);
    assert TablesOf(st.files, days) == DumpsOf(logs);
    MergeOfDumps(logs);
  }

  lemma {:induction false} IdsOfRowsAt(appended: seq<Entry>, a: seq<nat>, b: seq<nat>)
    requires forall k :: 0 <= k < |a| ==> a[k] < |appended|
    requires forall k :: 0 <= k < |b| ==> b[k] < |appended|
    requires forall i :: i in a ==> i in b
    ensures Ids(RowsAt(appended, a)) <= Ids(RowsAt(appended, b))
  {
    forall x | x in Ids(RowsAt(appended, a))
      ensures x in Ids(RowsAt(appended, b))
    {
      var r :| r in RowsAt(appended, a) && r.id == x;
      var k :| 0 <= k < |a| && appended[a[k]].row == r;
      assert a[k] in a;
      var j :| 0 <= j < |b| && b[j] == a[k];
      assert RowsAt(appended, b)[j] == r;
    }
  }

  /** Merging a month again, with any of its days still there, writes it as it was. */
  lemma {:induction false} SecondMerge(cal: Calendar, late: nat, st: State, m: int, days: seq<Name>)
    requires Inv(cal, late, st) && MonthFile(m) in st.files && DaysOf(cal, st.files, m, days)
    requires TablesOk(st.appended, st.files, days)
    ensures st.files[MonthFile(m)].Table?
    ensures Merged(st.files, m, days) == st.files[MonthFile(m)]
  {
    var f := st.files[MonthFile(m)];
    assert FileOk(cal, st, MonthFile(m), f);
    var rows := RowsAt(st.appended, f.of);
    DumpKeepsIds(rows);
    var tables := TablesOf(st.files, days);
    IdsOfConcat(tables);
    forall x | x in Ids(Concat(tables))
      ensures x in Ids(f.rows)
    {
      var k :| 0 <= k < |tables| && x in Ids(tables[k]);
      var of := st.files[days[k]].of;
      assert MonthOk(cal, st, days[k]);
      DumpKeepsIds(RowsAt(st.appended, of));
      IdsOfRowsAt(st.appended, of, f.of);
    }
    MergeAgain(f.rows, tables);
  }

  lemma {:induction false} DaysAreTables(cal: Calendar, late: nat, st: State, m: int, days: seq<Name>)
    requires Inv(cal, late, st) && DaysOf(cal, st.files, m, days)
    ensures TablesOk(st.appended, st.files, days)
  {
    forall k | 0 <= k < |days|
      ensures FileOk(cal, st, days[k], st.files[days[k]])
    {
    }
  }

  lemma {:induction false} MergedLines(cal: Calendar, late: nat, st: State, m: int, days: seq<Name>)
    requires Inv(cal, late, st) && DaysOf(cal, st.files, m, days) && MonthFile(m) !in st.files
    requires TablesOk(st.appended, st.files, days)
    ensures NoRepeats(OfAll(st.files, days))
    ensures forall i :: i in OfAll(st.files, days) ==> i < |st.appended| && cal.monthOf(st.appended[i].day) == m
  {
    forall j, k | 0 <= j < k < |days|
      ensures forall i :: i in st.files[days[j]].of ==> i !in st.files[days[k]].of
    {
      forall i | i in st.files[days[j]].of && i in st.files[days[k]].of
        ensures false
      {
        assert FileOk(cal, st, days[j], st.files[days[j]]);
        assert HeldOnce(cal, st.files, i);
        assert Holds(cal, st.files, days[j], i) && Holds(cal, st.files, days[k], i);
      }
    }
    OfAllNoRepeats(st.files, days);
    forall i | i in OfAll(st.files, days)
      ensures i < |st.appended| && cal.monthOf(st.appended[i].day) == m
    {
      OfAllMember(st.files, days, i);
      var n :| n in days && i in st.files[n].of;
      assert FileOk(cal, st, n, st.files[n]);
      assert TableOk(st.appended, st.files[n]);
      var k :| 0 <= k < |st.files[n].of| && st.files[n].of[k] == i;
    }
  }

  lemma {:induction false} WriteMonthKeepsInv(cal: Calendar, late: nat, st: State, m: int, days: seq<Name>)
    requires Inv(cal, late, st) && Enabled(cal, late, st, WriteMonth(m, days))
    ensures Inv(cal, late, After(cal, late, st, WriteMonth(m, days)))
  {
    var st' := After(cal, late, st, WriteMonth(m, days));
    var dst := MonthFile(m);
    DaysAreTables(cal, late, st, m, days);
    if dst in st.files {
      SecondMerge(cal, late, st, m, days);
      assert st'.files == st.files;
    } else {
      FirstMerge(st, days);
      MergedLines(cal, late, st, m, days);
      FirstMergeKeepsInv(cal, late, st, m, days, st');
    }
  }

  lemma {:induction false} FirstMergeKeepsInv(cal: Calendar, late: nat, st: State, m: int, days: seq<Name>, st': State)
    requires Inv(cal, late, st) && Enabled(cal, late, st, WriteMonth(m, days)) && MonthFile(m) !in st.files
    requires st' == After(cal, late, st, WriteMonth(m, days))
    requires FileOk(cal, st', MonthFile(m), st'.files[MonthFile(m)]) && NoRepeats(st'.files[MonthFile(m)].of)
    requires st'.files[MonthFile(m)].of == OfAll(st.files, days)
    ensures Inv(cal, late, st')
  {
    var dst := MonthFile(m);
    var g := (n: Name) => if n in days then dst else n;
    forall i: nat | i < |st.appended|
      ensures HeldOnce(cal, st'.files, i)
    {
      assert HeldOnce(cal, st.files, i);
      OfAllMember(st.files, days, i);
      forall n | Holds(cal, st.files, n, i)
        ensures Holds(cal, st'.files, g(n), i)
      {
        if n !in days && n.DayFile? {
          assert cal.monthOf(n.day) != m;
        }
      }
      forall n | Holds(cal, st'.files, n, i)
        ensures exists k :: Holds(cal, st.files, k, i) && g(k) == n
      {
        if n == dst {
          var k :| k in days && i in st.files[k].of;
          assert Holds(cal, st.files, k, i) && g(k) == n;
        } else {
          assert n !in days;
          assert Holds(cal, st.files, n, i) && g(n) == n;
        }
      }
      Moved(cal, st.files, st'.files, g, i);
    }
    forall n | n in st'.files
      ensures FileOk(cal, st', n, st'.files[n]) && ClaimOk(st'.files, n) && MonthOk(cal, st', n)
    {
      if n != dst {
        assert FileOk(cal, st, n, st.files[n]) && ClaimOk(st.files, n) && MonthOk(cal, st, n);
        if !n.MonthFile? && cal.monthOf(n.day) == m {
          forall i | i in st.files[n].of
            ensures i in st'.files[dst].of
          {
            OfAllMember(st.files, days, i);
          }
        }
      }
    }
  }

  // ----- runs

  /** Every step keeps the invariant. */
  lemma {:induction false} StepKeepsInv(cal: Calendar, late: nat, st: State, s: Step)
    requires Inv(cal, late, st) && Enabled(cal, late, st, s)
    ensures Inv(cal, late, After(cal, late, st, s))
  {
    match s
    case Append(d, rows) => AppendKeepsInv(cal, late, st, d, rows);
    case Tear(d) => TornKeepsInv(cal, late, st, LogName(d), true);
    case CutLog(d) => TornKeepsInv(cal, late, st, LogName(d), false);
    case Rotate(d, n) => RenameKeepsInv(cal, late, st, LogName(d), Closed(d, n));
    case CutClosed(d, n) => TornKeepsInv(cal, late, st, Closed(d, n), false);
    case DropEmpty(d, n) => DropKeepsInv(cal, late, st, Closed(d, n));
    case Claim(d, n, seg) => RenameKeepsInv(cal, late, st, Closed(d, n), Dumping(d, seg));
    case WriteTarget(d, seg) => WriteTargetKeepsInv(cal, late, st, d, seg);
    case DropClaimed(d, seg) => DropKeepsInv(cal, late, st, Dumping(d, seg));
    case WriteMonth(m, days) => WriteMonthKeepsInv(cal, late, st, m, days);
    case DropMerged(d, seg) => DropKeepsInv(cal, late, st, DayFile(d, seg));
    case NextDay =>
      forall n | n in st.files
        ensures FileOk(cal, After(cal, late, st, s), n, st.files[n]) && MonthOk(cal, After(cal, late, st, s), n)
      {
        assert FileOk(cal, st, n, st.files[n]) && MonthOk(cal, st, n);
      }
  }

  ghost predicate CanStep(cal: Calendar, late: nat, a: State, b: State) {
    exists s :: Enabled(cal, late, a, s) && b == After(cal, late, a, s)
  }

  /** States one file operation, one append or one midnight apart; where the
      process crashes and starts over, the next step is simply another's. */
  ghost predicate IsRun(cal: Calendar, late: nat, run: seq<State>) {
    forall i :: 0 < i < |run| ==> CanStep(cal, late, run[i - 1], run[i])
  }

  lemma {:induction false} EmptyOk(cal: Calendar, late: nat, today: int)
    ensures Inv(cal, late, State(map[], [], today))
  {
  }

  lemma {:induction false} RunKeepsInv(cal: Calendar, late: nat, run: seq<State>, i: nat)
    requires IsRun(cal, late, run) && i < |run| && Inv(cal, late, run[0])
    ensures Inv(cal, late, run[i])
  {
    if i > 0 {
      RunKeepsInv(cal, late, run, i - 1);
      assert CanStep(cal, late, run[i - 1], run[i]);
      var s :| Enabled(cal, late, run[i - 1], s) && run[i] == After(cal, late, run[i - 1], s);
      StepKeepsInv(cal, late, run[i - 1], s);
    }
  }

  /** In every state of every run, each line appended so far is in exactly one
      file a reader lists, and each Parquet file holds the dump of its lines. */
  lemma {:induction false} EveryLineOnce(cal: Calendar, late: nat, run: seq<State>, i: nat)
    requires IsRun(cal, late, run) && i < |run| && run[0].files == map[] && run[0].appended == []
    ensures ExactlyOnce(cal, run[i])
    ensures forall n :: n in run[i].files && run[i].files[n].Table? ==>
              TableOk(run[i].appended, run[i].files[n]) && HoldsFirsts(run[i].appended, run[i].files[n])
    ensures forall n :: n in run[i].files && n.Dumping? ==> run[i].files[n].Log? && !run[i].files[n].torn
  {
    EmptyOk(cal, late, run[0].today);
    RunKeepsInv(cal, late, run, i);
    forall n | n in run[i].files
      ensures FileOk(cal, run[i], n, run[i].files[n])
      ensures run[i].files[n].Table? ==> HoldsFirsts(run[i].appended, run[i].files[n])
    {
      if run[i].files[n].Table? { TableHoldsFirsts(run[i].appended, run[i].files[n]); }
    }
  }
}
