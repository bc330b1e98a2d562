/** A run in which a day's logs are claimed out of order: the claim of the older
    of two fails, the newer one's does not, and the next pass claims the older.
    Of a repeated id the month file then holds the line appended last. */
module LateClaim {
  import opened Rows
  import opened StableSort
  import opened FirstRows
  import opened Segments
  import opened Directory
  import opened AppendOrder

  const LATE := 1

  /** A day a month. */
  function Days(): Calendar {
    Calendar(d => d, m => m)
  }

  function Lines(r1: Row, r2: Row): seq<Entry> {
    [Entry(r1, 0), Entry(r2, 0)]
  }

  function OneLog(i: nat): File {
    Log([i], false)
  }

  function Appended(r1: Row, r2: Row): seq<State> {
    [ State(map[], [], 0),
      State(map[LogName(0) := OneLog(0)], [Entry(r1, 0)], 0),
      State(map[LogName(0) := OneLog(0)], [Entry(r1, 0)], 1),
      State(map[Closed(0, 1) := OneLog(0)], [Entry(r1, 0)], 1),
      State(map[Closed(0, 1) := OneLog(0), LogName(0) := OneLog(1)], Lines(r1, r2), 1),
      State(map[Closed(0, 1) := OneLog(0), Closed(0, 2) := OneLog(1)], Lines(r1, r2), 1)
    ]
  }

  function Appending(r1: Row, r2: Row): seq<Step> {
    [Append(0, [r1]), NextDay, Rotate(0, 1), Append(0, [r2]), Rotate(0, 2)]
  }

  function FirstFile(r1: Row): File {
    Table([0], [r1])
  }

  function SecondFile(r2: Row): File {
    Table([1], [r2])
  }

  function Dumped(r1: Row, r2: Row): seq<State> {
    [ State(map[Closed(0, 1) := OneLog(0), Closed(0, 2) := OneLog(1)], Lines(r1, r2), 1),
      State(map[Closed(0, 1) := OneLog(0), Dumping(0, 0) := OneLog(1)], Lines(r1, r2), 1),
      State(map[Dumping(0, 1) := OneLog(0), Dumping(0, 0) := OneLog(1)], Lines(r1, r2), 1),
      State(map[Dumping(0, 1) := OneLog(0), Dumping(0, 0) := OneLog(1), DayFile(0, 0) := SecondFile(r2)], Lines(r1, r2), 1),
      State(map[Dumping(0, 1) := OneLog(0), DayFile(0, 0) := SecondFile(r2)], Lines(r1, r2), 1),
      State(map[Dumping(0, 1) := OneLog(0), DayFile(0, 0) := SecondFile(r2), DayFile(0, 1) := FirstFile(r1)], Lines(r1, r2), 1),
      State(map[DayFile(0, 0) := SecondFile(r2), DayFile(0, 1) := FirstFile(r1)], Lines(r1, r2), 1),
      State(map[DayFile(0, 0) := SecondFile(r2), DayFile(0, 1) := FirstFile(r1)], Lines(r1, r2), 2),
      State(map[DayFile(0, 0) := SecondFile(r2), DayFile(0, 1) := FirstFile(r1), MonthFile(0) := Table([1, 0], [r2])], Lines(r1, r2), 2)
    ]
  }

  function Dumps(): seq<Step> {
    [ Claim(0, 2, 0), Claim(0, 1, 1), WriteTarget(0, 0), DropClaimed(0, 0), WriteTarget(0, 1), DropClaimed(0, 1), NextDay,
      WriteMonth(0, [DayFile(0, 0), DayFile(0, 1)])
    ]
  }

  /** The log of day 0 grown by its first line, or its second. */
  lemma {:induction false} AppendOne(st: State, r: Row, i: nat)
    requires LogName(0) !in st.files && st.today <= 1 && i == |st.appended|
    ensures Enabled(Days(), LATE, st, Append(0, [r]))
    ensures After(Days(), LATE, st, Append(0, [r])) == State(st.files[LogName(0) := OneLog(i)], st.appended + [Entry(r, 0)], st.today)
  {
    var b := After(Days(), LATE, st, Append(0, [r]));
    assert b.files[LogName(0)].of == [i];
    assert b.appended == st.appended + [Entry(r, 0)];
  }

  lemma {:induction false} AppendRuns(r1: Row, r2: Row)
    ensures IsRunOf(Days(), LATE, Appended(r1, r2), Appending(r1, r2))
  {
    var run, steps := Appended(r1, r2), Appending(r1, r2);
    AppendOne(run[0], r1, 0);
    AppendOne(run[3], r2, 1);
    forall i | 0 <= i < |steps|
      ensures Enabled(Days(), LATE, run[i], steps[i]) && run[i + 1] == After(Days(), LATE, run[i], steps[i])
    {
      if i == 0 {
        assert [] + [Entry(r1, 0)] == [Entry(r1, 0)];
      } else if i == 2 {
        assert Rename(run[2].files, LogName(0), Closed(0, 1)) == run[3].files;
      } else if i == 3 {
        assert [Entry(r1, 0)] + [Entry(r2, 0)] == Lines(r1, r2);
      } else if i == 4 {
        assert Rename(run[4].files, LogName(0), Closed(0, 2)) == run[5].files;
      }
    }
  }

  lemma {:induction false} OneRow(r: Row)
    ensures First({}, [r]) == [r] && DumpOf([r]) == [r]
  {
    assert First({}, [r]) == [r] + First({} + {r.id}, [r][1..]);
    SortOfSorted([r]);
  }

  lemma {:induction false} TwoRows(r1: Row, r2: Row)
    requires r1.id == r2.id
    ensures DumpOf([r1, r2]) == [r1]
  {
    OneRow(r1);
    var rest := [r1, r2][1..];
    assert rest == [r2] && rest[1..] == [];
    assert First({} + {r1.id}, rest) == First({} + {r1.id}, rest[1..]) == [];
    assert First({}, [r1, r2]) == [r1] + First({} + {r1.id}, rest);
  }

  lemma {:induction false} ClaimsRun(r1: Row, r2: Row)
    ensures IsRunOf(Days(), LATE, Dumped(r1, r2)[..3], Dumps()[..2])
  {
    var run, steps := Dumped(r1, r2), Dumps();
    assert IsTarget(run[1].files, 0, 0);
    assert After(Days(), LATE, run[0], steps[0]) == run[1];
    assert After(Days(), LATE, run[1], steps[1]) == run[2];
  }

  /** A claimed log of one line dumped, and deleted. */
  lemma {:induction false} DumpOne(st: State, seg: nat, i: nat, r: Row)
    requires Dumping(0, seg) in st.files && st.files[Dumping(0, seg)] == OneLog(i) && DayFile(0, seg) !in st.files
    requires i < |st.appended| && st.appended[i].row == r
    ensures Enabled(Days(), LATE, st, WriteTarget(0, seg))
    ensures After(Days(), LATE, st, WriteTarget(0, seg)) == st.(files := st.files[DayFile(0, seg) := Table([i], [r])])
  {
    OneRow(r);
    assert RowsAt(st.appended, [i]) == [r];
  }

  lemma {:induction false} DumpsRun(r1: Row, r2: Row, i: nat)
    requires 2 <= i < 7
    ensures Enabled(Days(), LATE, Dumped(r1, r2)[i], Dumps()[i])
    ensures After(Days(), LATE, Dumped(r1, r2)[i], Dumps()[i]) == Dumped(r1, r2)[i + 1]
  {
    var run := Dumped(r1, r2);
    if i == 2 {
      DumpOne(run[2], 0, 1, r2);
    } else if i == 4 {
      DumpOne(run[4], 1, 0, r1);
    } else if i == 3 {
      assert run[3].files - {Dumping(0, 0)} == run[4].files;
    } else if i == 5 {
      assert run[5].files - {Dumping(0, 1)} == run[6].files;
    }
  }

  lemma {:induction false} MonthRows(r1: Row, r2: Row)
    requires r1.id == r2.id
    ensures MergeOf([[r2], [r1]]) == [r2]
  {
    var tables := [[r2], [r1]];
    assert tables[1..] == [[r1]] && [[r1]][1..] == [];
    assert Concat([[r1]]) == [r1] + Concat([[r1]][1..]);
    assert Concat(tables) == [r2, r1];
    TwoRows(r2, r1);
  }

  lemma {:induction false} MonthOf(r1: Row, r2: Row, files: map<Name, File>)
    requires r1.id == r2.id
    requires files == map[DayFile(0, 0) := SecondFile(r2), DayFile(0, 1) := FirstFile(r1)]
    ensures Merged(files, 0, [DayFile(0, 0), DayFile(0, 1)]) == Table([1, 0], [r2])
  {
    var days := [DayFile(0, 0), DayFile(0, 1)];
    assert days[1..] == [DayFile(0, 1)] && days[1..][1..] == [];
    assert OfAll(files, days) == [1] + OfAll(files, days[1..]);
    assert OfAll(files, days[1..]) == [0] + OfAll(files, days[1..][1..]);
    assert TablesOf(files, days) == [[r2], [r1]];
    MonthRows(r1, r2);
  }

  lemma {:induction false} MergeRuns(r1: Row, r2: Row)
    requires r1.id == r2.id
    ensures Enabled(Days(), LATE, Dumped(r1, r2)[7], Dumps()[7])
    ensures After(Days(), LATE, Dumped(r1, r2)[7], Dumps()[7]) == Dumped(r1, r2)[8]
  {
    var st := Dumped(r1, r2)[7];
    MonthOf(r1, r2, st.files);
    assert DaysOf(Days(), st.files, 0, [DayFile(0, 0), DayFile(0, 1)]);
  }

  /** The run: r1 is appended, then r2 of the same id, and the month file keeps r2
      where one dump of both lines keeps r1. */
  lemma {:induction false} LaterLineKept(r1: Row, r2: Row) returns (run: seq<State>, steps: seq<Step>)
    requires r1.id == r2.id && r1 != r2
    ensures IsRunOf(Days(), LATE, run, steps) && run[0] == State(map[], [], 0)
    ensures run[|steps|].appended == Lines(r1, r2)
    ensures MonthFile(0) in run[|steps|].files && run[|steps|].files[MonthFile(0)] == Table([1, 0], [r2])
    ensures DumpOf([r1, r2]) == [r1]
    ensures !InAppendOrder(Days(), run[|steps|], 0)
  {
    var a, b := Appended(r1, r2), Dumped(r1, r2);
    run, steps := a + b[1..], Appending(r1, r2) + Dumps();
    AppendRuns(r1, r2);
    ClaimsRun(r1, r2);
    MergeRuns(r1, r2);
    TwoRows(r1, r2);
    forall i | 0 <= i < |steps|
      ensures Enabled(Days(), LATE, run[i], steps[i]) && run[i + 1] == After(Days(), LATE, run[i], steps[i])
    {
      if i < 5 {
        assert run[i] == a[i] && run[i + 1] == a[i + 1];
      } else {
        assert run[i] == b[i - 5] && run[i + 1] == b[i - 4] && steps[i] == Dumps()[i - 5];
        if i < 7 {
          assert b[..3][i - 5] == b[i - 5] && b[..3][i - 4] == b[i - 4] && Dumps()[..2][i - 5] == steps[i];
        } else if i < 12 {
          DumpsRun(r1, r2, i - 5);
        }
      }
    }
    var of := run[13].files[MonthFile(0)].of;
    assert of[0] == 1 && of[1] == 0;
    assert IsOfDay(run[13].appended, 1, 0) && IsOfDay(run[13].appended, 0, 0);
  }
}
