/** A run in which one request's check begins twice: the write of its end failed. */
module LostEnd {
  import opened Rows
  import opened Scheduler

  const ASKED := map[1 := Request(Some(0), None)]
  const ONCE := map[(1, 0) := 1]
  const TWICE := map[(1, 0) := 2]

  function Marked(t: Tick, tokens: nat, p: Phase, lost: map<(Monitor, int), nat>): State {
    State(ASKED, {}, {1}, tokens, t, map[0 := ManualCheck(1, 0, p)], ONCE, lost)
  }

  function Begin(): seq<State> {
    [ FIRST,
      State(ASKED, {}, {}, 0, Idle, map[], map[], map[]),
      State(ASKED, {}, {}, 0, Took({}), map[], map[], map[]),
      State(ASKED, {}, {}, 0, Listed({}, ASKED, {1}), map[], map[], map[]),
      Marked(Listed({}, ASKED, {}), 0, Waiting, map[]),
      Marked(Idle, 0, Waiting, map[]),
      Marked(Idle, 1, Checking, map[]),
      Marked(Idle, 0, Reading, map[])
    ]
  }

  function BeginSteps(): seq<Step> {
    [Ask(1, 0), TakeBusy, List({1}), StartManual(1, 0), EndTick, Acquire(0), Release(0)]
  }

  function Again(): seq<State> {
    [ Marked(Idle, 0, Reading, map[]),
      Marked(Idle, 0, Recorded, ONCE),
      State(ASKED, {}, {}, 0, Idle, map[], ONCE, ONCE),
      State(ASKED, {}, {}, 0, Took({}), map[], ONCE, ONCE),
      State(ASKED, {}, {}, 0, Listed({}, ASKED, {1}), map[], ONCE, ONCE),
      State(ASKED, {}, {1}, 0, Listed({}, ASKED, {}), map[1 := ManualCheck(1, 0, Waiting)], TWICE, ONCE)
    ]
  }

  function AgainSteps(): seq<Step> {
    [RecordFails(0), ManualDone(0), TakeBusy, List({1}), StartManual(1, 1)]
  }

  lemma {:induction false} IsAsked()
    ensures Enabled(Begin()[0], Ask(1, 0)) && Begin()[1] == After(Begin()[0], Ask(1, 0))
  {
  }

  lemma {:induction false} IsListed(st: State)
    requires st.store == ASKED && st.tick == Took({})
    ensures Enabled(st, List({1})) && After(st, List({1})) == st.(tick := Listed({}, ASKED, {1}))
  {
    assert After(st, List({1})).tick.list == ASKED;
  }

  lemma {:induction false} IsBegun(st: State, n: nat)
    requires st.tick == Listed({}, ASKED, {1}) && st.manuals == {} && n !in st.checks
    ensures Enabled(st, StartManual(1, n))
    ensures After(st, StartManual(1, n)) ==
            st.(manuals := {1}, checks := st.checks[n := ManualCheck(1, 0, Waiting)],
                started := st.started[(1, 0) := Of(st.started, 1, 0) + 1], tick := Listed({}, ASKED, {}))
  {
    assert {1} - {1} == {};
  }

  lemma {:induction false} BeginRuns(i: nat)
    requires i < 4
    ensures Enabled(Begin()[i], BeginSteps()[i]) && Begin()[i + 1] == After(Begin()[i], BeginSteps()[i])
  {
    if i == 0 { IsAsked(); }
    if i == 2 { IsListed(Begin()[2]); }
    if i == 3 { IsBegun(Begin()[3], 0); }
  }

  lemma {:induction false} CheckRuns(i: nat)
    requires 4 <= i < 7
    ensures Enabled(Begin()[i], BeginSteps()[i]) && Begin()[i + 1] == After(Begin()[i], BeginSteps()[i])
  {
  }

  lemma {:induction false} AgainRuns(i: nat)
    requires i < 5
    ensures Enabled(Again()[i], AgainSteps()[i]) && Again()[i + 1] == After(Again()[i], AgainSteps()[i])
  {
    if i == 1 {
      assert {1} - {1} == {};
    } else if i == 3 {
      IsListed(Again()[3]);
    } else if i == 4 {
      IsBegun(Again()[4], 1);
    }
  }

  /** One end lost, two checks begun: no fewer can be promised. */
  lemma {:induction false} BegunTwice() returns (run: seq<State>, i: nat)
    ensures i < |run| && IsRun(run) && run[0] == FIRST
    ensures Of(run[i].lost, 1, 0) == 1 && Of(run[i].started, 1, 0) == 2
  {
    var a, b := Begin(), Again();
    run, i := a + b[1..], 12;
    forall j | 0 < j < |run|
      ensures CanStep(run[j - 1], run[j])
    {
      if j <= 7 {
        if j <= 4 { BeginRuns(j - 1); } else { CheckRuns(j - 1); }
        assert run[j - 1] == a[j - 1] && run[j] == a[j];
      } else {
        AgainRuns(j - 8);
        assert run[j - 1] == b[j - 8] && run[j] == b[j - 7];
      }
    }
    assert run[12] == b[5];
  }
}
