/** The monitor's checks as interleaved steps: the tick, the checks it starts,
    and the requests that come in, each step what one of them does under the
    lock or in one write to the store. */
module Scheduler {
  import opened Rows

  const WORKERS := 16
  const COOLDOWN := 60

  type Monitor = int

  /** A monitor's manual check as stored: when it was last asked for and when that
      ended, None once asked again. */
  datatype Request = Request(asked: Option<int>, finished: Option<int>)

  predicate Pending(r: Request) {
    r.asked.Some? && (r.finished.None? || r.finished.value < r.asked.value)
  }

  /** Where a check is: before it has a worker, with one, past the check, and, of a
      manual one, with its end recorded or the write of that failed. */
  datatype Phase = Waiting | Checking | Reading | Recorded

  /** A check going on. */
  datatype Check =
    | SlotCheck(k: Monitor, phase: Phase)
    | ManualCheck(k: Monitor, asked: int, phase: Phase)

  /** Where the tick is: the manual checks found running, then the requests listed
      after that and the monitors of the list it has not come to. */
  datatype Tick = Idle | Took(busy: set<Monitor>) | Listed(busy: set<Monitor>, list: map<Monitor, Request>, todo: set<Monitor>)

  /** What the runner knows: the monitors marked as having a slot's or a manual
      check, and the workers taken. Beside it the checks that do go on; the checks
      begun for a request, and the ends of one that could not be written. */
  datatype State = State(store: map<Monitor, Request>, slots: set<Monitor>, manuals: set<Monitor>, tokens: nat, tick: Tick,
                         checks: map<nat, Check>, started: map<(Monitor, int), nat>, lost: map<(Monitor, int), nat>)

  function Of(m: map<(Monitor, int), nat>, k: Monitor, asked: int): nat {
    if (k, asked) in m then m[(k, asked)] else 0
  }

  /** The availability checks going on. */
  function Holding(st: State): set<nat> {
    set n | n in st.checks && st.checks[n].phase.Checking?
  }

  datatype Step =
    | Ask(k: Monitor, at: int)          // a request for a manual check
    | TurnOff(k: Monitor, at: int)      // which ends one pending
    | TakeBusy
    | List(enabled: set<Monitor>)
    | StartManual(k: Monitor, n: nat)   // check n begins
    | FinishOld(k: Monitor, at: int)    // a request too old to serve, ended unserved
    | Pass(k: Monitor)
    | StartSlot(k: Monitor, n: nat)
    | EndTick
    | SlotChecked(n: nat)
    | SlotDone(n: nat)
    | Acquire(n: nat)
    | Release(n: nat)
    | GiveUp(n: nat)                    // shutdown came before a worker
    | Record(n: nat, at: int)
    | RecordFails(n: nat)
    | ManualDone(n: nat)

  predicate IsSlot(st: State, n: nat, p: Phase) {
    n in st.checks && st.checks[n].SlotCheck? && st.checks[n].phase == p
  }

  predicate IsManual(st: State, n: nat, p: Phase) {
    n in st.checks && st.checks[n].ManualCheck? && st.checks[n].phase == p
  }

  /** When a step can be taken: what the tick sees under the lock; where a check
      itself is, and that a worker is free, or taken. */
  predicate Enabled(st: State, s: Step) {
    match s
    case Ask(k, at) => k !in st.store || (!Pending(st.store[k]) && (st.store[k].asked.Some? ==> st.store[k].asked.value + COOLDOWN <= at))
    case TurnOff(k, _) => k in st.store
    case TakeBusy => st.tick.Idle?
    case List(enabled) => st.tick.Took? && enabled <= st.store.Keys
    case StartManual(k, n) =>
      st.tick.Listed? && k in st.tick.todo && k in st.tick.list && Pending(st.tick.list[k]) && k !in st.tick.busy && k !in st.manuals &&
      n !in st.checks
    case FinishOld(k, _) =>
      st.tick.Listed? && k in st.tick.todo && k in st.tick.list && Pending(st.tick.list[k]) && k !in st.tick.busy && k in st.store
    case Pass(k) => st.tick.Listed? && k in st.tick.todo
    case StartSlot(k, n) => st.tick.Listed? && k !in st.slots && k !in st.manuals && st.tokens < WORKERS && n !in st.checks
    case EndTick => !st.tick.Idle?
    case SlotChecked(n) => IsSlot(st, n, Checking) && st.tokens > 0
    case SlotDone(n) => IsSlot(st, n, Reading)
    case Acquire(n) => IsManual(st, n, Waiting) && st.tokens < WORKERS
    case Release(n) => IsManual(st, n, Checking) && st.tokens > 0
    case GiveUp(n) => IsManual(st, n, Waiting)
    case Record(n, _) => IsManual(st, n, Reading) && st.checks[n].k in st.store
    case RecordFails(n) => IsManual(st, n, Reading)
    case ManualDone(n) => IsManual(st, n, Recorded)
  }

  function Max(a: int, b: int): int {
    if a > b then a else b
  }

  /** FinishMonitorCheck: ends the request asked for then, if it is still the last;
      never dated before it. */
  function Finish(store: map<Monitor, Request>, k: Monitor, asked: int, at: int): map<Monitor, Request>
    requires k in store
  {
    if store[k].asked == Some(asked) then store[k := store[k].(finished := Some(Max(at, asked)))] else store
  }

  function InPhase(st: State, n: nat, p: Phase): State
    requires n in st.checks
  {
    st.(checks := st.checks[n := st.checks[n].(phase := p)])
  }

  function After(st: State, s: Step): State
    requires Enabled(st, s)
  {
    match s
    case Ask(k, at) => st.(store := st.store[k := Request(Some(at), None)])
    case TurnOff(k, at) =>
      if Pending(st.store[k]) then st.(store := Finish(st.store, k, st.store[k].asked.value, at)) else st
    case TakeBusy => st.(tick := Took(st.manuals))
    case List(enabled) => st.(tick := Listed(st.tick.busy, map k | k in st.store && k in enabled :: st.store[k], enabled))
    case StartManual(k, n) =>
      var asked := st.tick.list[k].asked.value;
      st.(manuals := st.manuals + {k},
          checks := st.checks[n := ManualCheck(k, asked, Waiting)],
          started := st.started[(k, asked) := Of(st.started, k, asked) + 1],
          tick := st.tick.(todo := st.tick.todo - {k}))
    case FinishOld(k, at) => st.(store := Finish(st.store, k, st.tick.list[k].asked.value, at), tick := st.tick.(todo := st.tick.todo - {k}))
    case Pass(k) => st.(tick := st.tick.(todo := st.tick.todo - {k}))
    case StartSlot(k, n) => st.(slots := st.slots + {k}, tokens := st.tokens + 1, checks := st.checks[n := SlotCheck(k, Checking)])
    case EndTick => st.(tick := Idle)
    case SlotChecked(n) => InPhase(st.(tokens := st.tokens - 1), n, Reading)
    case SlotDone(n) => st.(slots := st.slots - {st.checks[n].k}, checks := st.checks - {n})
    case Acquire(n) => InPhase(st.(tokens := st.tokens + 1), n, Checking)
    case Release(n) => InPhase(st.(tokens := st.tokens - 1), n, Reading)
    case GiveUp(n) => InPhase(st, n, Reading)
    case Record(n, at) => InPhase(st.(store := Finish(st.store, st.checks[n].k, st.checks[n].asked, at)), n, Recorded)
    case RecordFails(n) =>
      var c := st.checks[n];
      InPhase(st.(lost := st.lost[(c.k, c.asked) := Of(st.lost, c.k, c.asked) + 1]), n, Recorded)
    case ManualDone(n) => st.(manuals := st.manuals - {st.checks[n].k}, checks := st.checks - {n})
  }

  // ----- the invariant

  predicate IsRunning(st: State, n: nat, k: Monitor, asked: int) {
    n in st.checks && st.checks[n].ManualCheck? && st.checks[n].k == k && st.checks[n].asked == asked && !st.checks[n].phase.Recorded?
  }

  /** The request's check is going on and its end is not recorded. */
  ghost predicate Running(st: State, k: Monitor, asked: int) {
    exists n :: IsRunning(st, n, k, asked)
  }

  /** The store says the request ended, or that another came after it. */
  predicate Over(st: State, k: Monitor, asked: int) {
    && k in st.store && st.store[k].asked.Some?
    && (st.store[k].asked.value > asked ||
        (st.store[k].asked.value == asked && st.store[k].finished.Some? && st.store[k].finished.value >= asked))
  }

  /** The request was stored, and is the last or an earlier one. */
  predicate WasAsked(st: State, k: Monitor, asked: int) {
    k in st.store && st.store[k].asked.Some? && asked <= st.store[k].asked.value
  }

  ghost predicate CountOk(st: State, k: Monitor, asked: int) {
    && Of(st.started, k, asked) <= Of(st.lost, k, asked) + 1
    && (!Running(st, k, asked) && !Over(st, k, asked) ==> Of(st.started, k, asked) <= Of(st.lost, k, asked))
    && (Of(st.started, k, asked) > 0 ==> WasAsked(st, k, asked))
  }

  /** A monitor the tick has not come to, and did not find busy, has no manual
      check going on, and its listed request none more begun than lost. */
  ghost predicate TodoOk(st: State, k: Monitor) {
    match st.tick
    case Idle => true
    case Took(busy) => k in st.manuals ==> k in busy
    case Listed(busy, list, todo) =>
      k in todo && k !in busy ==>
        && k !in st.manuals
        && (k in list && Pending(list[k]) ==>
              WasAsked(st, k, list[k].asked.value) &&
              Of(st.started, k, list[k].asked.value) <= Of(st.lost, k, list[k].asked.value))
  }

  ghost predicate CountsOk(st: State) {
    forall k, asked {:trigger CountOk(st, k, asked)} :: CountOk(st, k, asked)
  }

  ghost predicate TodosOk(st: State) {
    forall k {:trigger TodoOk(st, k)} :: TodoOk(st, k)
  }

  ghost predicate CheckAsked(st: State, n: nat) {
    n in st.checks && st.checks[n].ManualCheck? ==> WasAsked(st, st.checks[n].k, st.checks[n].asked)
  }

  ghost predicate ManualsAsked(st: State) {
    forall n {:trigger CheckAsked(st, n)} :: CheckAsked(st, n)
  }

  /** A check going on of a monitor, of its slots or its requests. */
  predicate IsOf(st: State, n: nat, slot: bool, k: Monitor) {
    n in st.checks && st.checks[n].SlotCheck? == slot && st.checks[n].k == k
  }

  function Marked(st: State, slot: bool): set<Monitor> {
    if slot then st.slots else st.manuals
  }

  /** The monitors marked are those with a check going on, and each has but one. */
  ghost predicate MarkOk(st: State, slot: bool, k: Monitor) {
    && (k in Marked(st, slot) <==> exists n :: IsOf(st, n, slot, k))
    && forall m, n {:trigger IsOf(st, m, slot, k), IsOf(st, n, slot, k)} :: IsOf(st, m, slot, k) && IsOf(st, n, slot, k) ==> m == n
  }

  ghost predicate MarksOk(st: State) {
    forall slot, k {:trigger MarkOk(st, slot, k)} :: MarkOk(st, slot, k)
  }

  /** The workers taken are those of the availability checks going on. */
  ghost predicate TokensOk(st: State) {
    st.tokens == |Holding(st)| <= WORKERS
  }

  ghost predicate Inv(st: State) {
    CountsOk(st) && TodosOk(st) && ManualsAsked(st) && MarksOk(st) && TokensOk(st)
  }

  // ----- every step keeps the marks and the workers

  lemma {:induction false} SameHolding(a: State, b: State)
    requires TokensOk(a) && a.tokens == b.tokens
    requires forall n :: (n in a.checks && a.checks[n].phase.Checking?) <==> (n in b.checks && b.checks[n].phase.Checking?)
    ensures TokensOk(b)
  {
    assert Holding(a) == Holding(b);
  }

  lemma {:induction false} HoldsOneMore(a: State, b: State, n: nat)
    requires TokensOk(a) && a.tokens < WORKERS && b.tokens == a.tokens + 1
    requires n !in Holding(a) && Holding(b) == Holding(a) + {n}
    ensures TokensOk(b)
  {
  }

  lemma {:induction false} HoldsOneLess(a: State, b: State, n: nat)
    requires TokensOk(a) && a.tokens == b.tokens + 1
    requires n in Holding(a) && Holding(b) == Holding(a) - {n}
    ensures TokensOk(b)
  {
  }

  /** A step that neither takes a worker nor frees one. */
  lemma {:induction false} NoWorkerMoves(st: State, s: Step)
    requires TokensOk(st) && Enabled(st, s)
    requires !s.StartSlot? && !s.Acquire? && !s.SlotChecked? && !s.Release?
    ensures TokensOk(After(st, s))
  {
    var b := After(st, s);
    forall n
      ensures (n in st.checks && st.checks[n].phase.Checking?) <==> (n in b.checks && b.checks[n].phase.Checking?)
    {
    }
    SameHolding(st, b);
  }

  lemma {:induction false} StepKeepsTokens(st: State, s: Step)
    requires TokensOk(st) && Enabled(st, s)
    ensures TokensOk(After(st, s))
  {
    var b := After(st, s);
    if s.StartSlot? || s.Acquire? {
      assert Holding(b) == Holding(st) + {s.n};
      HoldsOneMore(st, b, s.n);
    } else if s.SlotChecked? || s.Release? {
      assert Holding(b) == Holding(st) - {s.n};
      HoldsOneLess(st, b, s.n);
    } else {
      NoWorkerMoves(st, s);
    }
  }

  /** A check more, of a monitor not marked. */
  lemma {:induction false} MarkBegun(a: State, b: State, n: nat, slot: bool, k: Monitor, other: bool, j: Monitor)
    requires MarkOk(a, other, j) && n !in a.checks && n in b.checks && b.checks == a.checks[n := b.checks[n]]
    requires IsOf(b, n, slot, k) && k !in Marked(a, slot)
    requires Marked(b, slot) == Marked(a, slot) + {k} && Marked(b, !slot) == Marked(a, !slot)
    ensures MarkOk(b, other, j)
  {
    assert forall m :: IsOf(b, m, other, j) <==> IsOf(a, m, other, j) || (m == n && other == slot && j == k);
  }

  /** A check gone, and its monitor's mark. */
  lemma {:induction false} MarkEnded(a: State, b: State, n: nat, slot: bool, k: Monitor, other: bool, j: Monitor)
    requires MarkOk(a, other, j) && IsOf(a, n, slot, k) && b.checks == a.checks - {n}
    requires Marked(b, slot) == Marked(a, slot) - {k} && Marked(b, !slot) == Marked(a, !slot)
    ensures MarkOk(b, other, j)
  {
    assert forall m :: IsOf(b, m, other, j) <==> IsOf(a, m, other, j) && m != n;
  }

  lemma {:induction false} MarkSame(a: State, b: State, slot: bool, k: Monitor)
    requires MarkOk(a, slot, k) && a.slots == b.slots && a.manuals == b.manuals
    requires forall n :: IsOf(a, n, slot, k) == IsOf(b, n, slot, k)
    ensures MarkOk(b, slot, k)
  {
  }

  lemma {:induction false} StepKeepsMark(st: State, s: Step, slot: bool, k: Monitor)
    requires MarkOk(st, slot, k) && Enabled(st, s)
    ensures MarkOk(After(st, s), slot, k)
  {
    var b := After(st, s);
    match s
    case StartSlot(j, n) => MarkBegun(st, b, n, true, j, slot, k);
    case StartManual(j, n) => MarkBegun(st, b, n, false, j, slot, k);
    case SlotDone(n) => MarkEnded(st, b, n, true, st.checks[n].k, slot, k);
    case ManualDone(n) => MarkEnded(st, b, n, false, st.checks[n].k, slot, k);
    case _ => MarkSame(st, b, slot, k);
  }

  lemma {:induction false} StepKeepsMarks(st: State, s: Step)
    requires MarksOk(st) && TokensOk(st) && Enabled(st, s)
    ensures MarksOk(After(st, s)) && TokensOk(After(st, s))
  {
    forall slot, k
      ensures MarkOk(After(st, s), slot, k)
    {
      assert MarkOk(st, slot, k);
      StepKeepsMark(st, s, slot, k);
    }
    StepKeepsTokens(st, s);
  }

  // ----- and the counts

  /** What is counted, and what the tick relies on. */
  ghost predicate Counted(st: State) {
    CountsOk(st) && TodosOk(st) && ManualsAsked(st)
  }

  /** A step keeps what is counted when it begins and loses no check, ends no
      request's run unless it is over, and undoes no end. */
  lemma {:induction false} KeepsCounts(a: State, b: State)
    requires CountsOk(a)
    requires b.started == a.started && b.lost == a.lost
    requires forall k, asked {:trigger Over(b, k, asked)} :: Over(a, k, asked) && Of(a.started, k, asked) > 0 ==> Over(b, k, asked)
    requires forall n, k, asked {:trigger IsRunning(a, n, k, asked)} :: IsRunning(a, n, k, asked) && !Over(b, k, asked) ==> IsRunning(b, n, k, asked)
    requires forall k, asked {:trigger WasAsked(b, k, asked)} :: WasAsked(a, k, asked) ==> WasAsked(b, k, asked)
    ensures CountsOk(b)
  {
    forall k, asked
      ensures CountOk(b, k, asked)
    {
      assert CountOk(a, k, asked);
      if Running(a, k, asked) && !Over(b, k, asked) {
        var n :| IsRunning(a, n, k, asked);
        assert IsRunning(b, n, k, asked);
      }
      assert Over(a, k, asked) && Of(a.started, k, asked) > 0 ==> Over(b, k, asked);
      assert WasAsked(a, k, asked) ==> WasAsked(b, k, asked);
    }
  }

  /** A step of the store alone: a request more, or one ended. */
  lemma {:induction false} StoreKeeps(st: State, b: State, k: Monitor)
    requires Counted(st) && k in b.store && b == st.(store := st.store[k := b.store[k]])
    requires forall asked :: WasAsked(st, k, asked) ==> WasAsked(b, k, asked)
    requires forall asked :: Over(st, k, asked) ==> Over(b, k, asked)
    ensures Counted(b)
  {
    forall j, asked
      ensures (Over(st, j, asked) ==> Over(b, j, asked)) && (WasAsked(st, j, asked) ==> WasAsked(b, j, asked))
    {
    }
    KeepsCounts(st, b);
    forall j
      ensures TodoOk(b, j)
    {
      assert TodoOk(st, j);
    }
    forall n
      ensures CheckAsked(b, n)
    {
      assert CheckAsked(st, n);
    }
  }

  lemma {:induction false} FinishKeeps(st: State, k: Monitor, asked: int, at: int)
    requires Counted(st) && k in st.store
    ensures Counted(st.(store := Finish(st.store, k, asked, at)))
  {
    var b := st.(store := Finish(st.store, k, asked, at));
    if st.store[k].asked == Some(asked) {
      StoreKeeps(st, b, k);
    } else {
      assert b == st;
    }
  }

  lemma {:induction false} AskKeeps(st: State, k: Monitor, at: int)
    requires Counted(st) && Enabled(st, Ask(k, at))
    ensures Counted(After(st, Ask(k, at)))
  {
    var b := After(st, Ask(k, at));
    forall asked | Over(st, k, asked)
      ensures Over(b, k, asked)
    {
    }
    StoreKeeps(st, b, k);
  }

  /** The tick on its way: nothing but the tick's own state changes. */
  lemma {:induction false} TickKeeps(st: State, b: State)
    requires Counted(st) && b == st.(tick := b.tick) && TodosOk(b)
    ensures Counted(b)
  {
    forall k, asked
      ensures Over(st, k, asked) == Over(b, k, asked) && WasAsked(st, k, asked) == WasAsked(b, k, asked)
    {
    }
    KeepsCounts(st, b);
    forall n
      ensures CheckAsked(b, n)
    {
      assert CheckAsked(st, n);
    }
  }

  lemma {:induction false} ListKeeps(st: State, enabled: set<Monitor>)
    requires Inv(st) && Enabled(st, List(enabled))
    ensures Counted(After(st, List(enabled)))
  {
    var b := After(st, List(enabled));
    forall k
      ensures TodoOk(b, k)
    {
      assert TodoOk(st, k);
      if k !in st.manuals && k in st.store && Pending(st.store[k]) {
        NoneRunning(st, k, st.store[k].asked.value);
        assert CountOk(st, k, st.store[k].asked.value);
      }
    }
    TickKeeps(st, b);
  }

  lemma {:induction false} NoneRunning(st: State, k: Monitor, asked: int)
    requires MarksOk(st) && k !in st.manuals
    ensures !Running(st, k, asked)
  {
    assert MarkOk(st, false, k);
    if n :| IsRunning(st, n, k, asked) {
      assert IsOf(st, n, false, k);
    }
  }

  lemma {:induction false} TodoShrinks(st: State, k: Monitor)
    requires Counted(st) && st.tick.Listed?
    ensures Counted(st.(tick := st.tick.(todo := st.tick.todo - {k})))
  {
    var b := st.(tick := st.tick.(todo := st.tick.todo - {k}));
    forall j
      ensures TodoOk(b, j)
    {
      assert TodoOk(st, j);
    }
    TickKeeps(st, b);
  }

  lemma {:induction false} StartManualCounts(st: State, k: Monitor, n: nat, j: Monitor, asked: int)
    requires Counted(st) && Enabled(st, StartManual(k, n))
    ensures CountOk(After(st, StartManual(k, n)), j, asked)
  {
    assert CountOk(st, j, asked) && TodoOk(st, k);
    var b := After(st, StartManual(k, n));
    assert WasAsked(st, j, asked) == WasAsked(b, j, asked) && Over(st, j, asked) == Over(b, j, asked);
    if m :| IsRunning(st, m, j, asked) { assert IsRunning(b, m, j, asked); }
    if j == k && asked == st.tick.list[k].asked.value { assert IsRunning(b, n, j, asked); }
  }

  lemma {:induction false} StartManualTodos(st: State, k: Monitor, n: nat)
    requires Counted(st) && Enabled(st, StartManual(k, n))
    ensures TodosOk(After(st, StartManual(k, n))) && ManualsAsked(After(st, StartManual(k, n)))
  {
    var b := After(st, StartManual(k, n));
    assert TodoOk(st, k);
    forall j
      ensures TodoOk(b, j)
    {
      assert TodoOk(st, j);
    }
    forall m
      ensures CheckAsked(b, m)
    {
      assert CheckAsked(st, m);
    }
  }

  lemma {:induction false} StartManualKeeps(st: State, k: Monitor, n: nat)
    requires Counted(st) && Enabled(st, StartManual(k, n))
    ensures Counted(After(st, StartManual(k, n)))
  {
    forall j, asked
      ensures CountOk(After(st, StartManual(k, n)), j, asked)
    {
      StartManualCounts(st, k, n, j, asked);
    }
    StartManualTodos(st, k, n);
  }

  /** The checks and their marks alone: one more of a slot, one further on, or one
      gone whose end was recorded. */
  lemma {:induction false} ChecksKeep(st: State, b: State)
    requires Counted(st) && b == st.(slots := b.slots, manuals := b.manuals, tokens := b.tokens, checks := b.checks)
    requires b.manuals <= st.manuals
    requires forall n, k, asked {:trigger IsRunning(st, n, k, asked)} :: IsRunning(st, n, k, asked) ==> IsRunning(b, n, k, asked)
    requires forall n {:trigger CheckAsked(b, n)} :: n in b.checks && b.checks[n].ManualCheck? ==>
               n in st.checks && st.checks[n].ManualCheck? && st.checks[n].k == b.checks[n].k && st.checks[n].asked == b.checks[n].asked
    ensures Counted(b)
  {
    forall k, asked
      ensures Over(st, k, asked) == Over(b, k, asked) && WasAsked(st, k, asked) == WasAsked(b, k, asked)
    {
    }
    KeepsCounts(st, b);
    forall k
      ensures TodoOk(b, k)
    {
      assert TodoOk(st, k);
    }
    forall n
      ensures CheckAsked(b, n)
    {
      assert CheckAsked(st, n);
    }
  }

  /** Its end recorded, or lost: it is over, or one more is lost. */
  lemma {:induction false} EndCounts(st: State, b: State, n: nat, j: Monitor, other: int)
    requires Counted(st) && IsManual(st, n, Reading) && b == InPhase(st.(lost := b.lost), n, Recorded)
    requires var c := st.checks[n];
             (b.lost == st.lost && Over(st, c.k, c.asked)) || b.lost == st.lost[(c.k, c.asked) := Of(st.lost, c.k, c.asked) + 1]
    ensures CountOk(b, j, other)
  {
    assert CountOk(st, j, other);
    assert WasAsked(st, j, other) == WasAsked(b, j, other) && Over(st, j, other) == Over(b, j, other);
    if m :| IsRunning(st, m, j, other) {
      if m != n { assert IsRunning(b, m, j, other); }
    }
  }

  lemma {:induction false} EndTodos(st: State, b: State, n: nat)
    requires Counted(st) && IsManual(st, n, Reading) && b == InPhase(st.(lost := b.lost), n, Recorded)
    requires forall j, asked {:trigger Of(b.lost, j, asked)} :: Of(st.lost, j, asked) <= Of(b.lost, j, asked)
    ensures TodosOk(b) && ManualsAsked(b)
  {
    forall j
      ensures TodoOk(b, j)
    {
      assert TodoOk(st, j);
    }
    forall m
      ensures CheckAsked(b, m)
    {
      assert CheckAsked(st, m);
    }
  }

  lemma {:induction false} EndKeeps(st: State, b: State, n: nat)
    requires Counted(st) && IsManual(st, n, Reading) && b == InPhase(st.(lost := b.lost), n, Recorded)
    requires var c := st.checks[n];
             (b.lost == st.lost && Over(st, c.k, c.asked)) || b.lost == st.lost[(c.k, c.asked) := Of(st.lost, c.k, c.asked) + 1]
    ensures Counted(b)
  {
    forall j, asked
      ensures CountOk(b, j, asked)
    {
      EndCounts(st, b, n, j, asked);
    }
    EndTodos(st, b, n);
  }

  lemma {:induction false} RecordKeeps(st: State, n: nat, at: int)
    requires Counted(st) && Enabled(st, Record(n, at))
    ensures Counted(After(st, Record(n, at)))
  {
    var c := st.checks[n];
    var mid := st.(store := Finish(st.store, c.k, c.asked, at));
    FinishKeeps(st, c.k, c.asked, at);
    assert CheckAsked(st, n);
    assert Over(mid, c.k, c.asked);
    EndKeeps(mid, After(st, Record(n, at)), n);
  }

  lemma {:induction false} FinishOldKeeps(st: State, k: Monitor, at: int)
    requires Counted(st) && Enabled(st, FinishOld(k, at))
    ensures Counted(After(st, FinishOld(k, at)))
  {
    FinishKeeps(st, k, st.tick.list[k].asked.value, at);
    TodoShrinks(st.(store := Finish(st.store, k, st.tick.list[k].asked.value, at)), k);
  }

  lemma {:induction false} StepKeepsCounts(st: State, s: Step)
    requires Inv(st) && Enabled(st, s)
    ensures Counted(After(st, s))
  {
    match s
    case Ask(k, at) => AskKeeps(st, k, at);
    case TurnOff(k, at) => if Pending(st.store[k]) { FinishKeeps(st, k, st.store[k].asked.value, at); }
    case TakeBusy => TickKeeps(st, After(st, s));
    case List(enabled) => ListKeeps(st, enabled);
    case StartManual(k, n) => StartManualKeeps(st, k, n);
    case FinishOld(k, at) => FinishOldKeeps(st, k, at);
    case Pass(k) => TodoShrinks(st, k);
    case EndTick => TickKeeps(st, After(st, s));
    case Record(n, at) => RecordKeeps(st, n, at);
    case RecordFails(n) => EndKeeps(st, After(st, s), n);
    case _ => ChecksKeep(st, After(st, s));
  }

  /** Every step keeps the invariant. */
  lemma {:induction false} StepKeepsInv(st: State, s: Step)
    requires Inv(st) && Enabled(st, s)
    ensures Inv(After(st, s))
  {
    StepKeepsMarks(st, s);
    StepKeepsCounts(st, s);
  }

  // ----- runs

  ghost predicate CanStep(a: State, b: State) {
    exists s :: Enabled(a, s) && b == After(a, s)
  }

  /** States one step apart. */
  ghost predicate IsRun(run: seq<State>) {
    forall i :: 0 < i < |run| ==> CanStep(run[i - 1], run[i])
  }

  const FIRST := State(map[], {}, {}, 0, Idle, map[], map[], map[])

  lemma {:induction false} FirstOk()
    ensures Inv(FIRST)
  {
    assert Holding(FIRST) == {};
  }

  lemma {:induction false} RunKeepsInv(run: seq<State>, i: nat)
    requires IsRun(run) && i < |run| && run[0] == FIRST
    ensures Inv(run[i])
  {
    if i == 0 {
      FirstOk();
    } else {
      RunKeepsInv(run, i - 1);
      assert CanStep(run[i - 1], run[i]);
      var s :| Enabled(run[i - 1], s) && run[i] == After(run[i - 1], s);
      StepKeepsInv(run[i - 1], s);
    }
  }

  /** However the steps interleave, a request's check is begun once, and once more
      for each time the write of its end failed. */
  lemma {:induction false} OnePerRequest(run: seq<State>, i: nat, k: Monitor, asked: int)
    requires IsRun(run) && i < |run| && run[0] == FIRST
    ensures Of(run[i].started, k, asked) <= Of(run[i].lost, k, asked) + 1
  {
    RunKeepsInv(run, i);
    assert CountOk(run[i], k, asked);
  }

  /** A manual check of the request begins from a to b. */
  ghost predicate ManualBegins(a: State, b: State, k: Monitor, asked: int) {
    exists n :: n in b.checks && n !in a.checks && b.checks[n].ManualCheck? && b.checks[n].k == k && b.checks[n].asked == asked
  }

  /** What is counted as begun for a request is its checks as they begin. */
  lemma {:induction false} StartedCounts(run: seq<State>, i: nat, k: Monitor, asked: int)
    requires IsRun(run) && 0 < i < |run|
    ensures Of(run[i].started, k, asked) == Of(run[i - 1].started, k, asked) + if ManualBegins(run[i - 1], run[i], k, asked) then 1 else 0
  {
    var a, b := run[i - 1], run[i];
    assert CanStep(a, b);
    var s :| Enabled(a, s) && b == After(a, s);
    if s.StartManual? && s.k == k && a.tick.list[k].asked.value == asked {
      assert b.checks[s.n] == ManualCheck(k, asked, Waiting);
    } else {
      NoManualBegins(a, s, k, asked);
    }
  }

  lemma {:induction false} NoManualBegins(a: State, s: Step, k: Monitor, asked: int)
    requires Enabled(a, s) && !(s.StartManual? && s.k == k && a.tick.list[k].asked.value == asked)
    ensures !ManualBegins(a, After(a, s), k, asked) && Of(After(a, s).started, k, asked) == Of(a.started, k, asked)
  {
    match s
    case StartManual(_, _) =>
    case StartSlot(_, _) =>
    case SlotDone(_) =>
    case ManualDone(_) =>
    case _ =>
  }

  /** As many availability checks go on as workers are taken, at most 16. */
  lemma {:induction false} WorkersBound(run: seq<State>, i: nat, holding: set<nat>)
    requires IsRun(run) && i < |run| && run[0] == FIRST
    requires forall n {:trigger n in holding} :: n in holding <==> n in run[i].checks && run[i].checks[n].phase.Checking?
    ensures |holding| == run[i].tokens <= 16
  {
    RunKeepsInv(run, i);
    assert holding == Holding(run[i]);
  }

  /** A monitor has at most one slot's check going on, and at most one manual one. */
  lemma {:induction false} OneOfEach(run: seq<State>, i: nat, m: nat, n: nat)
    requires IsRun(run) && i < |run| && run[0] == FIRST
    requires m in run[i].checks && n in run[i].checks && run[i].checks[m].k == run[i].checks[n].k
    requires run[i].checks[m].SlotCheck? == run[i].checks[n].SlotCheck?
    ensures m == n
  {
    RunKeepsInv(run, i);
    var slot, k := run[i].checks[m].SlotCheck?, run[i].checks[m].k;
    assert MarkOk(run[i], slot, k);
    assert IsOf(run[i], m, slot, k) && IsOf(run[i], n, slot, k);
  }

  lemma {:induction false} OnlySlotStarts(a: State, s: Step, n: nat)
    requires Enabled(a, s) && n !in a.checks && n in After(a, s).checks && After(a, s).checks[n].SlotCheck?
    ensures s == StartSlot(After(a, s).checks[n].k, n)
  {
    match s
    case StartManual(_, _) =>
    case StartSlot(_, _) =>
    case SlotDone(_) =>
    case ManualDone(_) =>
    case _ =>
  }

  /** A slot's check never begins while another check of the monitor goes on, of a
      slot or a request. */
  lemma {:induction false} SlotAlone(run: seq<State>, i: nat, n: nat, m: nat)
    requires IsRun(run) && 0 < i < |run| && run[0] == FIRST
    requires n in run[i].checks && n !in run[i - 1].checks && run[i].checks[n].SlotCheck?
    requires m in run[i - 1].checks
    ensures run[i - 1].checks[m].k != run[i].checks[n].k
  {
    var a, k := run[i - 1], run[i].checks[n].k;
    RunKeepsInv(run, i - 1);
    assert CanStep(a, run[i]);
    var s :| Enabled(a, s) && run[i] == After(a, s);
    OnlySlotStarts(a, s, n);
    assert MarkOk(a, true, k) && MarkOk(a, false, k);
    if a.checks[m].k == k { assert IsOf(a, m, a.checks[m].SlotCheck?, k); }
  }
}
