/** The monitor's tick as it runs, checks and requests going on between any two
    of its steps. */
module Runner {
  import opened Ints
  import opened Ordered
  import opened Rows
  import opened Scheduler

  const CHECK_MAX_AGE := 120

  predicate TooOld(asked: int, now: int) {
    now - asked > CHECK_MAX_AGE
  }

  /** due: whether a slot, a time off past a multiple of interval, falls in
      (prev, now], before the epoch too. */
  function Due(prev: int, now: int, interval: int, off: int): (due: bool)
    requires interval > 0
  {
    var n := now - off;
    var k := if n < 0 && Remainder(n, interval) != 0 then Quotient(n, interval) - 1 else Quotient(n, interval);
    k * interval + off > prev
  }

  lemma {:induction false} Below(j: int, k: int, interval: int)
    requires interval > 0 && j * interval < (k + 1) * interval
    ensures j <= k
  {
    assert j >= k + 1 ==> j * interval >= (k + 1) * interval;
  }

  lemma {:induction false} Multiplies(j: int, k: int, interval: int)
    requires interval > 0 && j <= k
    ensures j * interval <= k * interval
  {
  }

  lemma {:induction false} LastSlot(n: int, interval: int)
    requires interval > 0
    ensures var k := if n < 0 && Remainder(n, interval) != 0 then Quotient(n, interval) - 1 else Quotient(n, interval);
            k * interval <= n < (k + 1) * interval
  {
    RoundsDown(n, interval);
    if n >= 0 {
      assert n == (n / interval) * interval + n % interval;
    } else {
      assert -n == (-n / interval) * interval + -n % interval;
    }
  }

  predicate SlotIn(j: int, prev: int, now: int, interval: int, off: int) {
    prev < j * interval + off <= now
  }

  lemma {:induction false} DueIsSlot(prev: int, now: int, interval: int, off: int)
    requires interval > 0
    ensures Due(prev, now, interval, off) <==> exists j :: SlotIn(j, prev, now, interval, off)
  {
    var n := now - off;
    var k := if n < 0 && Remainder(n, interval) != 0 then Quotient(n, interval) - 1 else Quotient(n, interval);
    LastSlot(n, interval);
    if k * interval + off > prev {
      assert SlotIn(k, prev, now, interval, off);
    }
    forall j | SlotIn(j, prev, now, interval, off)
      ensures Due(prev, now, interval, off)
    {
      Below(j, k, interval);
      Multiplies(j, k, interval);
    }
  }

  predicate IsTick(s: Step) {
    s.TakeBusy? || s.List? || s.StartManual? || s.FinishOld? || s.Pass? || s.StartSlot? || s.EndTick?
  }

  class Runner {
    const interval: int
    const writeFails: (Monitor, int) -> bool // whether the end of a request, too old, is not written
    const listFails: nat -> bool             // whether the n-th listing fails
    const enabled: nat -> set<Monitor>       // the monitors on at that listing
    var listings: nat
    var st: State
    var next: nat // no check has this number, or a later one
    ghost var run: seq<State>

    ghost predicate Valid()
      reads this
    {
      && interval > 0 && run != [] && run[0] == FIRST && run[|run| - 1] == st && IsRun(run)
      && forall n {:trigger n in st.checks} :: n in st.checks ==> n < next
    }

    lemma {:induction false} Sound()
      requires Valid()
      ensures Inv(st)
    {
      RunKeepsInv(run, |run| - 1);
    }

    constructor (interval: int, writeFails: (Monitor, int) -> bool, listFails: nat -> bool, enabled: nat -> set<Monitor>)
      requires interval > 0
      ensures Valid() && st == FIRST && this.interval == interval
      ensures this.writeFails == writeFails && this.listFails == listFails && this.enabled == enabled
    {
      this.interval, this.writeFails, this.listFails, this.enabled := interval, writeFails, listFails, enabled;
      listings, st, next, run := 0, FIRST, 0, [FIRST];
    }

    method Do(s: Step)
      requires Valid() && Enabled(st, s)
      requires s.StartManual? || s.StartSlot? ==> s.n == next
      modifies `st, `next, `run
      ensures Valid() && run == old(run) + [st] && st == After(old(st), s)
    {
      ghost var was := run;
      st := After(st, s);
      if s.StartManual? || s.StartSlot? { next := next + 1; }
      run := run + [st];
      assert CanStep(was[|was| - 1], st);
    }

    /** Checks on their way, and requests. */
    method Others()
      requires Valid()
      modifies `st, `next, `run
      ensures Valid() && old(run) <= run && st.tick == old(st.tick)
      ensures st.started == old(st.started) && st.manuals <= old(st.manuals)
      ensures old(st.store.Keys) <= st.store.Keys
      ensures NoSlots(run, |old(run)| - 1)
    {
      var n: nat := *;
      while n > 0
        invariant Valid() && old(run) <= run && st.tick == old(st.tick)
        invariant st.started == old(st.started) && st.manuals <= old(st.manuals)
        invariant old(st.store.Keys) <= st.store.Keys
        invariant NoSlots(run, |old(run)| - 1)
      {
        var s: Step := *;
        ghost var was := run;
        if !IsTick(s) && Enabled(st, s) {
          Other(s);
          SlotsJoin(was, run, |old(run)| - 1, {}, {});
        }
        n := n - 1;
      }
    }

    method Other(s: Step)
      requires Valid() && Enabled(st, s) && !IsTick(s)
      modifies `st, `next, `run
      ensures Valid() && old(run) <= run && st.tick == old(st.tick) && st.started == old(st.started)
      ensures st.manuals <= old(st.manuals)
      ensures old(st.store.Keys) <= st.store.Keys
      ensures NoSlots(run, |old(run)| - 1)
    {
      Do(s);
      StepBeginsNone(old(run), run, s);
    }

    /** The request, too old to serve, ended without a check, if the write of that
        does not fail. */
    method EndOld(k: Monitor)
      requires Valid() && ToServe(k) && k in st.store
      modifies `st, `next, `run
      ensures Valid() && old(run) <= run && st.tick == old(st.tick).(todo := old(st.tick.todo) - {k})
      ensures st.started == old(st.started) && st.checks == old(st.checks) && old(st.store.Keys) <= st.store.Keys
      ensures var asked := old(st.tick.list)[k].asked.value;
              if writeFails(k, asked) then st.store == old(st.store) else Over(st, k, asked)
      ensures NoSlots(run, |old(run)| - 1)
    {
      var at: int := *;
      Sound();
      assert TodoOk(st, k);
      var s := if writeFails(k, st.tick.list[k].asked.value) then Step.Pass(k) else FinishOld(k, at);
      Do(s);
      StepBeginsNone(old(run), run, s);
    }

    /** A request listed pending, of a monitor the tick did not find busy and has not
        come to. */
    ghost predicate ToServe(k: Monitor)
      reads this
    {
      st.tick.Listed? && k in st.tick.todo && k in st.tick.list && Pending(st.tick.list[k]) && k !in st.tick.busy
    }

    lemma {:induction false} NotBusy(k: Monitor)
      requires Valid() && ToServe(k)
      ensures k !in st.manuals && k in st.store
    {
      Sound();
      assert TodoOk(st, k);
    }

    /** startManual: the check is begun, or the request, too old, ended. The monitor
        is never found busy under the lock. */
    method StartManual(k: Monitor, now: int)
      requires Valid() && ToServe(k)
      modifies `st, `next, `run
      ensures Valid() && old(run) <= run && st.tick == old(st.tick).(todo := old(st.tick.todo) - {k})
      ensures old(st.store.Keys) <= st.store.Keys
      ensures var asked := old(st.tick.list)[k].asked.value;
              if TooOld(asked, now) then
                st.checks == old(st.checks) && st.started == old(st.started) && (writeFails(k, asked) || Over(st, k, asked))
              else
                st.checks == old(st.checks)[old(next) := ManualCheck(k, asked, Waiting)] && old(next) !in old(st.checks) &&
                st.started == old(st.started)[(k, asked) := Of(old(st.started), k, asked) + 1]
      ensures NoSlots(run, |old(run)| - 1)
    {
      NotBusy(k);
      if TooOld(st.tick.list[k].asked.value, now) {
        EndOld(k);
        return;
      }
      var busy := k in st.manuals;
      if !busy {
        ghost var s := Step.StartManual(k, next);
        Do(Step.StartManual(k, next));
        StepBeginsNone(old(run), run, s);
      }
    }

    /** No check of the monitor goes on, of a slot or a request. */
    ghost predicate IsFree(k: Monitor)
      reads this
    {
      forall n :: n in st.checks ==> st.checks[n].k != k
    }

    lemma {:induction false} FreeIsUnmarked(k: Monitor)
      requires Valid()
      ensures IsFree(k) <==> k !in st.slots && k !in st.manuals
      ensures st.tokens == |Holding(st)|
    {
      Sound();
      assert MarkOk(st, true, k) && MarkOk(st, false, k);
      forall n | n in st.checks && st.checks[n].k == k
        ensures k in st.slots || k in st.manuals
      {
        assert IsOf(st, n, st.checks[n].SlotCheck?, k);
      }
    }

    /** startSlot: the check is begun exactly when no other of the monitor goes on and
        fewer availability checks than there are workers. */
    method StartSlot(k: Monitor) returns (started: bool)
      requires Valid() && st.tick.Listed?
      modifies `st, `next, `run
      ensures Valid() && old(run) <= run && st.tick == old(st.tick) && st.store == old(st.store)
      ensures st.started == old(st.started)
      ensures started <==> old(IsFree(k)) && |Holding(old(st))| < 16
      ensures started ==> old(next) !in old(st.checks) && st.checks == old(st.checks)[old(next) := SlotCheck(k, Checking)]
      ensures !started ==> st == old(st)
      ensures Tried(run, |old(run)| - 1, k)
      ensures SlotsWithin(run, |old(run)| - 1, {k})
    {
      FreeIsUnmarked(k);
      ghost var n := next;
      started := k !in st.slots && k !in st.manuals && st.tokens < WORKERS;
      if started {
        Do(Step.StartSlot(k, next));
        assert IsBegun(run[|run| - 2], run[|run| - 1], n, k);
      }
      OneBegins(old(run), run, k);
    }

    /** What the tick does with the requests listed: those of ms[..i] are served. */
    ghost predicate Served(ms: seq<Monitor>, i: nat, now: int, before: map<(Monitor, int), nat>)
      requires i <= |ms|
      reads this
    {
      && st.tick.Listed? && st.tick.list.Keys <= st.store.Keys
      && (forall k {:trigger k in st.tick.todo} :: k in st.tick.todo <==> k in ms[i..])
      && (forall k {:trigger k in st.tick.list} :: k in ms <==> k in st.tick.list)
      && StartedTo(ms, i, now, before, st.tick, st.started)
    }

    /** serve: the manual checks of the monitors listed. */
    method ServeAll(ms: seq<Monitor>, now: int, ghost before: map<(Monitor, int), nat>)
      requires Valid() && InOrder(Less, ms) && Served(ms, 0, now, before)
      modifies `st, `next, `run
      ensures Valid() && old(run) <= run && Served(ms, |ms|, now, before)
      ensures st.tick.Listed? && st.tick.list == old(st.tick.list) && st.tick.busy == old(st.tick.busy)
      ensures NoSlots(run, |old(run)| - 1)
    {
      for i := 0 to |ms|
        invariant Valid() && old(run) <= run && Served(ms, i, now, before)
        invariant st.tick.list == old(st.tick.list) && st.tick.busy == old(st.tick.busy)
        invariant NoSlots(run, |old(run)| - 1)
      {
        ghost var was := run;
        Others();
        SlotsJoin(was, run, |old(run)| - 1, {}, {});
        was := run;
        ServeOne(ms, i, now, before);
        SlotsJoin(was, run, |old(run)| - 1, {}, {});
      }
    }

    method ServeOne(ms: seq<Monitor>, i: nat, now: int, ghost before: map<(Monitor, int), nat>)
      requires Valid() && InOrder(Less, ms) && i < |ms| && Served(ms, i, now, before)
      modifies `st, `next, `run
      ensures Valid() && old(run) <= run && Served(ms, i + 1, now, before)
      ensures st.tick.list == old(st.tick.list) && st.tick.busy == old(st.tick.busy)
      ensures NoSlots(run, |old(run)| - 1)
    {
      var m := ms[i];
      OneServed(ms, i);
      assert m in ms[i..] && m in ms;
      if Pending(st.tick.list[m]) && m !in st.tick.busy {
        StartManual(m, now);
      } else {
        Do(Step.Pass(m));
        StepBeginsNone(old(run), run, Step.Pass(m));
      }
      assert st.tick.todo == old(st.tick.todo) - {m};
      StartedNow(ms, i, now, before, old(st.tick), st.tick, old(st.started), st.started);
    }

    /** The monitors of ms[..i] whose slot is due have been come to since state from,
        and no check of another's slot has begun. */
    ghost predicate CameToAll(from: int, ms: seq<Monitor>, i: nat, prev: int, now: int, offset: Monitor -> int)
      requires i <= |ms|
      reads this
    {
      && interval > 0
      && (forall k {:trigger CameTo(run, from, k)} :: k in ms[..i] && Due(prev, now, interval, offset(k)) ==> CameTo(run, from, k))
      && SlotsWithin(run, from, DueOf(ms[..i], prev, now, offset))
    }

    ghost function DueOf(ms: seq<Monitor>, prev: int, now: int, offset: Monitor -> int): set<Monitor>
      requires interval > 0
    {
      set k | k in ms && Due(prev, now, interval, offset(k))
    }

    /** The slots of the monitors listed that fall in (prev, now]: each monitor whose
        does is come to, and no other's check begins. */
    method StartSlots(ms: seq<Monitor>, prev: int, now: int, offset: Monitor -> int)
      requires Valid() && st.tick.Listed? && InOrder(Less, ms)
      modifies `st, `next, `run
      ensures Valid() && old(run) <= run && st.tick == old(st.tick)
      ensures st.started == old(st.started)
      ensures CameToAll(|old(run)| - 1, ms, |ms|, prev, now, offset)
    {
      for i := 0 to |ms|
        invariant Valid() && old(run) <= run && st.tick == old(st.tick)
        invariant st.started == old(st.started)
        invariant CameToAll(|old(run)| - 1, ms, i, prev, now, offset)
      {
        StartNext(ms, i, prev, now, offset, |old(run)| - 1);
      }
    }

    method StartNext(ms: seq<Monitor>, i: nat, prev: int, now: int, offset: Monitor -> int, ghost from: int)
      requires Valid() && st.tick.Listed? && InOrder(Less, ms) && i < |ms| && 0 <= from < |run| && CameToAll(from, ms, i, prev, now, offset)
      modifies `st, `next, `run
      ensures Valid() && old(run) <= run && st.tick == old(st.tick) && st.started == old(st.started)
      ensures CameToAll(from, ms, i + 1, prev, now, offset)
    {
      ghost var ks := DueOf(ms[..i], prev, now, offset);
      OneServed(ms, i);
      Others();
      SlotsJoin(old(run), run, from, ks, {});
      assert ks + {} == ks;
      if Due(prev, now, interval, offset(ms[i])) {
        ghost var was := run;
        var _ := StartSlot(ms[i]);
        assert CameTo(run, from, ms[i]);
        SlotsJoin(was, run, from, ks, {ms[i]});
        assert ks + {ms[i]} == DueOf(ms[..i + 1], prev, now, offset);
      } else {
        assert ks == DueOf(ms[..i + 1], prev, now, offset);
      }
      CameToStays(old(run), run, from);
    }

    /** The manual checks running taken down. */
    method BeginList()
      requires Valid() && st.tick.Idle?
      modifies `st, `next, `run
      ensures Valid() && old(run) <= run && st.started == old(st.started) && old(st.store.Keys) <= st.store.Keys
      ensures st.tick.Took? && TookAt(run, |old(run)| - 1, st.tick.busy)
      ensures NoSlots(run, |old(run)| - 1)
    {
      Others();
      ghost var was := run;
      Do(TakeBusy);
      StepBeginsNone(was, run, TakeBusy);
      SlotsJoin(was, run, |old(run)| - 1, {}, {});
      assert run[|was| - 1].manuals == st.tick.busy;
      was := run;
      Others();
      SlotsJoin(was, run, |old(run)| - 1, {}, {});
    }

    /** The manual checks running taken down, then the requests of the enabled
        monitors listed. */
    method BeginTick() returns (ok: bool, ms: seq<Monitor>)
      requires Valid() && st.tick.Idle?
      modifies this
      ensures Valid() && old(run) <= run && st.started == old(st.started) && listings == old(listings) + 1
      ensures ok == !listFails(old(listings))
      ensures if ok then st.tick.Listed? && IsListing(st.tick.list, old(st.store), enabled(old(listings))) && InOrder(Less, ms)
              else st.tick.Idle? && Inv(st)
      ensures ok ==> forall now :: Served(ms, 0, now, old(st.started))
      ensures NoSlots(run, |old(run)| - 1)
      ensures ok ==> ListedAt(run, |old(run)| - 1, st.tick)
    {
      BeginList();
      ghost var was := run;
      ok, ms := !listFails(listings), [];
      var on := enabled(listings) * st.store.Keys;
      listings := listings + 1;
      if !ok {
        End();
        SlotsJoin(was, run, |old(run)| - 1, {}, {});
        return;
      }
      ListOn(on, |old(run)| - 1);
      ms := SortedSet(on);
      assert ms[0..] == ms;
    }

    method ListOn(on: set<Monitor>, ghost from: int)
      requires Valid() && st.tick.Took? && on <= st.store.Keys && 0 <= from < |run| && NoSlots(run, from) && TookAt(run, from, st.tick.busy)
      modifies `st, `next, `run
      ensures Valid() && old(run) <= run && st.started == old(st.started) && st.store == old(st.store)
      ensures st.tick.Listed? && st.tick.list.Keys == on == st.tick.todo
      ensures NoSlots(run, from) && ListedAt(run, from, st.tick)
    {
      Do(List(on));
      StepBeginsNone(old(run), run, List(on));
      SlotsJoin(old(run), run, from, {}, {});
      BusyStays(old(run), run, from);
      assert st.tick.list.Keys == on;
    }

    /** The checks of slots begun since state from are of monitors listed whose slot is
        due, one of each. */
    ghost predicate OnlyDueBegin(run: seq<State>, from: int, list: map<Monitor, Request>, prev: int, now: int, offset: Monitor -> int)
      requires interval > 0
    {
      SlotsWithin(run, from, set k | k in list && Due(prev, now, interval, offset(k)))
    }

    /** Each monitor listed whose slot is due has been come to since state from. */
    ghost predicate DueCameTo(run: seq<State>, from: int, list: map<Monitor, Request>, prev: int, now: int, offset: Monitor -> int)
      requires interval > 0
    {
      forall k {:trigger CameTo(run, from, k)} :: k in list && Due(prev, now, interval, offset(k)) ==> CameTo(run, from, k)
    }

    lemma {:induction false} DueStays(run: seq<State>, more: seq<State>, late: int, early: int, list: map<Monitor, Request>, prev: int, now: int,
                                      offset: Monitor -> int)
      requires interval > 0 && run <= more && early <= late && DueCameTo(run, late, list, prev, now, offset)
      ensures DueCameTo(more, early, list, prev, now, offset)
    {
      CameToStays(run, more, late);
      CameToSince(more, late, early);
      forall k | k in list && Due(prev, now, interval, offset(k))
        ensures CameTo(more, early, k)
      {
        assert CameTo(run, late, k);
        assert CameTo(more, late, k);
      }
    }

    /** The requests listed served, then the slots due. */
    method Serve(ms: seq<Monitor>, prev: int, now: int, offset: Monitor -> int)
      requires Valid() && InOrder(Less, ms) && Served(ms, 0, now, st.started)
      modifies `st, `next, `run
      ensures Valid() && old(run) <= run
      ensures st.tick.Listed? && st.tick.list == old(st.tick.list) && st.tick.busy == old(st.tick.busy)
      ensures ServedAll(st.tick, now, old(st.started), st.started)
      ensures DueCameTo(run, |old(run)| - 1, st.tick.list, prev, now, offset)
      ensures OnlyDueBegin(run, |old(run)| - 1, st.tick.list, prev, now, offset)
    {
      ServeAll(ms, now, st.started);
      EveryServed(ms, now, old(st.started));
      ghost var was := run;
      assert forall k :: k in st.tick.list <==> k in ms;
      StartSlots(ms, prev, now, offset);
      ServedDue(was, |old(run)| - 1, ms, prev, now, offset);
    }

    lemma {:induction false} ServedDue(was: seq<State>, from: int, ms: seq<Monitor>, prev: int, now: int, offset: Monitor -> int)
      requires interval > 0 && st.tick.Listed? && (forall k :: k in st.tick.list <==> k in ms)
      requires 0 <= from < |was| && was <= run && NoSlots(was, from) && CameToAll(|was| - 1, ms, |ms|, prev, now, offset)
      ensures DueCameTo(run, from, st.tick.list, prev, now, offset) && OnlyDueBegin(run, from, st.tick.list, prev, now, offset)
    {
      assert ms[..|ms|] == ms;
      assert DueCameTo(run, |was| - 1, st.tick.list, prev, now, offset);
      DueStays(run, run, |was| - 1, from, st.tick.list, prev, now, offset);
      SlotsJoin(was, run, from, {}, DueOf(ms, prev, now, offset));
      var due := set k | k in st.tick.list && Due(prev, now, interval, offset(k));
      assert forall k :: k in DueOf(ms, prev, now, offset) <==> k in due;
      assert {} + DueOf(ms, prev, now, offset) == due;
    }

    /** tick: it fails only when the listing does. Each request listed pending of a
        monitor not found busy, before the list was made, has its check begun, once,
        unless it is too old, and no other request's is; and each monitor listed whose
        slot falls in (prev, now] is come to, and no other's slot check begins. */
    method Tick(prev: int, now: int, offset: Monitor -> int) returns (ok: bool, ghost listed: Scheduler.Tick)
      requires Valid() && st.tick.Idle?
      modifies this
      ensures Valid() && old(run) <= run && st.tick.Idle? && Inv(st)
      ensures ok == !listFails(old(listings)) && listings == old(listings) + 1
      ensures ok ==> listed.Listed? && ListedAt(run, |old(run)| - 1, listed)
      ensures ok ==> enabled(old(listings)) * old(st.store.Keys) <= listed.list.Keys <= enabled(old(listings))
      ensures forall k, asked {:trigger Of(st.started, k, asked)} ::
                Of(st.started, k, asked) == Of(old(st.started), k, asked) +
                if ok && k in listed.list && k !in listed.busy && listed.list[k].asked == Some(asked) && now - asked <= 120 &&
                   (listed.list[k].finished.None? || listed.list[k].finished.value < asked) then 1 else 0
      ensures ok ==> forall k, j {:trigger CameTo(run, |old(run)| - 1, k), SlotIn(j, prev, now, interval, offset(k))} ::
                k in listed.list && SlotIn(j, prev, now, interval, offset(k)) ==> CameTo(run, |old(run)| - 1, k)
      ensures forall i, k {:trigger SlotBegins(run, i, k)} :: |old(run)| - 1 <= i && SlotBegins(run, i, k) ==>
                ok && k in listed.list && exists j :: SlotIn(j, prev, now, interval, offset(k))
      ensures forall i, j, k {:trigger SlotBegins(run, i, k), SlotBegins(run, j, k)} ::
                |old(run)| - 1 <= i < j && SlotBegins(run, i, k) ==> !SlotBegins(run, j, k)
    {
      var ms;
      ok, ms := BeginTick();
      listed := Idle;
      if ok {
        listed := st.tick;
        ServeAndEnd(ms, prev, now, offset, |old(run)| - 1);
        DueBySlots(run, |old(run)| - 1, listed.list, prev, now, offset);
        ServedMeans(listed, now);
      }
    }

    /** The tick but for its beginning. */
    method ServeAndEnd(ms: seq<Monitor>, prev: int, now: int, offset: Monitor -> int, ghost from: int)
      requires Valid() && InOrder(Less, ms) && Served(ms, 0, now, st.started)
      requires 0 <= from < |run| && NoSlots(run, from) && ListedAt(run, from, st.tick)
      modifies `st, `next, `run
      ensures Valid() && old(run) <= run && st.tick.Idle? && Inv(st)
      ensures ListedAt(run, from, old(st.tick)) && ServedAll(old(st.tick), now, old(st.started), st.started)
      ensures DueCameTo(run, from, old(st.tick.list), prev, now, offset) && OnlyDueBegin(run, from, old(st.tick.list), prev, now, offset)
    {
      ghost var t := st.tick;
      Serve(ms, prev, now, offset);
      ServedSame(st.tick, t, now, old(st.started), st.started);
      TickDue(old(run), run, from, t, prev, now, offset);
      ghost var was := run;
      End();
      TickEnds(was, run, from, t, prev, now, offset);
    }

    lemma {:induction false} ServedSame(a: Scheduler.Tick, b: Scheduler.Tick, now: int, before: map<(Monitor, int), nat>,
                                        started: map<(Monitor, int), nat>)
      requires a.Listed? && b.Listed? && a.list == b.list && a.busy == b.busy && ServedAll(a, now, before, started)
      ensures ServedAll(b, now, before, started)
    {
    }

    lemma {:induction false} ServedMeans(t: Scheduler.Tick, now: int)
      requires t.Listed?
      ensures forall k, asked {:trigger IsServed(t, k, asked, now)} :: IsServed(t, k, asked, now) <==>
                k in t.list && k !in t.busy && t.list[k].asked == Some(asked) && now - asked <= 120 &&
                (t.list[k].finished.None? || t.list[k].finished.value < asked)
    {
    }

    lemma {:induction false} TickDue(was: seq<State>, run: seq<State>, from: int, t: Scheduler.Tick, prev: int, now: int, offset: Monitor -> int)
      requires interval > 0 && 0 <= from < |was| && was <= run && t.Listed? && NoSlots(was, from) && ListedAt(was, from, t)
      requires DueCameTo(run, |was| - 1, t.list, prev, now, offset) && OnlyDueBegin(run, |was| - 1, t.list, prev, now, offset)
      ensures ListedAt(run, from, t) && DueCameTo(run, from, t.list, prev, now, offset) && OnlyDueBegin(run, from, t.list, prev, now, offset)
    {
      DueStays(run, run, |was| - 1, from, t.list, prev, now, offset);
      var ks := set k | k in t.list && Due(prev, now, interval, offset(k));
      SlotsJoin(was, run, from, {}, ks);
      assert {} + ks == ks;
      ListedStays(was, run, from, t);
    }

    lemma {:induction false} TickEnds(was: seq<State>, run: seq<State>, from: int, t: Scheduler.Tick, prev: int, now: int, offset: Monitor -> int)
      requires interval > 0 && 0 <= from < |was| && was <= run && t.Listed? && NoSlots(run, |was| - 1) && ListedAt(was, from, t)
      requires DueCameTo(was, from, t.list, prev, now, offset) && OnlyDueBegin(was, from, t.list, prev, now, offset)
      ensures ListedAt(run, from, t) && DueCameTo(run, from, t.list, prev, now, offset) && OnlyDueBegin(run, from, t.list, prev, now, offset)
    {
      DueStays(was, run, from, from, t.list, prev, now, offset);
      var ks := set k | k in t.list && Due(prev, now, interval, offset(k));
      SlotsJoin(was, run, from, ks, {});
      assert ks + {} == ks;
      ListedStays(was, run, from, t);
    }

    lemma {:induction false} DueBySlots(run: seq<State>, from: int, list: map<Monitor, Request>, prev: int, now: int, offset: Monitor -> int)
      requires interval > 0 && DueCameTo(run, from, list, prev, now, offset) && OnlyDueBegin(run, from, list, prev, now, offset)
      ensures forall k, j {:trigger CameTo(run, from, k), SlotIn(j, prev, now, interval, offset(k))} ::
                k in list && SlotIn(j, prev, now, interval, offset(k)) ==> CameTo(run, from, k)
      ensures forall i, k {:trigger SlotBegins(run, i, k)} :: from <= i && SlotBegins(run, i, k) ==>
                k in list && exists j :: SlotIn(j, prev, now, interval, offset(k))
    {
      forall k
        ensures Due(prev, now, interval, offset(k)) <==> exists j :: SlotIn(j, prev, now, interval, offset(k))
      {
        DueIsSlot(prev, now, interval, offset(k));
      }
    }

    method End()
      requires Valid() && !st.tick.Idle?
      modifies `st, `next, `run
      ensures Valid() && old(run) <= run && st.tick.Idle? && st.started == old(st.started) && Inv(st)
      ensures NoSlots(run, |old(run)| - 1)
    {
      Do(EndTick);
      StepBeginsNone(old(run), run, EndTick);
      Sound();
    }

    lemma {:induction false} EveryServed(ms: seq<Monitor>, now: int, before: map<(Monitor, int), nat>)
      requires Served(ms, |ms|, now, before)
      ensures ServedAll(st.tick, now, before, st.started)
    {
      assert ms[..|ms|] == ms;
    }
  }

  lemma {:induction false} OneServed(ms: seq<Monitor>, i: nat)
    requires InOrder(Less, ms) && i < |ms|
    ensures ms[i] !in ms[i + 1..] && ms[i] !in ms[..i]
    ensures forall k {:trigger k in ms[i..]} {:trigger k in ms[i + 1..]} :: k in ms[i..] <==> k == ms[i] || k in ms[i + 1..]
    ensures forall k {:trigger k in ms[..i + 1]} {:trigger k in ms[..i]} :: k in ms[..i + 1] <==> k == ms[i] || k in ms[..i]
  {
    assert ms[i..] == [ms[i]] + ms[i + 1..] && ms[..i + 1] == ms[..i] + [ms[i]];
    assert forall j :: i < j < |ms| ==> Less(ms[i], ms[j]);
    assert forall j :: 0 <= j < i ==> Less(ms[j], ms[i]);
  }

  /** What has begun once the tick has come to ms[i]. */
  lemma {:induction false} StartedNow(ms: seq<Monitor>, i: nat, now: int, before: map<(Monitor, int), nat>, a: Scheduler.Tick, b: Scheduler.Tick,
                                      was: map<(Monitor, int), nat>, started: map<(Monitor, int), nat>)
    requires InOrder(Less, ms) && i < |ms| && a.Listed? && b.Listed? && b == a.(todo := b.todo) && ms[i] in a.list
    requires StartedTo(ms, i, now, before, a, was)
    requires started == if Pending(a.list[ms[i]]) && ms[i] !in a.busy && !TooOld(a.list[ms[i]].asked.value, now)
                        then was[(ms[i], a.list[ms[i]].asked.value) := Of(was, ms[i], a.list[ms[i]].asked.value) + 1] else was
    ensures StartedTo(ms, i + 1, now, before, b, started)
  {
    OneServed(ms, i);
    forall k, asked
      ensures Of(started, k, asked) == Of(before, k, asked) + if k in ms[..i + 1] && IsServed(b, k, asked, now) then 1 else 0
    {
      assert Of(was, k, asked) == Of(before, k, asked) + if k in ms[..i] && IsServed(a, k, asked, now) then 1 else 0;
    }
  }

  /** The checks begun of the requests of ms[..i]. */
  ghost predicate StartedTo(ms: seq<Monitor>, i: nat, now: int, before: map<(Monitor, int), nat>, t: Scheduler.Tick, started: map<(Monitor, int), nat>)
    requires i <= |ms|
  {
    forall k, asked {:trigger Of(started, k, asked)} ::
      Of(started, k, asked) == Of(before, k, asked) + if k in ms[..i] && IsServed(t, k, asked, now) then 1 else 0
  }

  /** What a listing tells: the monitors on, of which those stored before it began are
      all there. */
  ghost predicate IsListing(list: map<Monitor, Request>, before: map<Monitor, Request>, on: set<Monitor>) {
    on * before.Keys <= list.Keys <= on
  }

  /** Check n of a slot of the monitor begins from a to b. */
  ghost predicate IsBegun(a: State, b: State, n: nat, k: Monitor) {
    n !in a.checks && b.checks == a.checks[n := SlotCheck(k, Checking)]
  }

  ghost predicate Begins(a: State, b: State, k: Monitor) {
    exists n :: IsBegun(a, b, n, k)
  }

  /** A check of a slot of k begins in the step after state i. */
  ghost predicate SlotBegins(run: seq<State>, i: int, k: Monitor) {
    0 <= i && i + 1 < |run| &&
    exists n :: n in run[i + 1].checks && n !in run[i].checks && run[i + 1].checks[n].SlotCheck? && run[i + 1].checks[n].k == k
  }

  /** The checks of slots begun since state from are of monitors in ks, one of each. */
  ghost predicate SlotsWithin(run: seq<State>, from: int, ks: set<Monitor>) {
    && (forall i, k {:trigger SlotBegins(run, i, k)} :: from <= i && SlotBegins(run, i, k) ==> k in ks)
    && (forall i, j, k {:trigger SlotBegins(run, i, k), SlotBegins(run, j, k)} ::
          from <= i < j && SlotBegins(run, i, k) ==> !SlotBegins(run, j, k))
  }

  ghost predicate NoSlots(run: seq<State>, from: int) {
    SlotsWithin(run, from, {})
  }

  lemma {:induction false} SlotBeginsIn(was: seq<State>, run: seq<State>, i: int, k: Monitor)
    requires was <= run && i + 1 < |was|
    ensures SlotBegins(run, i, k) <==> SlotBegins(was, i, k)
  {
    if 0 <= i { assert run[i] == was[i] && run[i + 1] == was[i + 1]; }
  }

  lemma {:induction false} SlotsJoin(was: seq<State>, run: seq<State>, from: int, ks: set<Monitor>, more: set<Monitor>)
    requires was <= run && 0 <= from < |was| && ks !! more
    requires SlotsWithin(was, from, ks) && SlotsWithin(run, |was| - 1, more)
    ensures SlotsWithin(run, from, ks + more)
    ensures ks == {} == more ==> NoSlots(run, from)
  {
    assert ks == {} && more == {} ==> ks + more == {};
    forall i, k | from <= i && SlotBegins(run, i, k)
      ensures if i + 1 < |was| then SlotBegins(was, i, k) && k in ks else k in more
    {
      if i + 1 < |was| { SlotBeginsIn(was, run, i, k); }
    }
  }

  /** But for the start of a slot's check no step begins one. */
  lemma {:induction false} StepBeginsNone(was: seq<State>, run: seq<State>, s: Step)
    requires was != [] && Enabled(was[|was| - 1], s) && run == was + [After(was[|was| - 1], s)] && !s.StartSlot?
    ensures NoSlots(run, |was| - 1)
  {
    var a, b := was[|was| - 1], After(was[|was| - 1], s);
    forall n | n in b.checks && n !in a.checks
      ensures !b.checks[n].SlotCheck?
    {
      if b.checks[n].SlotCheck? { OnlySlotStarts(a, s, n); }
    }
    assert run[|was| - 1] == a && run[|was|] == b && |run| == |was| + 1;
  }

  lemma {:induction false} OneBegins(was: seq<State>, run: seq<State>, k: Monitor)
    requires was != [] && was <= run
    requires run == was || (|run| == |was| + 1 && Begins(run[|was| - 1], run[|was|], k))
    ensures SlotsWithin(run, |was| - 1, {k})
  {
  }

  /** The manual checks going on were taken down in some state since state from. */
  ghost predicate TookAt(run: seq<State>, from: int, busy: set<Monitor>) {
    exists i {:trigger run[i]} :: from <= i < |run| && 0 <= i && busy == run[i].manuals
  }

  /** And the requests listed read in one that is no earlier. */
  ghost predicate ListedAt(run: seq<State>, from: int, t: Tick) {
    t.Listed? && exists i, j {:trigger run[i], run[j]} ::
      0 <= i <= j < |run| && from <= i && t.busy == run[i].manuals &&
      forall k :: k in t.list ==> k in run[j].store && run[j].store[k] == t.list[k]
  }

  lemma {:induction false} BusyStays(was: seq<State>, run: seq<State>, from: int)
    requires was != [] && was <= run && |run| == |was| + 1 && was[|was| - 1].tick.Took? && TookAt(was, from, was[|was| - 1].tick.busy)
    requires run[|was|].tick.Listed? && run[|was|].tick.busy == was[|was| - 1].tick.busy
    requires forall k :: k in run[|was|].tick.list ==> k in was[|was| - 1].store && was[|was| - 1].store[k] == run[|was|].tick.list[k]
    ensures ListedAt(run, from, run[|was|].tick)
  {
    var i :| from <= i < |was| && 0 <= i && was[|was| - 1].tick.busy == was[i].manuals;
    assert run[i] == was[i] && run[|was| - 1] == was[|was| - 1];
  }

  lemma {:induction false} ListedStays(was: seq<State>, run: seq<State>, from: int, t: Tick)
    requires was <= run && ListedAt(was, from, t)
    ensures ListedAt(run, from, t)
  {
    var i, j :| 0 <= i <= j < |was| && from <= i && t.busy == was[i].manuals &&
                forall k :: k in t.list ==> k in was[j].store && was[j].store[k] == t.list[k];
    assert run[i] == was[i] && run[j] == was[j];
  }

  /** In state i of the run the monitor's slot is come to: its check begins, if no other
      of the monitor goes on and there is a worker. */
  ghost predicate Tried(run: seq<State>, i: int, k: Monitor) {
    && 0 <= i < |run|
    && ((forall n :: n in run[i].checks ==> run[i].checks[n].k != k) && |Holding(run[i])| < 16 ==>
          i + 1 < |run| && Begins(run[i], run[i + 1], k))
  }

  ghost predicate CameTo(run: seq<State>, from: int, k: Monitor) {
    exists i {:trigger Tried(run, i, k)} :: from <= i && Tried(run, i, k)
  }

  lemma {:induction false} TriedStays(run: seq<State>, more: seq<State>, i: int, k: Monitor)
    requires Tried(run, i, k) && run <= more
    ensures Tried(more, i, k)
  {
    assert more[i] == run[i];
    if i + 1 < |run| { assert more[i + 1] == run[i + 1]; }
  }

  lemma {:induction false} CameToStays(run: seq<State>, more: seq<State>, from: int)
    requires run <= more
    ensures forall k {:trigger CameTo(more, from, k)} :: CameTo(run, from, k) ==> CameTo(more, from, k)
  {
    forall k | CameTo(run, from, k)
      ensures CameTo(more, from, k)
    {
      var i :| from <= i && Tried(run, i, k);
      TriedStays(run, more, i, k);
    }
  }

  lemma {:induction false} CameToSince(run: seq<State>, late: int, early: int)
    requires early <= late
    ensures forall k {:trigger CameTo(run, early, k)} :: CameTo(run, late, k) ==> CameTo(run, early, k)
  {
    forall k | CameTo(run, late, k)
      ensures CameTo(run, early, k)
    {
      var i :| late <= i && Tried(run, i, k);
    }
  }

  /** One check more begun for each request served, and none for any other. */
  ghost predicate ServedAll(t: Tick, now: int, before: map<(Monitor, int), nat>, started: map<(Monitor, int), nat>) {
    forall k, asked {:trigger Of(started, k, asked)} ::
      Of(started, k, asked) == Of(before, k, asked) + if IsServed(t, k, asked, now) then 1 else 0
  }

  /** The request of k asked for then is served by a tick at now. */
  predicate IsServed(t: Tick, k: Monitor, asked: int, now: int) {
    t.Listed? && k in t.list && Pending(t.list[k]) && k !in t.busy && t.list[k].asked.value == asked && !TooOld(asked, now)
  }
}
