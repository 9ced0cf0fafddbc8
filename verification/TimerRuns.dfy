/** What the timer engine promises over whole batches and whole runs. */
module TimerRuns {
  import opened Ordering
  import opened Timers
  import opened TimerBatch

  // ---------------------------------------------------------------- what one batch runs

  /** The operation unregisters or resets this timer. */
  predicate Hits(op: Op, p: Ptr) { op == Remove(p) || (op.Postpone? && op.p == p) }

  predicate HitBy(ops: seq<Op>, p: Ptr) { exists i :: 0 <= i < |ops| && Hits(ops[i], p) }

  /** The reference: the due timers in order, except those that an earlier callback of the batch
      unregistered or reset. It knows nothing of flags, index or queue. */
  function Expected(due: seq<Key>, i: nat, script: Script, done: seq<Op>): seq<Ptr>
    requires i <= |due|
    decreases |due| - i
  {
    if i == |due| then []
    else if HitBy(done, due[i].timer) then Expected(due, i + 1, script, done)
    else [due[i].timer] + Expected(due, i + 1, script, done + script(i))
  }

  /** Still waiting for its turn, untouched. */
  predicate Waiting(e: Engine, p: Ptr) { p in e.mem && e.mem[p].state == INEXPIRED }

  /** An operation takes exactly the timers it hits out of waiting. */
  lemma OpHits(e: Engine, op: Op, clock: Clock, p: Ptr)
    requires Inv(e) && Lawful(e, op) && Batched(e, p) && p != e.running
    ensures Waiting(Do(e, op, clock), p) <==> Waiting(e, p) && !Hits(op, p)
  {
    BatchedInMemory(e, p);
    assert MemoryRight(e, p);
    RegisteredInMemory(e);
    RawHits(e, op, clock, p);
  }

  lemma RawHits(e: Engine, op: Op, clock: Clock, p: Ptr)
    requires Lawful(e, op) && forall q :: q in e.timerExist ==> q in e.mem
    requires p in e.timerExist && p != NULL && e.mem[p].state.inExpired && !e.mem[p].state.inRunning
    ensures Waiting(DoRaw(e, op, clock), p) <==> Waiting(e, p) && !Hits(op, p)
  {
  }

  lemma {:induction false} OpsHit(e: Engine, ops: seq<Op>, clock: Clock, p: Ptr)
    requires Inv(e) && AllLawful(e, ops, clock) && Batched(e, p) && p != e.running
    ensures Waiting(DoAll(e, ops, clock), p) <==> Waiting(e, p) && !HitBy(ops, p)
    decreases |ops|
  {
    if ops != [] {
      OpHits(e, ops[0], clock, p);
      var e1 := Do(e, ops[0], clock);
      assert Batched(e1, p);
      OpsHit(e1, ops[1..], clock, p);
      HitByFirst(ops, p);
    }
  }

  lemma HitByFirst(ops: seq<Op>, p: Ptr)
    requires ops != []
    ensures HitBy(ops, p) <==> Hits(ops[0], p) || HitBy(ops[1..], p)
  {
    assert ops == [ops[0]] + ops[1..];
    HitByConcat([ops[0]], ops[1..], p);
    assert HitBy([ops[0]], p) <==> Hits([ops[0]][0], p);
  }

  lemma HitByConcat(a: seq<Op>, b: seq<Op>, p: Ptr)
    ensures HitBy(a + b, p) <==> HitBy(a, p) || HitBy(b, p)
  {
    if HitBy(a, p) {
      var i :| 0 <= i < |a| && Hits(a[i], p);
      assert Hits((a + b)[i], p);
    }
    if HitBy(b, p) {
      var i :| 0 <= i < |b| && Hits(b[i], p);
      assert Hits((a + b)[|a| + i], p);
    }
    if HitBy(a + b, p) {
      var i :| 0 <= i < |a + b| && Hits((a + b)[i], p);
      assert i < |a| ==> Hits(a[i], p);
      assert i >= |a| ==> Hits(b[i - |a|], p);
    }
  }

  /** Those still to come wait exactly when nothing done so far has hit them. */
  ghost predicate WaitingFrom(e: Engine, i: nat, done: seq<Op>) {
    forall j :: i <= j < |e.expired| ==> (Waiting(e, e.expired[j].timer) <==> !HitBy(done, e.expired[j].timer))
  }

  lemma TurnKeepsWaiting(e: Engine, i: nat, script: Script, clock: Clock, done: seq<Op>)
    requires Inv(e) && e.running == NULL && i < |e.expired| && TurnLawful(e, i, script(i), clock)
    requires WaitingFrom(e, i, done)
    ensures var (e', runs) := Turn(e, i, script(i), clock);
      && (runs <==> !HitBy(done, e.expired[i].timer))
      && WaitingFrom(e', i + 1, if runs then done + script(i) else done)
  {
    var p := e.expired[i].timer;
    assert Batched(e, p);
    BatchedInMemory(e, p);
    var (e', runs) := Turn(e, i, script(i), clock);
    assert runs <==> Waiting(e, p);
    if runs {
      forall j | i + 1 <= j < |e.expired|
        ensures Waiting(e', e.expired[j].timer) <==> !HitBy(done + script(i), e.expired[j].timer)
      {
        LaterTurn(e, i, script(i), clock, j);
        HitByConcat(done, script(i), e.expired[j].timer);
      }
    }
  }

  /** What a callback that runs does to the timers still to come. */
  lemma LaterTurn(e: Engine, i: nat, ops: seq<Op>, clock: Clock, j: nat)
    requires Inv(e) && e.running == NULL && i < j < |e.expired| && TurnLawful(e, i, ops, clock)
    requires Waiting(e, e.expired[i].timer)
    ensures Waiting(Turn(e, i, ops, clock).0, e.expired[j].timer) <==>
            Waiting(e, e.expired[j].timer) && !HitBy(ops, e.expired[j].timer)
  {
    var p, q := e.expired[i].timer, e.expired[j].timer;
    assert Batched(e, p);
    BatchedInMemory(e, p);
    RunningInv(e, Enter(e, p), p, p);
    assert Batched(Enter(e, p), q) by { assert Enter(e, p).expired[j].timer == q; }
    OpsHit(Enter(e, p), ops, clock, q);
  }

  lemma {:induction false} RunsExpected(e: Engine, i: nat, script: Script, clock: Clock, done: seq<Op>)
    requires Inv(e) && e.running == NULL && i <= |e.expired| && BatchLawful(e, i, script, clock)
    requires WaitingFrom(e, i, done)
    ensures RunBatch(e, i, script, clock).1 == Expected(e.expired, i, script, done)
    decreases |e.expired| - i
  {
    if i < |e.expired| {
      TurnKeepsWaiting(e, i, script, clock, done);
      var (e1, runs) := Turn(e, i, script(i), clock);
      RunsExpected(e1, i + 1, script, clock, if runs then done + script(i) else done);
    }
  }

  // ---------------------------------------------------------------- Process

  /** The engine between events. */
  ghost predicate Idle(e: Engine) {
    Inv(e) && e.expired == [] && e.running == NULL
  }

  ghost function Start(e: Engine, clock: Clock): (e': Engine)
    requires Idle(e)
    ensures Inv(e') && e'.running == NULL
  {
    var e1 := e.(tick := e.tick + 1);
    SameParts(e, e1);
    TakeDueKeeps(e1, clock(e.tick));
    TakeDue(e1, clock(e.tick))
  }

  /** The kernel timer and the clock reading play no part in ownership. */
  lemma SameParts(e: Engine, e': Engine)
    requires Inv(e) && e' == e.(armed := e'.armed, tick := e'.tick)
    ensures Inv(e')
  {
    forall k | k in e'.timers ensures QueuedRight(e', k) { assert QueuedRight(e, k); }
    forall i | 0 <= i < |e'.expired| ensures BatchedRight(e', e'.expired[i]) { assert BatchedRight(e, e.expired[i]); }
    forall p | p in e'.timerExist
      ensures Key(e'.timerExist[p], p) in e'.timers || Batched(e', p)
    {
      assert Key(e.timerExist[p], p) in e.timers || Batched(e, p);
    }
    forall p | p in e'.mem ensures MemoryRight(e', p) { assert MemoryRight(e, p); }
    if e'.running != NULL { assert Batched(e, e.running); }
  }

  ghost predicate ProcessLawful(e: Engine, script: Script, clock: Clock)
    requires Idle(e)
  {
    BatchLawful(Start(e, clock), 0, script, clock)
  }

  /** One wake-up: the engine afterwards, and the timers whose callbacks ran, in order. */
  ghost function Process(e: Engine, script: Script, clock: Clock): (r: (Engine, seq<Ptr>))
    requires Idle(e) && ProcessLawful(e, script, clock) && Dates(clock)
    ensures Idle(r.0)
  {
    var (e2, ran) := RunBatch(Start(e, clock), 0, script, clock);
    var e3 := SettleAll(e2, clock);
    SameParts(e3, ResetTd(e3, clock));
    (ResetTd(e3, clock), ran)
  }

  /** A wake-up runs, in key order and once each, exactly the timers that were due when it began
      and that no earlier callback of the batch unregistered or reset. What callbacks register
      meanwhile does not run in it, so a batch is never longer than what was due. */
  lemma BatchExact(e: Engine, script: Script, clock: Clock)
    requires Idle(e) && ProcessLawful(e, script, clock) && Dates(clock)
    ensures Process(e, script, clock).1 == Expected(DueKeys(e.timers, clock(e.tick)), 0, script, [])
  {
    var e1 := Start(e, clock);
    var ahead := e.(tick := e.tick + 1);
    SameParts(e, ahead);
    TakeDueKeeps(ahead, clock(e.tick));
    assert e1.expired == DueKeys(e.timers, clock(e.tick));
    assert WaitingFrom(e1, 0, []);
    RunsExpected(e1, 0, script, clock, []);
  }

  /** The reference lists due timers only, each at most once and in their order. */
  lemma {:induction false} ExpectedIsSublist(due: seq<Key>, i: nat, script: Script, done: seq<Op>) returns (at: seq<nat>)
    requires i <= |due|
    ensures |at| == |Expected(due, i, script, done)| <= |due| - i
    ensures forall a :: 0 <= a < |at| ==> i <= at[a] < |due| && due[at[a]].timer == Expected(due, i, script, done)[a]
    ensures forall a, b :: 0 <= a < b < |at| ==> at[a] < at[b]
    decreases |due| - i
  {
    if i == |due| {
      at := [];
    } else if HitBy(done, due[i].timer) {
      at := ExpectedIsSublist(due, i + 1, script, done);
    } else {
      var rest := ExpectedIsSublist(due, i + 1, script, done + script(i));
      at := [i] + rest;
    }
  }

  // ---------------------------------------------------------------- Reset of a queued timer

  /** Why callers must not Reset a queued timer: when its key comes due it is taken from the queue
      but will not run, whatever time it was reset to. */
  lemma ResetWhileQueuedNeverRuns(e: Engine, k: Key, when: int, now: int)
    requires Inv(e) && e.expired == [] && k in e.timers && k.when <= now
    ensures k.timer in e.mem
    ensures var e' := TakeDue(Reset(e, k.timer, when), now);
      && k in e'.expired && (forall w :: Key(w, k.timer) !in e'.timers)
      && !Waiting(e', k.timer) && e'.mem[k.timer].state == State(true, true, false, false, false)
  {
    assert QueuedRight(e, k);
    var e1 := Reset(e, k.timer, when);
    TakeDueTook(e1, now);
    var e' := TakeDue(e1, now);
    assert k in Due(e1.timers, now);
    forall w
      ensures Key(w, k.timer) !in e'.timers
    {
      if Key(w, k.timer) in e.timers { SameTimerSameKey(e, Key(w, k.timer), k); }
    }
  }

  /** Settling the batch neither queues it nor frees it. */
  lemma ResetWhileQueuedIsLost(e: Engine, clock: Clock)
    requires e.expired != [] && e.expired[0].timer in e.mem
    requires e.mem[e.expired[0].timer].state == State(true, true, false, false, false)
    ensures var e' := SettleRaw(e, clock);
      e'.timers == e.timers && e'.timerExist == e.timerExist && e'.mem.Keys == e.mem.Keys
      && e'.mem[e.expired[0].timer].state == State(true, true, false, false, false) && e'.expired == e.expired[1..]
  {
  }

  /** In memory and in the index, with a state word that says it is queued, but in no queue. */
  ghost predicate Lost(e: Engine, p: Ptr) {
    && p != NULL && p in e.mem && p in e.timerExist && e.mem[p].state == State(true, true, false, false, false)
    && (forall w :: Key(w, p) !in e.timers) && !Batched(e, p)
  }

  lemma LostOnceSettled(e: Engine, p: Ptr, clock: Clock)
    requires |e.expired| == 1 && e.expired[0].timer == p && p != NULL && p in e.mem && p in e.timerExist
    requires e.mem[p].state == State(true, true, false, false, false) && forall w :: Key(w, p) !in e.timers
    ensures Lost(ResetTd(SettleRaw(e, clock), clock), p)
  {
    ResetWhileQueuedIsLost(e, clock);
    assert SettleRaw(e, clock).expired == [];
  }

  /** A whole wake-up at which this timer is the only one due: its callback does not run, and the
      timer is lost. */
  lemma WakeUpLoses(e: Engine, k: Key, when: int, now: int, clock: Clock) returns (e1: Engine)
    requires Inv(e) && e.expired == [] && k in e.timers && k.when <= now && DueKeys(e.timers, now) == [k]
    ensures e1.expired == [k] && !Waiting(e1, k.timer) && k.timer in e1.mem
    ensures Lost(ResetTd(SettleRaw(e1, clock), clock), k.timer)
    ensures k.timer in e.mem && e1 == TakeDue(Reset(e, k.timer, when), now)
  {
    ResetWhileQueuedNeverRuns(e, k, when, now);
    e1 := TakeDue(Reset(e, k.timer, when), now);
    TakenAlone(e, Reset(e, k.timer, when), k, now);
    LostOnceSettled(e1, k.timer, clock);
  }

  lemma TakenAlone(e: Engine, r: Engine, k: Key, now: int)
    requires Inv(e) && e.expired == [] && k in e.timers && DueKeys(e.timers, now) == [k]
    requires r == e.(mem := r.mem)
    ensures TakeDue(r, now).expired == [k] && TakeDue(r, now).timerExist == e.timerExist
    ensures k.timer != NULL && k.timer in e.timerExist
  {
    assert QueuedRight(e, k) && MemoryRight(e, k.timer);
    assert TakeDue(r, now).expired == [] + [k];
  }

  /** And it stays lost for good: it cannot be registered again, and nothing but unregistering or
      freeing it changes that; in particular no Reset, no later wake-up and no other timer. */
  lemma LostStaysLost(e: Engine, p: Ptr, op: Op, clock: Clock)
    requires Lost(e, p) && Lawful(e, op) && forall q :: q in e.timerExist ==> q in e.mem
    requires op != Remove(p) && op != Release(p)
    ensures Lost(DoRaw(e, op, clock), p)
    ensures Register(e, p, clock) == (e, false)
  {
    match op
    case Add(q) => LostThroughRegister(e, p, q, clock);
    case Remove(q) => LostThroughUnregister(e, p, q, clock);
    case _ =>
  }

  lemma LostThroughTakeDue(e: Engine, p: Ptr, now: int)
    requires Lost(e, p)
    ensures Lost(TakeDue(e, now), p)
  {
    var e' := TakeDue(e, now);
    forall i | 0 <= i < |e'.expired|
      ensures e'.expired[i].timer != p
    {
      if i >= |e.expired| {
        var k := DueKeys(e.timers, now)[i - |e.expired|];
        assert k in DueKeys(e.timers, now) && k == Key(k.when, k.timer);
      } else {
        assert Batched(e, e.expired[i].timer);
      }
    }
  }

  lemma LostThroughSettle(e: Engine, p: Ptr, clock: Clock)
    requires Lost(e, p) && e.expired != [] && e.expired[0].timer in e.mem
    ensures Lost(SettleRaw(e, clock), p)
  {
    assert Batched(e, e.expired[0].timer);
    var q, rest := e.expired[0].timer, e.(expired := e.expired[1..]);
    forall i | 0 <= i < |rest.expired|
      ensures rest.expired[i].timer != p
    {
      assert Batched(e, e.expired[i + 1].timer);
    }
    if !e.mem[q].state.willRemoved && (e.mem[q].repeats || e.mem[q].state.shouldAdded) {
      var s := e.mem[q].state.(inExpired := false);
      if e.mem[q].repeats {
        var t := e.mem[q].(expiration := clock(e.tick) + e.mem[q].interval, state := s.(shouldAdded := true));
        LostThroughRegister(rest.(mem := rest.mem[q := t], tick := e.tick + 1), p, q, clock);
      } else {
        LostThroughRegister(rest.(mem := rest.mem[q := e.mem[q].(state := s)], tick := e.tick), p, q, clock);
      }
    }
  }

  lemma LostThroughRegister(e: Engine, p: Ptr, q: Ptr, clock: Clock)
    requires Lost(e, p) && (q == NULL || q in e.mem)
    ensures Lost(Register(e, q, clock).0, p)
  {
    var e' := Register(e, q, clock).0;
    assert e'.expired == e.expired;
    assert Batched(e', p) == Batched(e, p);
  }

  lemma LostThroughUnregister(e: Engine, p: Ptr, q: Ptr, clock: Clock)
    requires Lost(e, p) && q != p && (q in e.timerExist ==> q in e.mem)
    ensures Lost(Unregister(e, q, clock).0, p)
  {
    var e' := Unregister(e, q, clock).0;
    assert e'.expired == e.expired;
    assert Batched(e', p) == Batched(e, p);
  }

  // ---------------------------------------------------------------- the kernel timer

  /** While anything is queued, the kernel timer was set, from the latest reading it used, to the
      earliest queued time, but at least 100 microseconds ahead. */
  ghost predicate KernelRight(e: Engine) {
    e.timers != {} ==>
      && e.armed.Armed? && 0 <= e.armed.nsec < 1_000_000_000 && e.armed.nsec % 1000 == 0 && e.armed.sec >= 0
      && var ahead := First(e.timers).when - e.armed.reading;
         e.armed.sec * 1_000_000 + e.armed.nsec / 1000 == if ahead < 100 then 100 else ahead
  }

  lemma ResetTdRight(e: Engine, clock: Clock)
    ensures KernelRight(ResetTd(e, clock))
    ensures ResetTd(e, clock).armed.Armed? && (ResetTd(e, clock).armed.sec > 0 || ResetTd(e, clock).armed.nsec > 0)
    ensures ResetTd(e, clock).armed.reading == clock(ResetTd(e, clock).tick - 1)
    ensures e.timers == {} ==>
      var armed, ahead := ResetTd(e, clock).armed, clock(e.tick) + 100_000_000 - clock(e.tick + 1);
      armed.sec * 1_000_000 + armed.nsec / 1000 == if ahead < 100 then 100 else ahead
  {
  }

  /** Every operation leaves the kernel timer right, re-arming it whenever the queue changes. */
  lemma DoKernel(e: Engine, op: Op, clock: Clock)
    requires Inv(e) && Lawful(e, op) && KernelRight(e)
    ensures KernelRight(Do(e, op, clock)) && Rearmed(e, Do(e, op, clock), clock)
  {
    RegisteredInMemory(e);
    if op.Add? {
      RegisterKernel(e, op.p, clock);
    } else if op.Remove? {
      UnregisterKernel(e, op.p, clock);
    } else {
      MemoryOnly(e, op, clock);
      QuietKernel(e, Do(e, op, clock));
    }
  }

  lemma MemoryOnly(e: Engine, op: Op, clock: Clock)
    requires Inv(e) && Lawful(e, op) && !op.Add? && !op.Remove?
    ensures Do(e, op, clock).timers == e.timers && Do(e, op, clock).armed == e.armed
  {
    RegisteredInMemory(e);
    assert DoRaw(e, op, clock).timers == e.timers && DoRaw(e, op, clock).armed == e.armed;
  }

  /** When the queue changed, the kernel timer was set again from the latest clock reading. */
  ghost predicate Rearmed(e: Engine, e': Engine, clock: Clock) {
    e'.timers != e.timers ==> e'.armed.Armed? && e'.tick > 0 && e'.armed.reading == clock(e'.tick - 1)
  }

  lemma QuietKernel(e: Engine, e': Engine)
    requires KernelRight(e) && e'.timers == e.timers && e'.armed == e.armed
    ensures KernelRight(e') && forall clock :: Rearmed(e, e', clock)
  {
  }

  /** A timer that could be queued is not in the index yet, so nothing of it is in the queue. */
  lemma FreeIsUnindexed(e: Engine, p: Ptr)
    requires Inv(e) && p in e.mem && !e.mem[p].state.inExpired && !e.mem[p].state.inQueued
    ensures p !in e.timerExist && forall w :: Key(w, p) !in e.timers
  {
    ExactlyOnePlace(e, p);
    if Batched(e, p) { BatchedInMemory(e, p); }
    forall w
      ensures Key(w, p) !in e.timers
    {
      assert Key(w, p) in e.timers ==> QueuedRight(e, Key(w, p));
    }
  }

  lemma RegisterKernel(e: Engine, p: Ptr, clock: Clock)
    requires Inv(e) && KernelRight(e) && (p == NULL || p in e.mem)
    ensures var e' := Register(e, p, clock).0;
      KernelRight(e') && Rearmed(e, e', clock)
  {
    if p != NULL && !e.mem[p].state.inExpired && !e.mem[p].state.inQueued {
      FreeIsUnindexed(e, p);
      EnqueueKernel(e, p, clock);
    }
  }

  lemma EnqueueKernel(e: Engine, p: Ptr, clock: Clock)
    requires KernelRight(e) && p in e.mem && p !in e.timerExist && Key(e.mem[p].expiration, p) !in e.timers
    ensures var e' := Register(e, p, clock).0;
      KernelRight(e') && Rearmed(e, e', clock)
  {
    var when := e.mem[p].expiration;
    ResetTdRight(SetState(e.(timers := e.timers + {Key(when, p)}, timerExist := e.timerExist[p := when]), p, INQUEUED), clock);
  }

  lemma UnregisterKernel(e: Engine, p: Ptr, clock: Clock)
    requires Inv(e) && KernelRight(e) && (p in e.timerExist ==> p in e.mem)
    ensures var e' := Unregister(e, p, clock).0;
      KernelRight(e') && Rearmed(e, e', clock)
  {
    if p != NULL && p in e.timerExist && !e.mem[p].state.inRunning && !e.mem[p].state.inExpired {
      ResetTdRight(Drop(e.(timers := e.timers - {Key(e.timerExist[p], p)}), p), clock);
    }
  }

  // ---------------------------------------------------------------- whole runs

  datatype Event = Call(op: Op) | WakeUp(script: Script)

  ghost predicate EventLawful(e: Engine, ev: Event, clock: Clock)
    requires Idle(e)
  {
    match ev
    case Call(op) => Lawful(e, op)
    case WakeUp(script) => ProcessLawful(e, script, clock)
  }

  ghost function Handle(e: Engine, ev: Event, clock: Clock): (e': Engine)
    requires Idle(e) && EventLawful(e, ev, clock) && Dates(clock)
    ensures Idle(e')
  {
    match ev
    case Call(op) => Do(e, op, clock)
    case WakeUp(script) => Process(e, script, clock).0
  }

  ghost predicate RunLawful(e: Engine, events: seq<Event>, clock: Clock)
    requires Idle(e) && Dates(clock)
    decreases |events|
  {
    events == [] || (EventLawful(e, events[0], clock) && RunLawful(Handle(e, events[0], clock), events[1..], clock))
  }

  ghost function Run(e: Engine, events: seq<Event>, clock: Clock): (e': Engine)
    requires Idle(e) && Dates(clock) && RunLawful(e, events, clock)
    ensures Idle(e')
    decreases |events|
  {
    if events == [] then e else Run(Handle(e, events[0], clock), events[1..], clock)
  }

  const NEW_ENGINE := Engine(map[], {}, map[], [], NULL, Never, 0)

  lemma {:induction false} RunKernel(e: Engine, events: seq<Event>, clock: Clock)
    requires Idle(e) && Dates(clock) && RunLawful(e, events, clock) && KernelRight(e)
    ensures KernelRight(Run(e, events, clock))
    decreases |events|
  {
    if events != [] {
      var e1 := Handle(e, events[0], clock);
      HandleKernel(e, events[0], clock);
      RunKernel(e1, events[1..], clock);
    }
  }

  lemma HandleKernel(e: Engine, ev: Event, clock: Clock)
    requires Idle(e) && EventLawful(e, ev, clock) && Dates(clock) && KernelRight(e)
    ensures KernelRight(Handle(e, ev, clock))
  {
    match ev
    case Call(op) => DoKernel(e, op, clock);
    case WakeUp(script) =>
      var (e2, _) := RunBatch(Start(e, clock), 0, script, clock);
      ResetTdRight(SettleAll(e2, clock), clock);
  }

  /** Ownership over runs: after any sequence of calls and wake-ups, with callbacks doing what they
      like within the law, the registered timers are exactly those in the queue, once each and
      under the key that the index gives; all are in memory; and the kernel timer is right. */
  lemma Ownership(events: seq<Event>, clock: Clock)
    requires Dates(clock) && RunLawful(NEW_ENGINE, events, clock)
    ensures var e := Run(NEW_ENGINE, events, clock);
      && (forall p :: p in e.timerExist <==> exists w :: Key(w, p) in e.timers)
      && (forall k :: k in e.timers ==> k.timer in e.timerExist && e.timerExist[k.timer] == k.when && k.timer in e.mem)
      && e.expired == [] && e.running == NULL && KernelRight(e)
  {
    RunKernel(NEW_ENGINE, events, clock);
    var e := Run(NEW_ENGINE, events, clock);
    forall p
      ensures p in e.timerExist <==> exists w :: Key(w, p) in e.timers
    {
      ExactlyOnePlace(e, p);
    }
    forall k | k in e.timers
      ensures k.timer in e.timerExist && e.timerExist[k.timer] == k.when && k.timer in e.mem
    {
      assert QueuedRight(e, k);
    }
  }
}
