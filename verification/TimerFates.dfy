/** What becomes of each timer: a registered one runs when its time has come, and after a batch each
    of its timers is where its callbacks asked for it to be.
 */
module TimerFates {
  import opened Ordering
  import opened Timers
  import opened TimerBatch
  import opened TimerRuns

  // ---------------------------------------------------------------- one operation

  /** A timer that registering would queue: in memory, not registered, with a valid time. */
  predicate Registrable(e: Engine, p: Ptr) {
    p != NULL && p in e.mem && p !in e.timerExist && e.mem[p].expiration > 0
  }

  /** Registering queues exactly the registrable timers, each under its own time, and says so; a timer
      that is running is noted to be registered anew, if it was not unregistered meanwhile; anything
      else is refused. */
  lemma RegisterExactly(e: Engine, p: Ptr, clock: Clock)
    requires Inv(e) && (p == NULL || p in e.mem)
    ensures var (e', ok) := Register(e, p, clock);
      && (ok <==> Registrable(e, p) || (p != NULL && p == e.running && !e.mem[p].state.willRemoved))
      && (if Registrable(e, p) then
            && e'.timers == e.timers + {Key(e.mem[p].expiration, p)}
            && e'.timerExist == e.timerExist[p := e.mem[p].expiration]
            && e'.mem == e.mem[p := e.mem[p].(state := INQUEUED)]
          else
            e'.timers == e.timers && e'.timerExist == e.timerExist)
  {
    if p != NULL {
      ExactlyOnePlace(e, p);
      assert MemoryRight(e, p);
      if Batched(e, p) {
        BatchedInMemory(e, p);
        BatchedValid(e, p);
      } else if p in e.timerExist {
        assert QueuedRight(e, Key(e.timerExist[p], p));
      } else {
        FreeIsUnindexed(e, p);
      }
    }
  }

  lemma BatchedValid(e: Engine, p: Ptr)
    requires Inv(e) && Batched(e, p)
    ensures p in e.mem && e.mem[p].expiration > 0 && e.mem[p].state.inExpired && !e.mem[p].state.inQueued
  {
    var b :| 0 <= b < |e.expired| && e.expired[b].timer == p;
    assert BatchedRight(e, e.expired[b]);
  }

  /** Unregistering succeeds exactly for registered timers. A queued one is gone at once, from queue,
      index and memory; a batched one stays, marked; and nothing else is touched. */
  lemma UnregisterExactly(e: Engine, p: Ptr, clock: Clock)
    requires Inv(e)
    ensures p in e.timerExist ==> p in e.mem
    ensures var (e', ok) := Unregister(e, p, clock);
      && (ok <==> p in e.timerExist)
      && (if p !in e.timerExist then e' == e
          else if Batched(e, p) then e' == e.(mem := e.mem[p := e.mem[p].(state := e.mem[p].state.(willRemoved := true))])
          else
            && e'.timers == e.timers - {Key(e.timerExist[p], p)} && (forall w :: Key(w, p) !in e'.timers)
            && e'.timerExist == e.timerExist - {p} && e'.mem == e.mem - {p})
  {
    ExactlyOnePlace(e, p);
    if p in e.timerExist {
      assert MemoryRight(e, p);
      if Batched(e, p) {
        BatchedValid(e, p);
      } else {
        assert QueuedRight(e, Key(e.timerExist[p], p));
      }
    }
  }

  // ---------------------------------------------------------------- the fate of a batched timer

  /** What the callbacks have asked of a timer of the batch so far: its next time, whether it is to be
      queued again, and whether it was unregistered. */
  datatype Mark = Mark(when: int, wanted: bool, gone: bool)

  /** The reference: `own` says that the operation comes from the timer's own callback. */
  function MarkOp(op: Op, p: Ptr, own: bool, m: Mark): Mark {
    match op
    case Remove(q) => if q == p then m.(gone := true) else m
    case Postpone(q, when) => if q == p && !m.gone then m.(when := when, wanted := true) else m
    case Add(q) => if q == p && own && !m.gone then m.(wanted := true) else m
    case _ => m
  }

  function MarkOps(ops: seq<Op>, p: Ptr, own: bool, m: Mark): Mark
    decreases |ops|
  {
    if ops == [] then m else MarkOps(ops[1..], p, own, MarkOp(ops[0], p, own, m))
  }

  /** Through the batch, from the i-th timer on; `done` is what earlier callbacks did. */
  function MarkBatch(due: seq<Key>, i: nat, script: Script, done: seq<Op>, p: Ptr, m: Mark): Mark
    requires i <= |due|
    decreases |due| - i
  {
    if i == |due| then m
    else if HitBy(done, due[i].timer) then MarkBatch(due, i + 1, script, done, p, m)
    else MarkBatch(due, i + 1, script, done + script(i), p, MarkOps(script(i), p, due[i].timer == p, m))
  }

  /** The timer's fields say what was asked. */
  ghost predicate Shows(t: Timer, m: Mark) {
    t.expiration == m.when && t.state.shouldAdded == m.wanted && t.state.willRemoved == m.gone
  }

  ghost predicate Tracked(e: Engine, p: Ptr, repeats: bool, interval: int, m: Mark) {
    p in e.mem && Shows(e.mem[p], m) && e.mem[p].repeats == repeats && e.mem[p].interval == interval
  }

  lemma OpTracks(e: Engine, op: Op, clock: Clock, p: Ptr, repeats: bool, interval: int, m: Mark)
    requires Inv(e) && Lawful(e, op) && Batched(e, p) && Tracked(e, p, repeats, interval, m)
    ensures Tracked(Do(e, op, clock), p, repeats, interval, MarkOp(op, p, p == e.running, m))
  {
    BatchedInMemory(e, p);
    BatchedValid(e, p);
    assert MemoryRight(e, p);
    RegisteredInMemory(e);
    RawTracks(e, op, clock, p, repeats, interval, m);
  }

  lemma RawTracks(e: Engine, op: Op, clock: Clock, p: Ptr, repeats: bool, interval: int, m: Mark)
    requires Lawful(e, op) && forall q :: q in e.timerExist ==> q in e.mem
    requires p in e.timerExist && p != NULL && e.mem[p].state.inExpired && e.mem[p].expiration > 0
    requires (e.mem[p].state.inRunning <==> p == e.running) && Tracked(e, p, repeats, interval, m)
    ensures Tracked(DoRaw(e, op, clock), p, repeats, interval, MarkOp(op, p, p == e.running, m))
  {
  }

  lemma {:induction false} OpsTrack(e: Engine, ops: seq<Op>, clock: Clock, p: Ptr, repeats: bool, interval: int, m: Mark)
    requires Inv(e) && AllLawful(e, ops, clock) && Batched(e, p) && Tracked(e, p, repeats, interval, m)
    ensures Tracked(DoAll(e, ops, clock), p, repeats, interval, MarkOps(ops, p, p == e.running, m))
    decreases |ops|
  {
    if ops != [] {
      OpTracks(e, ops[0], clock, p, repeats, interval, m);
      var e1 := Do(e, ops[0], clock);
      assert Batched(e1, p);
      OpsTrack(e1, ops[1..], clock, p, repeats, interval, MarkOp(ops[0], p, p == e.running, m));
    }
  }

  /** A callback that runs. */
  lemma TurnTracks(e: Engine, i: nat, ops: seq<Op>, clock: Clock, p: Ptr, repeats: bool, interval: int, m: Mark)
    requires Inv(e) && e.running == NULL && i < |e.expired| && TurnLawful(e, i, ops, clock)
    requires Turn(e, i, ops, clock).1 && Batched(e, p) && Tracked(e, p, repeats, interval, m)
    ensures Tracked(Turn(e, i, ops, clock).0, p, repeats, interval, MarkOps(ops, p, e.expired[i].timer == p, m))
  {
    var q := e.expired[i].timer;
    assert Batched(e, q);
    BatchedInMemory(e, q);
    RunningInv(e, Enter(e, q), q, q);
    var e1 := Enter(e, q);
    assert Batched(e1, p);
    OpsTrack(e1, ops, clock, p, repeats, interval, m);
    var e2 := DoAll(e1, ops, clock);
    assert Batched(e2, q) by { assert e2.expired[i].timer == q; }
    BatchedInMemory(e2, q);
  }

  lemma {:induction false} BatchTracks(e: Engine, i: nat, script: Script, clock: Clock, done: seq<Op>,
                                       p: Ptr, repeats: bool, interval: int, m: Mark) returns (e': Engine, m': Mark)
    requires Inv(e) && e.running == NULL && i <= |e.expired| && BatchLawful(e, i, script, clock)
    requires WaitingFrom(e, i, done) && Batched(e, p) && Tracked(e, p, repeats, interval, m)
    ensures e' == RunBatch(e, i, script, clock).0 && m' == MarkBatch(e.expired, i, script, done, p, m)
    ensures Tracked(e', p, repeats, interval, m')
    decreases |e.expired| - i
  {
    if i == |e.expired| {
      e', m' := e, m;
    } else {
      var e1 := Turn(e, i, script(i), clock).0;
      var (done1, m1) := Onward(e.expired[i].timer, script(i), done, p, m);
      StepTracks(e, i, script, clock, done, p, repeats, interval, m);
      SameBatched(e, e1, p);
      e', m' := BatchTracks(e1, i + 1, script, clock, done1, p, repeats, interval, m1);
      RunBatchOnward(e, i, script, clock);
      MarkBatchOnward(e.expired, i, script, done, p, m);
    }
  }

  lemma RunBatchOnward(e: Engine, i: nat, script: Script, clock: Clock)
    requires Inv(e) && e.running == NULL && i < |e.expired| && BatchLawful(e, i, script, clock)
    ensures RunBatch(e, i, script, clock).0 == RunBatch(Turn(e, i, script(i), clock).0, i + 1, script, clock).0
  {
  }

  lemma MarkBatchOnward(due: seq<Key>, i: nat, script: Script, done: seq<Op>, p: Ptr, m: Mark)
    requires i < |due|
    ensures var (done1, m1) := Onward(due[i].timer, script(i), done, p, m);
      MarkBatch(due, i, script, done, p, m) == MarkBatch(due, i + 1, script, done1, p, m1)
  {
  }

  lemma SameBatched(e: Engine, e': Engine, p: Ptr)
    requires Batched(e, p) && e'.expired == e.expired
    ensures Batched(e', p)
  {
  }

  /** What one turn of the batch adds to what was done and asked, by the reference. */
  function Onward(q: Ptr, ops: seq<Op>, done: seq<Op>, p: Ptr, m: Mark): (seq<Op>, Mark) {
    if HitBy(done, q) then (done, m) else (done + ops, MarkOps(ops, p, q == p, m))
  }

  lemma StepTracks(e: Engine, i: nat, script: Script, clock: Clock, done: seq<Op>,
                   p: Ptr, repeats: bool, interval: int, m: Mark)
    requires Inv(e) && e.running == NULL && i < |e.expired| && TurnLawful(e, i, script(i), clock)
    requires WaitingFrom(e, i, done) && Batched(e, p) && Tracked(e, p, repeats, interval, m)
    ensures var e1 := Turn(e, i, script(i), clock).0;
      var (done1, m1) := Onward(e.expired[i].timer, script(i), done, p, m);
      WaitingFrom(e1, i + 1, done1) && Tracked(e1, p, repeats, interval, m1)
  {
    TurnKeepsWaiting(e, i, script, clock, done);
    if Turn(e, i, script(i), clock).1 {
      TurnTracks(e, i, script(i), clock, p, repeats, interval, m);
    } else {
      SkippedTurn(e, i, script(i), clock);
    }
  }

  lemma SkippedTurn(e: Engine, i: nat, ops: seq<Op>, clock: Clock)
    requires Inv(e) && e.running == NULL && i < |e.expired| && TurnLawful(e, i, ops, clock) && !Turn(e, i, ops, clock).1
    ensures Turn(e, i, ops, clock).0 == e
  {
  }

  /** This time is an interval past some reading of the clock. */
  ghost predicate Ahead(when: int, interval: int, clock: Clock) {
    exists n: nat :: when == clock(n) + interval
  }

  ghost predicate QueuedAhead(e: Engine, p: Ptr, interval: int, clock: Clock) {
    p in e.timerExist && Key(e.timerExist[p], p) in e.timers && Ahead(e.timerExist[p], interval, clock)
  }

  /** The time under which a timer of the batch is queued again: its own, or if it repeats a clock
      reading plus its interval. Timers not in the batch keep theirs. */
  lemma {:induction false} TimeAfterBatch(e: Engine, clock: Clock, p: Ptr)
    requires Inv(e) && e.running == NULL && Dates(clock)
    ensures var e' := SettleAll(e, clock);
      p in e'.timerExist ==>
        if !Batched(e, p) then p in e.timerExist && e'.timerExist[p] == e.timerExist[p]
        else
          && p in e.mem
          && (!e.mem[p].repeats ==> e'.timerExist[p] == e.mem[p].expiration)
          && (e.mem[p].repeats ==> Ahead(e'.timerExist[p], e.mem[p].interval, clock))
    decreases |e.expired|
  {
    if Batched(e, p) { BatchedInMemory(e, p); }
    FateOfBatch(e, clock, p);
    if e.expired != [] {
      SettleShape(e, clock);
      var e1 := SettleFirst(e, clock);
      TimeAfterBatch(e1, clock, p);
      TailBatched(e, e1, p);
      if p == e.expired[0].timer { assert Batched(e, p); }
    }
  }

  /** The fate of every timer that was due, by a reference that knows no state word, index or queue:
      it is registered after the wake-up if and only if no callback unregistered it and it repeats,
      was reset, or was registered anew by its own callback; otherwise it is freed. And it is queued
      under the time it was last reset to, or if it repeats under a clock reading plus its interval. */
  lemma FateOfDue(e: Engine, script: Script, clock: Clock, k: Key)
    requires Idle(e) && ProcessLawful(e, script, clock) && Dates(clock) && k in e.timers && k.when <= clock(e.tick)
    ensures k.timer in e.mem
    ensures var e', p := Process(e, script, clock).0, k.timer;
      var t, m := e.mem[p], MarkBatch(DueKeys(e.timers, clock(e.tick)), 0, script, [], p, Mark(k.when, false, false));
      && (p in e'.timerExist <==> !m.gone && (t.repeats || m.wanted))
      && (p in e'.mem <==> p in e'.timerExist)
      && (p in e'.timerExist && !t.repeats ==> Key(m.when, p) in e'.timers)
      && (p in e'.timerExist && t.repeats ==> QueuedAhead(e', p, t.interval, clock))
  {
    var p, m := k.timer, Mark(k.when, false, false);
    StartsBatch(e, clock);
    StartsTracked(e, clock, k);
    var e1 := Start(e, clock);
    var _, _ := BatchTracks(e1, 0, script, clock, [], p, e.mem[p].repeats, e.mem[p].interval, m);
    BatchSettled(e1, script, clock, p);
  }

  /** The start of a wake-up: the due timers in the batch, none of them touched. */
  lemma StartsBatch(e: Engine, clock: Clock)
    requires Idle(e)
    ensures Start(e, clock).expired == DueKeys(e.timers, clock(e.tick)) && WaitingFrom(Start(e, clock), 0, [])
  {
    var ahead := e.(tick := e.tick + 1);
    SameParts(e, ahead);
    TakeDueKeeps(ahead, clock(e.tick));
  }

  lemma StartsTracked(e: Engine, clock: Clock, k: Key)
    requires Idle(e) && k in e.timers && k.when <= clock(e.tick)
    ensures k.timer in e.mem && Batched(Start(e, clock), k.timer)
    ensures Tracked(Start(e, clock), k.timer, e.mem[k.timer].repeats, e.mem[k.timer].interval, Mark(k.when, false, false))
  {
    assert QueuedRight(e, k);
    StartsBatch(e, clock);
    KeyIsBatched(Start(e, clock), k);
    TakenTracked(e.(tick := e.tick + 1), k, clock(e.tick));
  }

  lemma KeyIsBatched(e: Engine, k: Key)
    requires k in e.expired
    ensures Batched(e, k.timer)
  {
  }

  lemma TakenTracked(e: Engine, k: Key, now: int)
    requires k in e.timers && QueuedRight(e, k) && k.when <= now
    ensures Tracked(TakeDue(e, now), k.timer, e.mem[k.timer].repeats, e.mem[k.timer].interval, Mark(k.when, false, false))
  {
    assert k.timer in DueTimers(e.timers, now);
  }

  lemma BatchSettled(e: Engine, script: Script, clock: Clock, p: Ptr)
    requires Inv(e) && e.running == NULL && BatchLawful(e, 0, script, clock) && Dates(clock) && Batched(e, p)
    ensures var e2 := RunBatch(e, 0, script, clock).0;
      var e' := ResetTd(SettleAll(e2, clock), clock);
      && p in e2.mem
      && (p in e'.timerExist <==> !e2.mem[p].state.willRemoved && (e2.mem[p].repeats || e2.mem[p].state.shouldAdded))
      && (p in e'.mem <==> p in e'.timerExist)
      && (p in e'.timerExist && !e2.mem[p].repeats ==> Key(e2.mem[p].expiration, p) in e'.timers)
      && (p in e'.timerExist && e2.mem[p].repeats ==> QueuedAhead(e', p, e2.mem[p].interval, clock))
  {
    var e2 := RunBatch(e, 0, script, clock).0;
    assert Batched(e2, p);
    FateSettled(e2, clock, p, ResetTd(SettleAll(e2, clock), clock));
  }

  lemma FateSettled(e: Engine, clock: Clock, p: Ptr, e': Engine)
    requires Inv(e) && e.running == NULL && Dates(clock) && Batched(e, p)
    requires e' == ResetTd(SettleAll(e, clock), clock)
    ensures p in e.mem
    ensures p in e'.timerExist <==> !e.mem[p].state.willRemoved && (e.mem[p].repeats || e.mem[p].state.shouldAdded)
    ensures p in e'.mem <==> p in e'.timerExist
    ensures p in e'.timerExist && !e.mem[p].repeats ==> Key(e.mem[p].expiration, p) in e'.timers
    ensures p in e'.timerExist && e.mem[p].repeats ==> QueuedAhead(e', p, e.mem[p].interval, clock)
  {
    BatchedInMemory(e, p);
    FateOfBatch(e, clock, p);
    TimeAfterBatch(e, clock, p);
    var s := SettleAll(e, clock);
    if p in s.timerExist {
      assert Key(s.timerExist[p], p) in s.timers || Batched(s, p);
    }
  }

  // ---------------------------------------------------------------- a registered timer runs

  ghost predicate SparesOps(ops: seq<Op>, p: Ptr) { Remove(p) !in ops }

  /** Nothing in these events unregisters p, calls and callbacks alike. */
  ghost predicate Spares(events: seq<Event>, p: Ptr) {
    forall i :: 0 <= i < |events| ==>
      match events[i]
      case Call(op) => op != Remove(p)
      case WakeUp(script) => forall j: nat :: SparesOps(script(j), p)
  }

  /** No wake-up among these events reads a time that has reached w. */
  ghost predicate NotYet(e: Engine, events: seq<Event>, clock: Clock, w: int)
    requires Idle(e) && Dates(clock) && RunLawful(e, events, clock)
    decreases |events|
  {
    events == [] ||
    ((events[0].WakeUp? ==> clock(e.tick) < w) && NotYet(Handle(e, events[0], clock), events[1..], clock, w))
  }

  lemma OpKeepsQueued(e: Engine, op: Op, clock: Clock, k: Key)
    requires Inv(e) && Lawful(e, op) && k in e.timers && op != Remove(k.timer)
    ensures k in Do(e, op, clock).timers
  {
    assert QueuedRight(e, k);
    match op
    case Add(p) => RegisterExactly(e, p, clock);
    case Remove(p) => UnregisterExactly(e, p, clock);
    case _ => MemoryOnly(e, op, clock);
  }

  lemma {:induction false} OpsKeepQueued(e: Engine, ops: seq<Op>, clock: Clock, k: Key)
    requires Inv(e) && AllLawful(e, ops, clock) && k in e.timers && SparesOps(ops, k.timer)
    ensures k in DoAll(e, ops, clock).timers
    decreases |ops|
  {
    if ops != [] {
      assert ops[0] in ops;
      OpKeepsQueued(e, ops[0], clock, k);
      OpsKeepQueued(Do(e, ops[0], clock), ops[1..], clock, k);
    }
  }

  lemma TurnKeepsQueued(e: Engine, i: nat, ops: seq<Op>, clock: Clock, k: Key)
    requires Inv(e) && e.running == NULL && i < |e.expired| && TurnLawful(e, i, ops, clock)
    requires k in e.timers && SparesOps(ops, k.timer)
    ensures k in Turn(e, i, ops, clock).0.timers
  {
    var p := e.expired[i].timer;
    assert Batched(e, p);
    BatchedInMemory(e, p);
    if e.mem[p].state == INEXPIRED {
      RunningInv(e, Enter(e, p), p, p);
      OpsKeepQueued(Enter(e, p), ops, clock, k);
    }
  }

  lemma {:induction false} BatchKeepsQueued(e: Engine, i: nat, script: Script, clock: Clock, k: Key)
    requires Inv(e) && e.running == NULL && i <= |e.expired| && BatchLawful(e, i, script, clock)
    requires k in e.timers && forall j: nat :: SparesOps(script(j), k.timer)
    ensures k in RunBatch(e, i, script, clock).0.timers
    decreases |e.expired| - i
  {
    if i < |e.expired| {
      assert SparesOps(script(i), k.timer);
      TurnKeepsQueued(e, i, script(i), clock, k);
      BatchKeepsQueued(Turn(e, i, script(i), clock).0, i + 1, script, clock, k);
    }
  }

  lemma {:induction false} SettleKeepsQueued(e: Engine, clock: Clock, k: Key)
    requires Inv(e) && e.running == NULL && Dates(clock) && k in e.timers
    ensures k in SettleAll(e, clock).timers
    decreases |e.expired|
  {
    if e.expired != [] {
      SettleShape(e, clock);
      SettleKeepsQueued(SettleFirst(e, clock), clock, k);
    }
  }

  lemma WakeUpKeepsQueued(e: Engine, script: Script, clock: Clock, k: Key)
    requires Idle(e) && ProcessLawful(e, script, clock) && Dates(clock)
    requires k in e.timers && clock(e.tick) < k.when && forall j: nat :: SparesOps(script(j), k.timer)
    ensures k in Process(e, script, clock).0.timers
  {
    StartKeepsQueued(e, clock, k);
    BatchKeepsQueued(Start(e, clock), 0, script, clock, k);
    SettleKeepsQueued(RunBatch(Start(e, clock), 0, script, clock).0, clock, k);
  }

  lemma StartKeepsQueued(e: Engine, clock: Clock, k: Key)
    requires Idle(e) && k in e.timers && clock(e.tick) < k.when
    ensures k in Start(e, clock).timers
  {
  }

  /** A queued timer stays queued under its time as long as its time has not come and nobody
      unregisters it, whatever else happens. */
  lemma {:induction false} StaysQueued(e: Engine, events: seq<Event>, clock: Clock, k: Key)
    requires Idle(e) && Dates(clock) && RunLawful(e, events, clock)
    requires k in e.timers && Spares(events, k.timer) && NotYet(e, events, clock, k.when)
    ensures k in Run(e, events, clock).timers
    decreases |events|
  {
    if events != [] {
      HandleKeepsQueued(e, events[0], clock, k, events);
      assert forall i :: 0 <= i < |events[1..]| ==> events[1..][i] == events[i + 1];
      StaysQueued(Handle(e, events[0], clock), events[1..], clock, k);
    }
  }

  lemma HandleKeepsQueued(e: Engine, ev: Event, clock: Clock, k: Key, events: seq<Event>)
    requires Idle(e) && EventLawful(e, ev, clock) && Dates(clock) && k in e.timers
    requires events != [] && events[0] == ev && Spares(events, k.timer) && (ev.WakeUp? ==> clock(e.tick) < k.when)
    ensures k in Handle(e, ev, clock).timers
  {
    match events[0]
    case Call(op) => OpKeepsQueued(e, op, clock, k);
    case WakeUp(script) => WakeUpKeepsQueued(e, script, clock, k);
  }

  // ---------------------------------------------------------------- the wake-up that runs it

  /** What the callbacks before the j-th timer of the batch have done. */
  function DoneBefore(due: seq<Key>, i: nat, j: nat, script: Script, done: seq<Op>): seq<Op>
    requires i <= j <= |due|
    decreases j - i
  {
    if i == j then done
    else if HitBy(done, due[i].timer) then DoneBefore(due, i + 1, j, script, done)
    else DoneBefore(due, i + 1, j, script, done + script(i))
  }

  lemma {:induction false} ExpectedFromDue(due: seq<Key>, i: nat, script: Script, done: seq<Op>, p: Ptr) returns (j: nat)
    requires i <= |due| && p in Expected(due, i, script, done)
    ensures i <= j < |due| && due[j].timer == p
    decreases |due| - i
  {
    if HitBy(done, due[i].timer) {
      j := ExpectedFromDue(due, i + 1, script, done, p);
    } else if p == due[i].timer {
      j := i;
    } else {
      j := ExpectedFromDue(due, i + 1, script, done + script(i), p);
    }
  }

  lemma {:induction false} ExpectedExactly(due: seq<Key>, i: nat, j: nat, script: Script, done: seq<Op>)
    requires i <= j < |due| && Distinct(due)
    ensures due[j].timer in Expected(due, i, script, done) <==> !HitBy(DoneBefore(due, i, j, script, done), due[j].timer)
    decreases |due| - i
  {
    var p := due[j].timer;
    if i == j {
      if HitBy(done, p) && p in Expected(due, i + 1, script, done) {
        var q := ExpectedFromDue(due, i + 1, script, done, p);
        assert false;
      }
    } else if HitBy(done, due[i].timer) {
      ExpectedExactly(due, i + 1, j, script, done);
    } else {
      ExpectedExactly(due, i + 1, j, script, done + script(i));
    }
  }

  lemma DueDistinct(e: Engine, now: int)
    requires Inv(e)
    ensures Distinct(DueKeys(e.timers, now))
  {
    var due := DueKeys(e.timers, now);
    forall i, j | 0 <= i < j < |due|
      ensures due[i].timer != due[j].timer
    {
      assert due[i] in due && due[j] in due && KeyLess(due[i], due[j]);
      assert QueuedRight(e, due[i]) && QueuedRight(e, due[j]);
    }
  }

  /** A wake-up runs a due timer if and only if no earlier callback of the batch unregistered or
      reset it. */
  lemma DueRunsExactly(e: Engine, script: Script, clock: Clock, k: Key) returns (j: nat)
    requires Idle(e) && ProcessLawful(e, script, clock) && Dates(clock) && k in e.timers && k.when <= clock(e.tick)
    ensures var due := DueKeys(e.timers, clock(e.tick));
      && j < |due| && due[j] == k
      && (k.timer in Process(e, script, clock).1 <==> !HitBy(DoneBefore(due, 0, j, script, []), k.timer))
  {
    var due := DueKeys(e.timers, clock(e.tick));
    assert k in due;
    j :| 0 <= j < |due| && due[j] == k;
    BatchExact(e, script, clock);
    DueDistinct(e, clock(e.tick));
    ExpectedExactly(due, 0, j, script, []);
  }

  /** A timer that is registered runs: queued at once under its own time, it is still there when its
      time comes, if nobody has unregistered it, and the first wake-up that reads that time or a
      later one runs it, unless an earlier callback of that batch unregisters or resets it. */
  lemma RegisteredRuns(e: Engine, p: Ptr, events: seq<Event>, script: Script, clock: Clock) returns (j: nat)
    requires Idle(e) && Dates(clock) && Registrable(e, p)
    requires var e1 := Handle(e, Call(Add(p)), clock);
      && RunLawful(e1, events, clock) && Spares(events, p) && NotYet(e1, events, clock, e.mem[p].expiration)
      && ProcessLawful(Run(e1, events, clock), script, clock)
      && e.mem[p].expiration <= clock(Run(e1, events, clock).tick)
    ensures Key(e.mem[p].expiration, p) in Handle(e, Call(Add(p)), clock).timers
    ensures var e2 := Run(Handle(e, Call(Add(p)), clock), events, clock);
      var due := DueKeys(e2.timers, clock(e2.tick));
      && j < |due| && due[j].timer == p
      && (p in Process(e2, script, clock).1 <==> !HitBy(DoneBefore(due, 0, j, script, []), p))
  {
    var k := Key(e.mem[p].expiration, p);
    RegisterExactly(e, p, clock);
    StaysQueued(Handle(e, Call(Add(p)), clock), events, clock, k);
    j := DueRunsExactly(Run(Handle(e, Call(Add(p)), clock), events, clock), script, clock, k);
  }

  // ---------------------------------------------------------------- a timer that registers itself anew

  lemma {:induction false} MarkOpsKeep(ops: seq<Op>, p: Ptr, own: bool, m: Mark)
    requires SparesOps(ops, p) && !m.gone
    ensures !MarkOps(ops, p, own, m).gone
    ensures m.wanted || (own && Add(p) in ops) ==> MarkOps(ops, p, own, m).wanted
    decreases |ops|
  {
    if ops != [] {
      assert ops[0] in ops && ops == [ops[0]] + ops[1..];
      MarkOpsKeep(ops[1..], p, own, MarkOp(ops[0], p, own, m));
    }
  }

  lemma {:induction false} MarkBatchKeeps(due: seq<Key>, i: nat, script: Script, done: seq<Op>, p: Ptr, m: Mark)
    requires i <= |due| && !m.gone && forall j: nat :: SparesOps(script(j), p)
    ensures !MarkBatch(due, i, script, done, p, m).gone
    ensures m.wanted ==> MarkBatch(due, i, script, done, p, m).wanted
    decreases |due| - i
  {
    if i < |due| {
      if HitBy(done, due[i].timer) {
        MarkBatchKeeps(due, i + 1, script, done, p, m);
      } else {
        assert SparesOps(script(i), p);
        MarkOpsKeep(script(i), p, due[i].timer == p, m);
        MarkBatchKeeps(due, i + 1, script, done + script(i), p, MarkOps(script(i), p, due[i].timer == p, m));
      }
    }
  }

  lemma {:induction false} OwnAddWanted(due: seq<Key>, i: nat, j: nat, script: Script, done: seq<Op>, p: Ptr, m: Mark)
    requires i <= j < |due| && due[j].timer == p && !m.gone && forall q: nat :: SparesOps(script(q), p)
    requires Add(p) in script(j) && !HitBy(DoneBefore(due, i, j, script, done), p)
    ensures MarkBatch(due, i, script, done, p, m).wanted
    decreases j - i
  {
    if i < j && HitBy(done, due[i].timer) {
      OwnAddWanted(due, i + 1, j, script, done, p, m);
    } else {
      assert SparesOps(script(i), p);
      MarkOpsKeep(script(i), p, due[i].timer == p, m);
      var m' := MarkOps(script(i), p, due[i].timer == p, m);
      if i == j {
        MarkBatchKeeps(due, i + 1, script, done + script(i), p, m');
      } else {
        OwnAddWanted(due, i + 1, j, script, done + script(i), p, m');
      }
    }
  }

  /** A timer that runs and registers itself anew from its own callback is registered after the batch,
      one-shot or not, if no callback unregisters it. */
  lemma RegistersItself(e: Engine, script: Script, clock: Clock, k: Key, j: nat)
    requires Idle(e) && ProcessLawful(e, script, clock) && Dates(clock) && k in e.timers && k.when <= clock(e.tick)
    requires var due := DueKeys(e.timers, clock(e.tick));
      j < |due| && due[j] == k && !HitBy(DoneBefore(due, 0, j, script, []), k.timer)
    requires Add(k.timer) in script(j) && forall q: nat :: SparesOps(script(q), k.timer)
    ensures k.timer in Process(e, script, clock).0.timerExist
  {
    var due, m := DueKeys(e.timers, clock(e.tick)), Mark(k.when, false, false);
    OwnAddWanted(due, 0, j, script, [], k.timer, m);
    MarkBatchKeeps(due, 0, script, [], k.timer, m);
    FateOfDue(e, script, clock, k);
  }

  // ---------------------------------------------------------------- a timer that was reset

  ghost predicate OnlyResetTo(ops: seq<Op>, p: Ptr, when: int) {
    forall w :: Postpone(p, w) in ops ==> w == when
  }

  ghost predicate AsReset(m: Mark, when: int) { m.wanted && !m.gone && m.when == when }

  lemma {:induction false} MarkOpsReset(ops: seq<Op>, p: Ptr, own: bool, m: Mark, when: int)
    requires SparesOps(ops, p) && OnlyResetTo(ops, p, when) && !m.gone
    requires Postpone(p, when) in ops || AsReset(m, when)
    ensures AsReset(MarkOps(ops, p, own, m), when)
    decreases |ops|
  {
    if ops != [] {
      assert ops[0] in ops && ops == [ops[0]] + ops[1..];
      MarkOpsReset(ops[1..], p, own, MarkOp(ops[0], p, own, m), when);
    }
  }

  ghost predicate ScriptResetsTo(script: Script, p: Ptr, when: int) {
    forall j: nat :: SparesOps(script(j), p) && OnlyResetTo(script(j), p, when)
  }

  lemma {:induction false} MarkBatchReset(due: seq<Key>, i: nat, j: nat, script: Script, done: seq<Op>, p: Ptr, m: Mark, when: int)
    requires i <= |due| && !m.gone && ScriptResetsTo(script, p, when)
    requires AsReset(m, when) ||
      (i <= j < |due| && Postpone(p, when) in script(j) && !HitBy(DoneBefore(due, i, j, script, done), due[j].timer))
    ensures AsReset(MarkBatch(due, i, script, done, p, m), when)
    decreases |due| - i
  {
    if i < |due| {
      if HitBy(done, due[i].timer) {
        MarkBatchReset(due, i + 1, j, script, done, p, m, when);
      } else {
        assert SparesOps(script(i), p) && OnlyResetTo(script(i), p, when);
        MarkOpsKeep(script(i), p, due[i].timer == p, m);
        if AsReset(m, when) || i == j { MarkOpsReset(script(i), p, due[i].timer == p, m, when); }
        MarkBatchReset(due, i + 1, j, script, done + script(i), p, MarkOps(script(i), p, due[i].timer == p, m), when);
      }
    }
  }

  /** A one-shot timer of the batch that some callback that runs resets is queued after the batch under
      exactly the time it was reset to, if no callback unregisters it or resets it to another. */
  lemma ResetIsHonoured(e: Engine, script: Script, clock: Clock, k: Key, j: nat, when: int)
    requires Idle(e) && ProcessLawful(e, script, clock) && Dates(clock) && k in e.timers && k.when <= clock(e.tick)
    requires var due := DueKeys(e.timers, clock(e.tick));
      j < |due| && !HitBy(DoneBefore(due, 0, j, script, []), due[j].timer)
    requires Postpone(k.timer, when) in script(j) && ScriptResetsTo(script, k.timer, when)
    requires k.timer in e.mem && !e.mem[k.timer].repeats
    ensures Key(when, k.timer) in Process(e, script, clock).0.timers
  {
    MarkBatchReset(DueKeys(e.timers, clock(e.tick)), 0, j, script, [], k.timer, Mark(k.when, false, false), when);
    FateOfDue(e, script, clock, k);
  }
}
