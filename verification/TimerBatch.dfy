/** Callbacks, batches and whole runs of the timer engine. A callback may register, unregister and
    reset any timers it can lawfully name, allocate new ones and free ones it never registered.
 */
module TimerBatch {
  import opened Ordering
  import opened Timers

  datatype Op =
    | Add(p: Ptr)
    | Remove(p: Ptr)
    | Postpone(p: Ptr, when: int)
    | Allocate(p: Ptr, when: int, interval: int, repeats: bool)
    | Release(p: Ptr)

  /** What callers must respect: no use of a timer that is gone, no Reset of a queued timer or to
      an invalid time, and only unregistered timers are freed by hand. Remove may name anything. */
  ghost predicate Lawful(e: Engine, op: Op) {
    match op
    case Add(p) => p == NULL || p in e.mem
    case Remove(_) => true
    case Postpone(p, when) => p in e.mem && when > 0 && (p in e.timerExist ==> Key(e.timerExist[p], p) !in e.timers)
    case Allocate(p, _, interval, repeats) => p != NULL && p !in e.mem && (repeats ==> interval >= 0)
    case Release(p) => p in e.mem && p !in e.timerExist
  }

  ghost function Do(e: Engine, op: Op, clock: Clock): (e': Engine)
    requires Inv(e) && Lawful(e, op)
    ensures Inv(e') && e'.expired == e.expired && e'.running == e.running
  {
    DoKeeps(e, op, clock);
    DoRaw(e, op, clock)
  }

  ghost function DoRaw(e: Engine, op: Op, clock: Clock): Engine
    requires Lawful(e, op) && forall p :: p in e.timerExist ==> p in e.mem
  {
    match op
    case Add(p) => Register(e, p, clock).0
    case Remove(p) => Unregister(e, p, clock).0
    case Postpone(p, when) => Reset(e, p, when)
    case Allocate(p, when, interval, repeats) => e.(mem := e.mem[p := Timer(when, interval, repeats, SHOULDADDED)])
    case Release(p) => e.(mem := e.mem - {p})
  }

  /** A change to the memory of timers that are not registered. */
  lemma UnregisteredInv(e: Engine, e': Engine, p: Ptr)
    requires Inv(e) && p !in e.timerExist && p != NULL
    requires e' == e.(mem := e'.mem)
    requires forall q :: q != p ==> (q in e'.mem <==> q in e.mem) && (q in e.mem ==> e'.mem[q] == e.mem[q])
    requires p in e'.mem ==> e'.mem[p].state == SHOULDADDED && (e'.mem[p].repeats ==> e'.mem[p].interval >= 0)
    ensures Inv(e')
  {
    forall k | k in e'.timers
      ensures QueuedRight(e', k)
    {
      assert QueuedRight(e, k);
    }
    forall i | 0 <= i < |e'.expired|
      ensures BatchedRight(e', e'.expired[i])
    {
      assert BatchedRight(e, e.expired[i]);
    }
    forall q | q in e'.timerExist
      ensures Key(e'.timerExist[q], q) in e'.timers || Batched(e', q)
    {
      assert Key(e.timerExist[q], q) in e.timers || Batched(e, q);
    }
    ExactlyOnePlace(e, p);
    forall q | q in e'.mem
      ensures MemoryRight(e', q)
    {
      assert q in e.mem ==> MemoryRight(e, q);
      assert e.running != NULL ==> Batched(e, e.running);
    }
    if e'.running != NULL { assert Batched(e, e.running); }
  }

  lemma RegisteredInMemory(e: Engine)
    requires Inv(e)
    ensures forall p :: p in e.timerExist ==> p in e.mem
  {
    forall p | p in e.timerExist
      ensures p in e.mem
    {
      ExactlyOnePlace(e, p);
    }
  }

  lemma PostponeKeeps(e: Engine, p: Ptr, when: int)
    requires Inv(e) && Lawful(e, Postpone(p, when))
    ensures Inv(Reset(e, p, when))
  {
    assert MemoryRight(e, p);
    var t := e.mem[p];
    if p !in e.timerExist {
      UnregisteredInv(e, Reset(e, p, when), p);
    } else if !t.state.willRemoved {
      assert Batched(e, p);
      var b :| 0 <= b < |e.expired| && e.expired[b].timer == p;
      assert BatchedRight(e, e.expired[b]);
      FlagsInv(e, Reset(e, p, when), p, t.(expiration := when, state := t.state.(shouldAdded := true)));
    }
  }

  lemma DoKeeps(e: Engine, op: Op, clock: Clock)
    requires Inv(e) && Lawful(e, op)
    ensures forall p :: p in e.timerExist ==> p in e.mem
    ensures var e' := DoRaw(e, op, clock);
      Inv(e') && e'.expired == e.expired && e'.running == e.running
  {
    RegisteredInMemory(e);
    match op
    case Add(p) => RegisterKeeps(e, p, clock);
    case Remove(p) => UnregisterKeeps(e, p, clock);
    case Postpone(p, when) => PostponeKeeps(e, p, when);
    case Allocate(p, _, _, _) => UnregisteredInv(e, DoRaw(e, op, clock), p);
    case Release(p) =>
      assert MemoryRight(e, p);
      UnregisteredInv(e, DoRaw(e, op, clock), p);
  }

  ghost predicate AllLawful(e: Engine, ops: seq<Op>, clock: Clock)
    requires Inv(e)
    decreases |ops|
  {
    ops == [] || (Lawful(e, ops[0]) && AllLawful(Do(e, ops[0], clock), ops[1..], clock))
  }

  ghost function DoAll(e: Engine, ops: seq<Op>, clock: Clock): (e': Engine)
    requires Inv(e) && AllLawful(e, ops, clock)
    ensures Inv(e') && e'.expired == e.expired && e'.running == e.running
    decreases |ops|
  {
    if ops == [] then e else DoAll(Do(e, ops[0], clock), ops[1..], clock)
  }

  // ---------------------------------------------------------------- one batch

  ghost function Due(timers: set<Key>, now: int): set<Key> {
    set k | k in timers && k.when <= now
  }

  ghost function DueTimers(timers: set<Key>, now: int): set<Ptr> {
    set k | k in timers && k.when <= now :: k.timer
  }

  /** The due keys in the order of the queue. */
  ghost function DueKeys(timers: set<Key>, now: int): (due: seq<Key>)
    ensures Ascending(KeyLess, due)
    ensures forall k :: k in due <==> k in timers && k.when <= now
  {
    KeyOrder();
    InOrder(KeyLess, Due(timers, now))
  }

  /** ExpiredTimers: moves what is due from the queue to the end of the batch, in key order. */
  ghost function TakeDue(e: Engine, now: int): Engine {
    e.(timers := e.timers - Due(e.timers, now),
       expired := e.expired + DueKeys(e.timers, now),
       mem := map p | p in e.mem ::
         if p in DueTimers(e.timers, now) && e.mem[p].state == INQUEUED then e.mem[p].(state := INEXPIRED) else e.mem[p])
  }

  ghost predicate Took(e: Engine, e': Engine, now: int) {
    && e.expired == [] && e'.timers == e.timers - Due(e.timers, now)
    && e'.timerExist == e.timerExist && e'.running == e.running
    && e'.mem.Keys == e.mem.Keys
    && (forall p :: p in e.mem ==>
          e'.mem[p] == if p in DueTimers(e.timers, now) && e.mem[p].state == INQUEUED then e.mem[p].(state := INEXPIRED) else e.mem[p])
    && (forall k :: k in e'.expired <==> k in e.timers && k.when <= now)
    && Ascending(KeyLess, e'.expired)
  }

  lemma TakeDueTook(e: Engine, now: int)
    requires e.expired == []
    ensures Took(e, TakeDue(e, now), now)
  {
    assert TakeDue(e, now).expired == DueKeys(e.timers, now);
  }

  lemma TookBatch(e: Engine, e': Engine, now: int)
    requires Inv(e) && Took(e, e', now)
    ensures forall i :: 0 <= i < |e'.expired| ==>
      BatchedRight(e', e'.expired[i]) && e'.mem[e'.expired[i].timer].state == INEXPIRED
    ensures Distinct(e'.expired)
  {
    var due := e'.expired;
    forall i | 0 <= i < |due|
      ensures BatchedRight(e', due[i]) && e'.mem[due[i].timer].state == INEXPIRED
    {
      assert due[i] in due;
      assert QueuedRight(e, due[i]);
      assert due[i].timer in DueTimers(e.timers, now);
    }
    forall i, j | 0 <= i < j < |due|
      ensures due[i].timer != due[j].timer
    {
      assert due[i] in due && due[j] in due && KeyLess(due[i], due[j]);
      assert QueuedRight(e, due[i]) && QueuedRight(e, due[j]);
    }
  }

  lemma TookRest(e: Engine, e': Engine, now: int)
    requires Inv(e) && Took(e, e', now)
    ensures forall k :: k in e'.timers ==> QueuedRight(e', k)
    ensures forall p :: p in e'.timerExist ==> Key(e'.timerExist[p], p) in e'.timers || Batched(e', p)
    ensures forall p :: p in e'.mem ==> MemoryRight(e', p)
  {
    forall k | k in e'.timers
      ensures QueuedRight(e', k)
    {
      OneKeyPerTimer(e, k, now);
    }
    forall p | p in e'.timerExist
      ensures Key(e'.timerExist[p], p) in e'.timers || Batched(e', p)
    {
      var k := Key(e.timerExist[p], p);
      assert k in e.timers;
      if k.when <= now {
        assert k in e'.expired;
      }
    }
    forall p | p in e'.mem
      ensures MemoryRight(e', p)
    {
      assert MemoryRight(e, p);
      if p in DueTimers(e.timers, now) {
        var k :| k in e.timers && k.when <= now && k.timer == p;
        assert QueuedRight(e, k);
      }
    }
  }

  lemma TakeDueKeeps(e: Engine, now: int)
    requires Inv(e) && e.expired == []
    ensures Inv(TakeDue(e, now)) && Took(e, TakeDue(e, now), now)
    ensures forall i :: 0 <= i < |TakeDue(e, now).expired| ==>
      var p := TakeDue(e, now).expired[i].timer; p in TakeDue(e, now).mem && TakeDue(e, now).mem[p].state == INEXPIRED
  {
    TakeDueTook(e, now);
    TookBatch(e, TakeDue(e, now), now);
    TookRest(e, TakeDue(e, now), now);
    assert !Batched(e, e.running);
  }

  /** A timer that stays queued is not due under another key. */
  lemma OneKeyPerTimer(e: Engine, k: Key, now: int)
    requires Inv(e) && k in e.timers && k.when > now
    ensures QueuedRight(e, k) && k.timer !in DueTimers(e.timers, now)
  {
    assert QueuedRight(e, k);
    forall j | j in e.timers && j.timer == k.timer
      ensures j == k
    {
      SameTimerSameKey(e, j, k);
    }
  }

  lemma SameTimerSameKey(e: Engine, j: Key, k: Key)
    requires Inv(e) && j in e.timers && k in e.timers && j.timer == k.timer
    ensures j == k
  {
    assert QueuedRight(e, j) && QueuedRight(e, k);
  }

  /** Entering and leaving a callback. */
  function Enter(e: Engine, p: Ptr): Engine
    requires p in e.mem
  {
    SetState(e, p, e.mem[p].state.(inRunning := true)).(running := p)
  }

  function Leave(e: Engine, p: Ptr): Engine
    requires p in e.mem
  {
    SetState(e, p, e.mem[p].state.(inRunning := false)).(running := NULL)
  }

  lemma BatchedInMemory(e: Engine, p: Ptr)
    requires Inv(e) && Batched(e, p)
    ensures p in e.mem && p in e.timerExist && p != NULL && e.mem[p].state.inExpired
  {
    var b :| 0 <= b < |e.expired| && e.expired[b].timer == p;
    assert BatchedRight(e, e.expired[b]);
    assert MemoryRight(e, p);
  }

  lemma RunningInv(e: Engine, e': Engine, p: Ptr, running: Ptr)
    requires Inv(e) && Batched(e, p) && p in e.mem
    requires e' == SetState(e, p, e.mem[p].state.(inRunning := running == p)).(running := running)
    requires (e.running == NULL && running == p) || (e.running == p && running == NULL)
    ensures Inv(e')
  {
    BatchedInMemory(e, p);
    forall k | k in e'.timers
      ensures QueuedRight(e', k)
    {
      assert QueuedRight(e, k);
    }
    forall i | 0 <= i < |e'.expired|
      ensures BatchedRight(e', e'.expired[i])
    {
      assert BatchedRight(e, e.expired[i]);
    }
    forall q | q in e'.timerExist
      ensures Key(e'.timerExist[q], q) in e'.timers || Batched(e', q)
    {
      assert Key(e.timerExist[q], q) in e.timers || Batched(e, q);
    }
    forall q | q in e'.mem
      ensures MemoryRight(e', q)
    {
      assert MemoryRight(e, q);
    }
    assert Batched(e', p);
  }

  /** The callback's turn of the i-th timer of the batch, if nothing has touched it. */
  ghost predicate TurnLawful(e: Engine, i: nat, ops: seq<Op>, clock: Clock)
    requires Inv(e) && e.running == NULL && i < |e.expired|
  {
    var p := e.expired[i].timer;
    assert Batched(e, p);
    BatchedInMemory(e, p);
    e.mem[p].state == INEXPIRED ==> (RunningInv(e, Enter(e, p), p, p); AllLawful(Enter(e, p), ops, clock))
  }

  ghost function Turn(e: Engine, i: nat, ops: seq<Op>, clock: Clock): (r: (Engine, bool))
    requires Inv(e) && e.running == NULL && i < |e.expired| && TurnLawful(e, i, ops, clock)
    ensures Inv(r.0) && r.0.running == NULL && r.0.expired == e.expired
  {
    var p := e.expired[i].timer;
    assert Batched(e, p);
    BatchedInMemory(e, p);
    if e.mem[p].state == INEXPIRED then
      RunningInv(e, Enter(e, p), p, p);
      var e1 := DoAll(Enter(e, p), ops, clock);
      assert Batched(e1, p) by { assert e1.expired[i].timer == p; }
      BatchedInMemory(e1, p);
      RunningInv(e1, Leave(e1, p), p, NULL);
      (Leave(e1, p), true)
    else (e, false)
  }

  /** The operations that the callback of the i-th timer performs, if it runs. */
  type Script = nat -> seq<Op>

  ghost predicate BatchLawful(e: Engine, i: nat, script: Script, clock: Clock)
    requires Inv(e) && e.running == NULL && i <= |e.expired|
    decreases |e.expired| - i
  {
    i == |e.expired| ||
    (TurnLawful(e, i, script(i), clock) && BatchLawful(Turn(e, i, script(i), clock).0, i + 1, script, clock))
  }

  ghost function RunBatch(e: Engine, i: nat, script: Script, clock: Clock): (r: (Engine, seq<Ptr>))
    requires Inv(e) && e.running == NULL && i <= |e.expired| && BatchLawful(e, i, script, clock)
    ensures Inv(r.0) && r.0.running == NULL && r.0.expired == e.expired
    decreases |e.expired| - i
  {
    if i == |e.expired| then (e, [])
    else
      var turn := Turn(e, i, script(i), clock);
      var rest := RunBatch(turn.0, i + 1, script, clock);
      (rest.0, (if turn.1 then [e.expired[i].timer] else []) + rest.1)
  }

  // ---------------------------------------------------------------- after the callbacks

  /** Settles the first timer of the batch: freed, or queued again. */
  ghost function SettleFirst(e: Engine, clock: Clock): (e': Engine)
    requires Inv(e) && e.running == NULL && e.expired != [] && Dates(clock)
    ensures Inv(e') && e'.running == NULL && e'.expired == e.expired[1..]
  {
    SettleKeeps(e, clock);
    SettleRaw(e, clock)
  }

  ghost function SettleRaw(e: Engine, clock: Clock): Engine
    requires e.expired != [] && e.expired[0].timer in e.mem
  {
    var p := e.expired[0].timer;
    var t, rest := e.mem[p], e.(expired := e.expired[1..]);
    var s := t.state.(inExpired := false);
    if t.state.willRemoved then Drop(rest, p)
    else if t.repeats then
      Requeue(rest, p, t.(expiration := clock(e.tick) + t.interval, state := s.(shouldAdded := true)), e.tick + 1, clock)
    else if s.shouldAdded then Requeue(rest, p, t.(state := s), e.tick, clock)
    else Drop(rest, p)
  }

  ghost function Requeue(e: Engine, p: Ptr, t: Timer, tick: nat, clock: Clock): Engine {
    Register(e.(mem := e.mem[p := t], tick := tick), p, clock).0
  }

  lemma RequeueShape(e: Engine, p: Ptr, t: Timer, tick: nat, clock: Clock)
    requires p != NULL && t.expiration > 0 && p in e.timerExist
    requires !t.state.willRemoved && !t.state.inRunning && !t.state.inExpired && !t.state.inQueued
    requires forall w :: Key(w, p) !in e.timers
    ensures var e' := Requeue(e, p, t, tick, clock);
      && e'.mem == e.mem[p := t.(state := INQUEUED)]
      && e'.timers == e.timers + {Key(t.expiration, p)} && e'.timerExist == e.timerExist[p := t.expiration]
      && e'.expired == e.expired && e'.running == e.running
  {
    assert e.timers - {Key(e.timerExist[p], p)} == e.timers;
  }

  /** The first timer of the batch goes back to the queue. */
  lemma RequeueInv(e: Engine, e': Engine, p: Ptr, when: int)
    requires Inv(e) && e.running == NULL && e.expired != [] && e.expired[0].timer == p && p in e.mem && when > 0
    requires e'.mem == e.mem[p := e.mem[p].(expiration := when, state := INQUEUED)]
    requires e'.timers == e.timers + {Key(when, p)} && e'.timerExist == e.timerExist[p := when]
    requires e'.expired == e.expired[1..] && e'.running == NULL
    ensures Inv(e')
  {
    assert BatchedRight(e, e.expired[0]) && Batched(e, p);
    ExactlyOnePlace(e, p);
    forall k | k in e'.timers
      ensures QueuedRight(e', k)
    {
      if k in e.timers { assert QueuedRight(e, k); }
    }
    forall i | 0 <= i < |e'.expired|
      ensures BatchedRight(e', e'.expired[i])
    {
      assert BatchedRight(e, e.expired[i + 1]);
    }
    TailInv(e, e', p);
    forall q | q in e'.mem
      ensures MemoryRight(e', q)
    {
      assert MemoryRight(e, q);
    }
  }

  /** The other timers keep their places when the first of the batch leaves it. */
  lemma TailInv(e: Engine, e': Engine, p: Ptr)
    requires Inv(e) && e.expired != [] && e.expired[0].timer == p
    requires e'.expired == e.expired[1..]
    requires forall q :: q in e'.timerExist && q != p ==> q in e.timerExist && e'.timerExist[q] == e.timerExist[q]
    requires forall k :: k in e.timers && k.timer != p ==> k in e'.timers
    requires p in e'.timerExist ==> Key(e'.timerExist[p], p) in e'.timers
    ensures Distinct(e'.expired)
    ensures forall q :: q in e'.timerExist ==> Key(e'.timerExist[q], q) in e'.timers || Batched(e', q)
  {
    forall q | q in e'.timerExist
      ensures Key(e'.timerExist[q], q) in e'.timers || Batched(e', q)
    {
      if q != p && Key(e.timerExist[q], q) !in e.timers {
        var i :| 0 <= i < |e.expired| && e.expired[i].timer == q;
        assert e'.expired[i - 1].timer == q;
      }
    }
  }

  lemma DropFirstInv(e: Engine, e': Engine, p: Ptr)
    requires Inv(e) && e.running == NULL && e.expired != [] && e.expired[0].timer == p
    requires e' == e.(mem := e.mem - {p}, timerExist := e.timerExist - {p}, expired := e.expired[1..])
    ensures Inv(e')
  {
    assert BatchedRight(e, e.expired[0]) && Batched(e, p);
    ExactlyOnePlace(e, p);
    forall k | k in e'.timers
      ensures QueuedRight(e', k)
    {
      assert QueuedRight(e, k);
    }
    forall i | 0 <= i < |e'.expired|
      ensures BatchedRight(e', e'.expired[i])
    {
      assert BatchedRight(e, e.expired[i + 1]);
    }
    TailInv(e, e', p);
    forall q | q in e'.mem
      ensures MemoryRight(e', q)
    {
      assert MemoryRight(e, q);
    }
  }

  /** What settling does: freed unless it repeats or was re-registered, and then queued. */
  lemma SettleShape(e: Engine, clock: Clock)
    requires Inv(e) && e.running == NULL && e.expired != [] && Dates(clock)
    ensures var p := e.expired[0].timer;
      && p in e.mem
      && var t, e' := e.mem[p], SettleRaw(e, clock);
      && e'.expired == e.expired[1..] && e'.running == NULL
      && if t.state.willRemoved || (!t.repeats && !t.state.shouldAdded) then
           e' == e.(mem := e.mem - {p}, timerExist := e.timerExist - {p}, expired := e.expired[1..])
         else Requeued(e, e', if t.repeats then clock(e.tick) + t.interval else t.expiration)
  {
    FirstFacts(e);
    var t := e.mem[e.expired[0].timer];
    if !t.state.willRemoved && t.repeats {
      SettleRepeats(e, clock);
    } else if !t.state.willRemoved && t.state.shouldAdded {
      SettleAgain(e, clock);
    }
  }

  /** The timer can be queued again: in the index, in no queue, and not running. */
  ghost predicate FreeToQueue(e: Engine, p: Ptr) {
    && p != NULL && p in e.mem && p in e.timerExist && (forall w :: Key(w, p) !in e.timers)
    && !e.mem[p].state.inRunning && !e.mem[p].state.inQueued && !e.mem[p].state.willRemoved
  }

  lemma SettleRepeats(e: Engine, clock: Clock)
    requires e.running == NULL && e.expired != [] && FreeToQueue(e, e.expired[0].timer)
    requires var t := e.mem[e.expired[0].timer]; t.repeats && clock(e.tick) + t.interval > 0
    ensures Requeued(e, SettleRaw(e, clock), clock(e.tick) + e.mem[e.expired[0].timer].interval)
  {
    var t := e.mem[e.expired[0].timer];
    RequeueShape(e.(expired := e.expired[1..]), e.expired[0].timer,
                 t.(expiration := clock(e.tick) + t.interval, state := t.state.(inExpired := false, shouldAdded := true)),
                 e.tick + 1, clock);
  }

  lemma SettleAgain(e: Engine, clock: Clock)
    requires e.running == NULL && e.expired != [] && FreeToQueue(e, e.expired[0].timer)
    requires var t := e.mem[e.expired[0].timer]; !t.repeats && t.state.shouldAdded && t.expiration > 0
    ensures Requeued(e, SettleRaw(e, clock), e.mem[e.expired[0].timer].expiration)
  {
    var t := e.mem[e.expired[0].timer];
    RequeueShape(e.(expired := e.expired[1..]), e.expired[0].timer, t.(state := t.state.(inExpired := false)), e.tick, clock);
  }

  /** The first of the batch is queued again for this time. */
  ghost predicate Requeued(e: Engine, e': Engine, when: int)
    requires e.expired != [] && e.expired[0].timer in e.mem
  {
    var p := e.expired[0].timer;
    && when > 0 && e'.expired == e.expired[1..] && e'.running == NULL
    && e'.mem == e.mem[p := e.mem[p].(expiration := when, state := INQUEUED)]
    && e'.timers == e.timers + {Key(when, p)} && e'.timerExist == e.timerExist[p := when]
  }

  /** What the invariant says of the first timer of the batch. */
  lemma FirstFacts(e: Engine)
    requires Inv(e) && e.running == NULL && e.expired != []
    ensures var p := e.expired[0].timer;
      && p != NULL && p in e.mem && p in e.timerExist && (forall w :: Key(w, p) !in e.timers)
      && var t := e.mem[p];
      && t.expiration > 0 && !t.state.inRunning && !t.state.inQueued && (t.repeats ==> t.interval >= 0)
  {
    var p := e.expired[0].timer;
    assert BatchedRight(e, e.expired[0]) && Batched(e, p);
    assert MemoryRight(e, p);
    ExactlyOnePlace(e, p);
  }

  /** Leaving the batch is the only way a timer's being in it changes. */
  lemma TailBatched(e: Engine, e': Engine, p: Ptr)
    requires e.expired != [] && Distinct(e.expired) && e'.expired == e.expired[1..]
    ensures Batched(e', p) <==> Batched(e, p) && p != e.expired[0].timer
  {
    if Batched(e', p) {
      var i :| 0 <= i < |e'.expired| && e'.expired[i].timer == p;
      assert e.expired[i + 1].timer == p;
    }
    if Batched(e, p) && p != e.expired[0].timer {
      var i :| 0 <= i < |e.expired| && e.expired[i].timer == p;
      assert e'.expired[i - 1].timer == p;
    }
  }

  lemma SettleKeeps(e: Engine, clock: Clock)
    requires Inv(e) && e.running == NULL && e.expired != [] && Dates(clock)
    ensures e.expired[0].timer in e.mem
    ensures var e' := SettleRaw(e, clock);
      Inv(e') && e'.running == NULL && e'.expired == e.expired[1..]
  {
    SettleShape(e, clock);
    var p, e' := e.expired[0].timer, SettleRaw(e, clock);
    var t := e.mem[p];
    if t.state.willRemoved || (!t.repeats && !t.state.shouldAdded) {
      DropFirstInv(e, e', p);
    } else {
      RequeueInv(e, e', p, if t.repeats then clock(e.tick) + t.interval else t.expiration);
    }
  }

  /** RestartTimer, then the clearing of the batch. */
  ghost function SettleAll(e: Engine, clock: Clock): (e': Engine)
    requires Inv(e) && e.running == NULL && Dates(clock)
    ensures Inv(e') && e'.running == NULL && e'.expired == []
    decreases |e.expired|
  {
    if e.expired == [] then e else SettleAll(SettleFirst(e, clock), clock)
  }

  /** Each timer of the batch is registered afterwards exactly when it was not unregistered and
      either repeats or was reset or re-registered; otherwise it is freed. The rest is untouched. */
  lemma {:induction false} FateOfBatch(e: Engine, clock: Clock, p: Ptr)
    requires Inv(e) && e.running == NULL && Dates(clock)
    ensures var e' := SettleAll(e, clock);
      if Batched(e, p) then
        && p in e.mem
        && (p in e'.timerExist <==> !e.mem[p].state.willRemoved && (e.mem[p].repeats || e.mem[p].state.shouldAdded))
        && (p in e'.mem <==> p in e'.timerExist)
      else
        && (p in e'.mem <==> p in e.mem) && (p in e.mem ==> e'.mem[p] == e.mem[p])
        && (p in e'.timerExist <==> p in e.timerExist)
    decreases |e.expired|
  {
    if Batched(e, p) { BatchedInMemory(e, p); }
    if e.expired != [] {
      SettleShape(e, clock);
      var e1 := SettleFirst(e, clock);
      FateOfBatch(e1, clock, p);
      TailBatched(e, e1, p);
      if p == e.expired[0].timer {
        assert Batched(e, p);
        RegisteredInMemory(e1);
      }
    }
  }
}
