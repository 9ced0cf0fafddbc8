/** The timer engine, changed in place. Every method is proved equal to the function of the same
    purpose on engine values; every deletion is of a timer that is still there.
 */
module TimerEngine {
  import opened Ordering
  import opened Timers
  import opened TimerBatch
  import opened TimerRuns

  class Engine {
    /** What gettimeofday will answer, reading by reading. */
    const clock: Clock

    var mem: map<Ptr, Timer>
    var timers: set<Key>
    var timerExist: map<Ptr, int>
    var expired: seq<Key>
    var running: Ptr
    var armed: Armed
    var tick: nat

    ghost function State(): Timers.Engine
      reads this
    {
      Timers.Engine(mem, timers, timerExist, expired, running, armed, tick)
    }

    constructor (clock: Clock)
      ensures this.clock == clock && State() == NEW_ENGINE && Idle(State())
    {
      this.clock := clock;
      mem, timers, timerExist, expired, running, armed, tick := map[], {}, map[], [], NULL, Never, 0;
    }

    method Now() returns (now: int)
      modifies this`tick
      ensures now == clock(old(tick)) && tick == old(tick) + 1
    {
      now := clock(tick);
      tick := tick + 1;
    }

    method SetTimerState(p: Ptr, s: Timers.State)
      requires p in mem
      modifies this`mem
      ensures State() == SetState(old(State()), p, s)
    {
      mem := mem[p := mem[p].(state := s)];
    }

    /** Frees a timer; it has to be there. */
    method Delete(p: Ptr)
      requires p in mem
      modifies this`mem
      ensures mem == old(mem) - {p}
    {
      mem := mem - {p};
    }

    method EarlistExpiration() returns (earliest: int)
      modifies this`tick
      ensures (earliest, tick) == EarliestExpiration(old(State()), clock)
    {
      if timers == {} {
        var now := Now();
        return now + 100_000_000;
      }
      KeyOrder();
      var sorted := Sort(KeyLess, timers);
      FirstExists(timers);
      FirstUnique(timers, sorted[0], First(timers));
      return sorted[0].when;
    }

    method ResetTd(earliest: int)
      modifies this`armed, this`tick
      ensures var (sec, nsec) := CalcNewTimeVal(earliest, clock(old(tick)));
        armed == Armed(sec, nsec, clock(old(tick))) && tick == old(tick) + 1
    {
      var now := Now();
      var (sec, nsec) := CalcNewTimeVal(earliest, now);
      armed := Armed(sec, nsec, now);
    }

    method Rearm()
      modifies this`armed, this`tick
      ensures State() == Timers.ResetTd(old(State()), clock)
    {
      var earliest := EarlistExpiration();
      ResetTd(earliest);
    }

    method RegisterTimer(p: Ptr) returns (ok: bool)
      requires p == NULL || p in mem
      modifies this
      ensures (State(), ok) == Register(old(State()), p, clock)
    {
      if p == NULL || mem[p].expiration <= 0 {
        return false;
      }
      if mem[p].state.willRemoved {
        return false;
      }
      if mem[p].state.inRunning {
        SetTimerState(p, mem[p].state.(shouldAdded := true));
        return true;
      }
      if mem[p].state.inExpired || mem[p].state.inQueued {
        return false;
      }
      if p in timerExist {
        timers := timers - {Key(timerExist[p], p)};
      }
      if Key(mem[p].expiration, p) in timers {
        return false;
      }
      timers := timers + {Key(mem[p].expiration, p)};
      timerExist := timerExist[p := mem[p].expiration];
      SetTimerState(p, INQUEUED);
      Rearm();
      return true;
    }

    method UnregisterTimer(p: Ptr) returns (ok: bool)
      requires Inv(State())
      modifies this
      ensures p in old(timerExist) ==> p in old(mem)
      ensures (State(), ok) == Unregister(old(State()), p, clock) && Inv(State())
    {
      UnregisterKeeps(State(), p, clock);
      ExactlyOnePlace(State(), p);
      if p == NULL || p !in timerExist {
        return false;
      }
      if mem[p].state.inRunning || mem[p].state.inExpired {
        SetTimerState(p, mem[p].state.(willRemoved := true));
        return true;
      }
      // the two assertions of the code
      assert mem[p].state.inQueued && Key(timerExist[p], p) in timers by {
        if Batched(State(), p) { BatchedInMemory(State(), p); }
      }
      timers := timers - {Key(timerExist[p], p)};
      Forget(p);
      Rearm();
      return true;
    }

    /** Timer::Reset, and the rest of what a callback may do. */
    method Perform(op: Op)
      requires Inv(State()) && Lawful(State(), op)
      modifies this
      ensures State() == Do(old(State()), op, clock)
    {
      ghost var before := State();
      DoKeeps(before, op, clock);
      match op {
        case Add(p) =>
          var _ := RegisterTimer(p);
        case Remove(p) =>
          var _ := UnregisterTimer(p);
        case Postpone(p, when) =>
          if !mem[p].state.willRemoved {
            mem := mem[p := mem[p].(expiration := when, state := mem[p].state.(shouldAdded := true))];
          }
        case Allocate(p, when, interval, repeats) =>
          mem := mem[p := Timer(when, interval, repeats, SHOULDADDED)];
        case Release(p) =>
          Delete(p);
      }
    }

    /** The body of a callback. */
    method RunCallback(ops: seq<Op>)
      requires Inv(State()) && AllLawful(State(), ops, clock)
      modifies this
      ensures State() == DoAll(old(State()), ops, clock)
    {
      ghost var before := State();
      for i := 0 to |ops|
        invariant Inv(State()) && AllLawful(State(), ops[i..], clock)
        invariant DoAll(State(), ops[i..], clock) == DoAll(before, ops, clock)
      {
        assert ops[i..][0] == ops[i] && ops[i..][1..] == ops[i + 1..];
        Perform(ops[i]);
      }
    }

    method ExpiredTimers(now: int)
      requires forall k :: k in timers ==> k.timer in mem
      modifies this
      ensures State() == TakeDue(old(State()), now)
    {
      ghost var before := State();
      var due := DueInOrder(now);
      MarkDue(due);
      TakenParts(before, State(), due, now);
      timers := timers - (set k | k in timers && k.when <= now);
    }

    method DueInOrder(now: int) returns (due: seq<Key>)
      ensures due == DueKeys(timers, now)
      ensures forall i :: 0 <= i < |due| ==> due[i] in timers
    {
      KeyOrder();
      var dueSet := set k | k in timers && k.when <= now;
      assert dueSet == Due(timers, now);
      due := Sort(KeyLess, dueSet);
      assert forall i :: 0 <= i < |due| ==> due[i] in due;
    }

    method MarkDue(due: seq<Key>)
      requires forall i :: 0 <= i < |due| ==> due[i].timer in mem
      modifies this`mem, this`expired
      ensures mem == Marked(old(mem), due) && expired == old(expired) + due
    {
      for i := 0 to |due|
        invariant mem == Marked(old(mem), due[..i]) && mem.Keys == old(mem).Keys
        invariant expired == old(expired) + due[..i]
      {
        assert due[..i + 1][..i] == due[..i];
        var p := due[i].timer;
        if mem[p].state == INQUEUED {
          SetTimerState(p, INEXPIRED);
        }
        expired := expired + [due[i]];
      }
      assert due[..|due|] == due;
    }

    /** Settles the timers of the batch one by one. The code leaves the settled entries in its list
        until the end, where it clears it; nothing reads them in between. */
    method RestartTimer()
      requires Inv(State()) && running == NULL && Dates(clock)
      modifies this
      ensures State() == SettleAll(old(State()), clock)
    {
      ghost var before := State();
      while expired != []
        invariant Inv(State()) && running == NULL
        invariant SettleAll(State(), clock) == SettleAll(before, clock)
        decreases |expired|
      {
        SettleKeeps(State(), clock);
        SettleOne();
      }
    }

    method SettleOne()
      requires expired != [] && expired[0].timer in mem
      modifies this
      ensures State() == SettleRaw(old(State()), clock)
    {
      ghost var before := State();
      ghost var rest := before.(expired := before.expired[1..]);
      var p := expired[0].timer;
      expired := expired[1..];
      var s := mem[p].state;
      if s.willRemoved {
        Forget(p);
        return;
      }
      SetTimerState(p, s.(inExpired := false));
      assert State() == rest.(mem := rest.mem[p := before.mem[p].(state := s.(inExpired := false))]);
      if mem[p].repeats {
        Restart(p);
        RequeueTimer(p, rest);
        assert State() == SettleRaw(before, clock);
      } else if mem[p].state.shouldAdded {
        RequeueTimer(p, rest);
        assert State() == SettleRaw(before, clock);
      } else {
        Forget(p);
        assert mem == rest.mem - {p};
      }
    }

    method RequeueTimer(p: Ptr, ghost rest: Timers.Engine)
      requires p in mem
      requires State() == rest.(mem := rest.mem[p := mem[p]], tick := tick)
      modifies this
      ensures State() == Requeue(rest, p, old(mem)[p], old(tick), clock)
    {
      var _ := RegisterTimer(p);
    }

    /** Takes a timer out of the index and frees it. */
    method Forget(p: Ptr)
      requires p in mem
      modifies this`mem, this`timerExist
      ensures State() == Drop(old(State()), p)
    {
      timerExist := timerExist - {p};
      Delete(p);
    }

    /** Timer::Restart of a repeating timer. */
    method Restart(p: Ptr)
      requires p in mem && mem[p].repeats && !mem[p].state.willRemoved
      modifies this`mem, this`tick
      ensures tick == old(tick) + 1
      ensures mem == old(mem)[p := old(mem)[p].(expiration := clock(old(tick)) + old(mem)[p].interval,
                                               state := old(mem)[p].state.(shouldAdded := true))]
    {
      var now := Now();
      mem := mem[p := mem[p].(expiration := now + mem[p].interval, state := mem[p].state.(shouldAdded := true))];
    }

    /** The wake-up of the event loop. */
    method Process(script: Script) returns (ran: seq<Ptr>)
      requires Idle(State()) && ProcessLawful(State(), script, clock) && Dates(clock)
      modifies this
      ensures (State(), ran) == TimerRuns.Process(old(State()), script, clock)
      ensures Idle(State())
    {
      ghost var before := State();
      var now := Now();
      SameParts(before, State());
      assert forall k :: k in timers ==> QueuedRight(before, k);
      ExpiredTimers(now);
      ghost var start := State();
      assert start == Start(before, clock);
      ran := RunExpired(script);
      RestartTimer();
      Rearm();
    }

    /** The loop over the batch. */
    method RunExpired(script: Script) returns (ran: seq<Ptr>)
      requires InBatch(State(), 0, script, clock)
      modifies this
      ensures (State(), ran) == RunBatch(old(State()), 0, script, clock)
    {
      ghost var all := RunBatch(State(), 0, script, clock);
      PrependNothing(all.1);
      ran := [];
      for i := 0 to |expired|
        invariant expired == old(expired) && InBatch(State(), i, script, clock)
        invariant Total(State(), i, script, clock, ran) == all
      {
        ran := Advance(i, script, ran);
      }
      TotalEnds(State(), script, clock, ran);
    }

    method Advance(i: nat, script: Script, ran: seq<Ptr>) returns (ran': seq<Ptr>)
      requires InBatch(State(), i, script, clock) && i < |expired|
      modifies this
      ensures expired == old(expired) && InBatch(State(), i + 1, script, clock)
      ensures Total(State(), i + 1, script, clock, ran') == Total(old(State()), i, script, clock, ran)
    {
      TotalStep(State(), i, script, clock, ran);
      var runs := RunOne(i, script(i));
      ran' := if runs then ran + [expired[i].timer] else ran;
    }

    method RunOne(i: nat, ops: seq<Op>) returns (runs: bool)
      requires Inv(State()) && running == NULL && i < |expired| && TurnLawful(State(), i, ops, clock)
      modifies this
      ensures (State(), runs) == Turn(old(State()), i, ops, clock)
    {
      ghost var before := State();
      var p := expired[i].timer;
      assert Batched(before, p);
      BatchedInMemory(before, p);
      runs := mem[p].state == INEXPIRED;
      if runs {
        RunningInv(before, Enter(before, p), p, p);
        SetTimerState(p, mem[p].state.(inRunning := true));
        running := p;
        RunCallback(ops);
        ghost var after := State();
        assert Batched(after, p) by { assert after.expired[i].timer == p; }
        BatchedInMemory(after, p);
        SetTimerState(p, mem[p].state.(inRunning := false));
        running := NULL;
      }
    }

    /** Run between events, it frees the registered timers, each exactly once. */
    method Destroy()
      requires Idle(State())
      modifies this
      ensures mem == old(mem) - old(timerExist).Keys && timers == {}
    {
      ghost var before := State();
      ghost var gone: set<Ptr> := {};
      var destroy := timers;
      timers := {};
      while destroy != {}
        invariant destroy <= before.timers && timers == {} && timerExist == before.timerExist
        invariant mem == before.mem - gone && gone <= before.timerExist.Keys
        invariant forall k :: k in before.timers ==> (k in destroy <==> k.timer !in gone)
        decreases destroy
      {
        var k :| k in destroy;
        assert QueuedRight(before, k);
        forall j | j in before.timers && j.timer == k.timer
          ensures j == k
        {
          SameTimerSameKey(before, j, k);
        }
        Delete(k.timer);
        gone, destroy := gone + {k.timer}, destroy - {k};
      }
      forall p | p in before.timerExist
        ensures p in gone
      {
        assert !Batched(before, p);
        assert Key(before.timerExist[p], p) in before.timers;
      }
    }
  }

  /** What marking the due timers one after the other has made of memory. */
  function Marked(mem: map<Ptr, Timer>, keys: seq<Key>): map<Ptr, Timer> {
    if keys == [] then mem
    else
      var m, p := Marked(mem, keys[..|keys| - 1]), keys[|keys| - 1].timer;
      if p in m && m[p].state == INQUEUED then m[p := m[p].(state := INEXPIRED)] else m
  }

  lemma {:induction false} MarkedAt(mem: map<Ptr, Timer>, keys: seq<Key>, p: Ptr)
    ensures p in Marked(mem, keys) <==> p in mem
    ensures p in mem ==>
      (Marked(mem, keys)[p] ==
       if mem[p].state == INQUEUED && (exists k :: k in keys && k.timer == p) then mem[p].(state := INEXPIRED) else mem[p])
    decreases |keys|
  {
    if keys != [] {
      var front, last := keys[..|keys| - 1], keys[|keys| - 1];
      assert keys == front + [last];
      MarkedAt(mem, front, p);
    }
  }

  lemma MarkedIsTaken(e: Timers.Engine, due: seq<Key>, now: int)
    requires due == DueKeys(e.timers, now)
    ensures Marked(e.mem, due) == TakeDue(e, now).mem
  {
    forall p
      ensures p in Marked(e.mem, due) <==> p in e.mem
      ensures p in e.mem ==> Marked(e.mem, due)[p] == TakeDue(e, now).mem[p]
    {
      MarkedAt(e.mem, due, p);
      if k :| k in due && k.timer == p {
        assert k in e.timers && k.when <= now;
      }
      if p in DueTimers(e.timers, now) {
        var k :| k in e.timers && k.when <= now && k.timer == p;
        assert k in due;
      }
    }
  }

  ghost predicate InBatch(e: Timers.Engine, i: nat, script: Script, clock: Clock) {
    Inv(e) && e.running == NULL && i <= |e.expired| && BatchLawful(e, i, script, clock)
  }

  lemma TakenParts(e: Timers.Engine, e': Timers.Engine, due: seq<Key>, now: int)
    requires due == DueKeys(e.timers, now)
    requires e' == e.(mem := Marked(e.mem, due), expired := e.expired + due)
    ensures e'.(timers := e.timers - Due(e.timers, now)) == TakeDue(e, now)
  {
    MarkedIsTaken(e, due, now);
  }

  /** What a batch will have come to in the end, given what ran so far. */
  ghost function Total(e: Timers.Engine, i: nat, script: Script, clock: Clock, ran: seq<Ptr>): (Timers.Engine, seq<Ptr>)
    requires InBatch(e, i, script, clock)
  {
    (RunBatch(e, i, script, clock).0, ran + RunBatch(e, i, script, clock).1)
  }

  lemma TotalEnds(e: Timers.Engine, script: Script, clock: Clock, ran: seq<Ptr>)
    requires InBatch(e, |e.expired|, script, clock)
    ensures Total(e, |e.expired|, script, clock, ran) == (e, ran)
  {
    assert ran + [] == ran;
  }

  lemma PrependNothing(s: seq<Ptr>)
    ensures [] + s == s
  {
  }

  lemma TotalStep(e: Timers.Engine, i: nat, script: Script, clock: Clock, ran: seq<Ptr>)
    requires InBatch(e, i, script, clock) && i < |e.expired|
    ensures var (e1, runs) := Turn(e, i, script(i), clock);
      && InBatch(e1, i + 1, script, clock)
      && Total(e, i, script, clock, ran) ==
         Total(e1, i + 1, script, clock, if runs then ran + [e.expired[i].timer] else ran)
  {
    var (e1, runs) := Turn(e, i, script(i), clock);
    var more := RunBatch(e1, i + 1, script, clock).1;
    assert ran + ([e.expired[i].timer] + more) == ran + [e.expired[i].timer] + more;
    assert [] + more == more;
  }
}
