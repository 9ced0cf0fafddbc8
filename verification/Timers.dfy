/** The timer engine as a value: the timers in memory, the queue ordered by (expiration, address),
    the index from timer to key, and the batch being run. A timer is its address, so that deleting
    one and allocating another in its place can be told apart from keeping it; reading a timer
    that has been deleted is a lookup outside `mem`, which no function here can do.
 */
module Timers {
  import opened Ordering

  type Ptr = nat

  const NULL: Ptr := 0

  /** The state word, one flag per bit. */
  datatype State = State(shouldAdded: bool, inQueued: bool, inRunning: bool, inExpired: bool, willRemoved: bool)

  const SHOULDADDED := State(true, false, false, false, false)
  const INQUEUED := State(false, true, false, false, false)
  const INEXPIRED := State(false, false, false, true, false)

  /** Times are in microseconds; a repeating timer's interval is what it adds to the clock. */
  datatype Timer = Timer(expiration: int, interval: int, repeats: bool, state: State)

  /** A queue key. */
  datatype Key = Key(when: int, timer: Ptr)

  predicate KeyLess(a: Key, b: Key) { a.when < b.when || (a.when == b.when && a.timer < b.timer) }

  /** What the kernel was last told, and the clock reading it was computed from. */
  datatype Armed = Never | Armed(sec: int, nsec: int, reading: int)

  /** `running` is the timer whose callback is under way, and `tick` counts clock readings. */
  datatype Engine = Engine(
    mem: map<Ptr, Timer>,
    timers: set<Key>,
    timerExist: map<Ptr, int>,
    expired: seq<Key>,
    running: Ptr,
    armed: Armed,
    tick: nat)

  /** Successive readings of the clock; they may go backwards, but are dates after the epoch. */
  type Clock = nat -> int

  ghost predicate Dates(clock: Clock) { forall t :: clock(t) > 0 }

  lemma KeyOrder()
    ensures StrictOrder(KeyLess)
  {
  }

  // ---------------------------------------------------------------- the kernel timer

  function CalcNewTimeVal(earliest: int, now: int): (sn: (int, int))
    ensures sn.0 >= 0 && 0 <= sn.1 < 1_000_000_000 && sn.1 % 1000 == 0
    ensures sn.0 * 1_000_000 + sn.1 / 1000 == if earliest - now < 100 then 100 else earliest - now
  {
    var us := if earliest - now < 100 then 100 else earliest - now;
    (us / 1_000_000, (us % 1_000_000) * 1000)
  }

  ghost predicate IsFirst(timers: set<Key>, k: Key) {
    k in timers && forall j :: j in timers && j != k ==> KeyLess(k, j)
  }

  lemma FirstExists(timers: set<Key>)
    requires timers != {}
    ensures exists k :: IsFirst(timers, k)
    ensures (KeyOrder(); InOrder(KeyLess, timers) != [] && IsFirst(timers, InOrder(KeyLess, timers)[0]))
  {
    KeyOrder();
    var s := InOrder(KeyLess, timers);
    var x :| x in timers;
    assert x in s && s[0] in s;
    forall j | j in timers && j != s[0]
      ensures KeyLess(s[0], j)
    {
      assert j in s;
    }
    assert IsFirst(timers, s[0]);
  }

  lemma FirstUnique(timers: set<Key>, j: Key, k: Key)
    requires IsFirst(timers, j) && IsFirst(timers, k)
    ensures j == k
  {
  }

  ghost function First(timers: set<Key>): (k: Key)
    requires timers != {}
    ensures IsFirst(timers, k)
  {
    FirstExists(timers);
    var k :| IsFirst(timers, k);
    k
  }

  /** The front of the queue, or a hundred seconds from now when it is empty. */
  ghost function EarliestExpiration(e: Engine, clock: Clock): (int, nat) {
    if e.timers == {} then (clock(e.tick) + 100_000_000, e.tick + 1) else (First(e.timers).when, e.tick)
  }

  ghost function ResetTd(e: Engine, clock: Clock): (e': Engine)
    ensures e' == e.(armed := e'.armed, tick := e'.tick)
  {
    var (earliest, t) := EarliestExpiration(e, clock);
    var (sec, nsec) := CalcNewTimeVal(earliest, clock(t));
    e.(armed := Armed(sec, nsec, clock(t)), tick := t + 1)
  }

  // ---------------------------------------------------------------- operations

  function SetState(e: Engine, p: Ptr, s: State): Engine
    requires p in e.mem
  {
    e.(mem := e.mem[p := e.mem[p].(state := s)])
  }

  ghost function Enqueue(e: Engine, p: Ptr, clock: Clock): Engine
    requires p in e.mem
  {
    var when := e.mem[p].expiration;
    ResetTd(SetState(e.(timers := e.timers + {Key(when, p)}, timerExist := e.timerExist[p := when]), p, INQUEUED), clock)
  }

  ghost function Register(e: Engine, p: Ptr, clock: Clock): (Engine, bool)
    requires p == NULL || p in e.mem
  {
    if p == NULL || e.mem[p].expiration <= 0 then (e, false)
    else
      var s := e.mem[p].state;
      if s.willRemoved then (e, false)
      else if s.inRunning then (SetState(e, p, s.(shouldAdded := true)), true)
      else if s.inExpired || s.inQueued then (e, false)
      else
        var e1 := if p in e.timerExist then e.(timers := e.timers - {Key(e.timerExist[p], p)}) else e;
        if Key(e.mem[p].expiration, p) in e1.timers then (e1, false)
        else (Enqueue(e1, p, clock), true)
  }

  /** Frees a timer that is in the index. */
  function Drop(e: Engine, p: Ptr): Engine
    requires p in e.mem
  {
    e.(mem := e.mem - {p}, timerExist := e.timerExist - {p})
  }

  ghost function Unregister(e: Engine, p: Ptr, clock: Clock): (Engine, bool)
    requires p in e.timerExist ==> p in e.mem
  {
    if p == NULL || p !in e.timerExist then (e, false)
    else if e.mem[p].state.inRunning || e.mem[p].state.inExpired then
      (SetState(e, p, e.mem[p].state.(willRemoved := true)), true)
    else
      (ResetTd(Drop(e.(timers := e.timers - {Key(e.timerExist[p], p)}), p), clock), true)
  }

  /** Timer::Reset. */
  function Reset(e: Engine, p: Ptr, when: int): Engine
    requires p in e.mem
  {
    var t := e.mem[p];
    if t.state.willRemoved then e
    else e.(mem := e.mem[p := t.(expiration := when, state := t.state.(shouldAdded := true))])
  }

  // ---------------------------------------------------------------- what holds between operations

  predicate Batched(e: Engine, p: Ptr) { exists i :: 0 <= i < |e.expired| && e.expired[i].timer == p }

  ghost predicate QueuedRight(e: Engine, k: Key) {
    && k.timer in e.mem && k.timer in e.timerExist && e.timerExist[k.timer] == k.when
    && e.mem[k.timer].state == INQUEUED && e.mem[k.timer].expiration == k.when && k.when > 0
  }

  ghost predicate BatchedRight(e: Engine, k: Key) {
    && k.timer in e.mem && k.timer in e.timerExist && e.timerExist[k.timer] == k.when
    && e.mem[k.timer].state.inExpired && !e.mem[k.timer].state.inQueued && e.mem[k.timer].expiration > 0
  }

  ghost predicate MemoryRight(e: Engine, p: Ptr)
    requires p in e.mem
  {
    && p != NULL
    && (p !in e.timerExist ==> e.mem[p].state == SHOULDADDED)
    && (e.mem[p].state.inRunning <==> p == e.running)
    && (e.mem[p].repeats ==> e.mem[p].interval >= 0)
  }

  ghost predicate Distinct(keys: seq<Key>) {
    forall i, j :: 0 <= i < j < |keys| ==> keys[i].timer != keys[j].timer
  }

  /** The registered timers are those in the index; each is in the queue under the key the index
      gives, or in the batch, and nothing else is in either. */
  ghost predicate Inv(e: Engine) {
    && (forall k :: k in e.timers ==> QueuedRight(e, k))
    && (forall i :: 0 <= i < |e.expired| ==> BatchedRight(e, e.expired[i]))
    && Distinct(e.expired)
    && (forall p :: p in e.timerExist ==> Key(e.timerExist[p], p) in e.timers || Batched(e, p))
    && (forall p :: p in e.mem ==> MemoryRight(e, p))
    && (e.running != NULL ==> Batched(e, e.running))
  }

  /** Each registered timer is in exactly one of the queue and the batch, once, under the key the
      index gives; each of those is registered and in memory. */
  lemma ExactlyOnePlace(e: Engine, p: Ptr)
    requires Inv(e)
    ensures p in e.timerExist <==> (exists w :: Key(w, p) in e.timers) || Batched(e, p)
    ensures !((exists w :: Key(w, p) in e.timers) && Batched(e, p))
    ensures forall w :: Key(w, p) in e.timers ==> e.timerExist[p] == w
    ensures forall i, j :: 0 <= i < |e.expired| && 0 <= j < |e.expired| && e.expired[i].timer == p == e.expired[j].timer ==> i == j
    ensures p in e.timerExist ==> p in e.mem
  {
    forall w | Key(w, p) in e.timers
      ensures p in e.timerExist && e.timerExist[p] == w && !Batched(e, p) && p in e.mem
    {
      assert QueuedRight(e, Key(w, p));
    }
    if Batched(e, p) {
      var i :| 0 <= i < |e.expired| && e.expired[i].timer == p;
      assert BatchedRight(e, e.expired[i]);
    }
  }

  // ---------------------------------------------------------------- every operation keeps it

  lemma EnqueueKeeps(e: Engine, p: Ptr, clock: Clock)
    requires Inv(e) && p in e.mem && p !in e.timerExist && e.mem[p].expiration > 0
    ensures Inv(Enqueue(e, p, clock))
  {
    var e' := Enqueue(e, p, clock);
    var when := e.mem[p].expiration;
    EnqueueInv(e, e', p, when);
  }

  lemma EnqueueInv(e: Engine, e': Engine, p: Ptr, when: int)
    requires Inv(e) && p in e.mem && p !in e.timerExist && e.mem[p].expiration == when > 0
    requires e'.mem == e.mem[p := e.mem[p].(state := INQUEUED)] && e'.timers == e.timers + {Key(when, p)}
    requires e'.timerExist == e.timerExist[p := when] && e'.expired == e.expired && e'.running == e.running
    ensures Inv(e')
  {
    assert MemoryRight(e, p);
    forall k | k in e'.timers
      ensures QueuedRight(e', k)
    {
      if k in e.timers { assert QueuedRight(e, k); }
    }
    forall i | 0 <= i < |e'.expired|
      ensures BatchedRight(e', e'.expired[i])
    {
      assert BatchedRight(e, e.expired[i]);
    }
    forall q | q in e'.timerExist
      ensures Key(e'.timerExist[q], q) in e'.timers || Batched(e', q)
    {
      if q != p { assert Key(e.timerExist[q], q) in e.timers || Batched(e, q); }
    }
    forall q | q in e'.mem
      ensures MemoryRight(e', q)
    {
      assert MemoryRight(e, q);
    }
    if e'.running != NULL { assert Batched(e, e.running); }
  }

  /** Changing flags of a batched timer, other than its being batched, not queued and running. */
  lemma FlagsInv(e: Engine, e': Engine, p: Ptr, t: Timer)
    requires Inv(e) && Batched(e, p) && p in e.mem
    requires t == e.mem[p].(expiration := t.expiration, state := t.state) && t.expiration > 0
    requires t.state.inExpired && !t.state.inQueued && t.state.inRunning == e.mem[p].state.inRunning
    requires e' == e.(mem := e.mem[p := t])
    ensures Inv(e')
  {
    var b :| 0 <= b < |e.expired| && e.expired[b].timer == p;
    assert BatchedRight(e, e.expired[b]);
    forall k | k in e'.timers
      ensures QueuedRight(e', k)
    {
      assert QueuedRight(e, k);
    }
    forall i | 0 <= i < |e'.expired|
      ensures BatchedRight(e', e'.expired[i])
    {
      assert BatchedRight(e, e.expired[i]);
    }
    forall q | q in e'.timerExist
      ensures Key(e'.timerExist[q], q) in e'.timers || Batched(e', q)
    {
      assert Key(e.timerExist[q], q) in e.timers || Batched(e, q);
    }
    forall q | q in e'.mem
      ensures MemoryRight(e', q)
    {
      assert MemoryRight(e, q);
    }
    if e'.running != NULL { assert Batched(e, e.running); }
  }

  lemma RegisterKeeps(e: Engine, p: Ptr, clock: Clock)
    requires Inv(e) && (p == NULL || p in e.mem)
    ensures Inv(Register(e, p, clock).0)
  {
    if p != NULL {
      ExactlyOnePlace(e, p);
      assert MemoryRight(e, p);
      if p !in e.timerExist {
        if e.mem[p].expiration > 0 { EnqueueKeeps(e, p, clock); }
      } else if Batched(e, p) {
        var b :| 0 <= b < |e.expired| && e.expired[b].timer == p;
        assert BatchedRight(e, e.expired[b]);
        if e.mem[p].state.inRunning && !e.mem[p].state.willRemoved {
          FlagsInv(e, Register(e, p, clock).0, p, e.mem[p].(state := e.mem[p].state.(shouldAdded := true)));
        }
      } else {
        assert QueuedRight(e, Key(e.timerExist[p], p));
      }
    }
  }

  lemma DropInv(e: Engine, e': Engine, p: Ptr)
    requires Inv(e) && p in e.timerExist && Key(e.timerExist[p], p) in e.timers
    requires e'.mem == e.mem - {p} && e'.timers == e.timers - {Key(e.timerExist[p], p)}
    requires e'.timerExist == e.timerExist - {p} && e'.expired == e.expired && e'.running == e.running
    ensures Inv(e')
  {
    ExactlyOnePlace(e, p);
    forall k | k in e'.timers
      ensures QueuedRight(e', k)
    {
      assert QueuedRight(e, k);
    }
    forall i | 0 <= i < |e'.expired|
      ensures BatchedRight(e', e'.expired[i])
    {
      assert BatchedRight(e, e.expired[i]);
      assert Batched(e, e.expired[i].timer);
    }
    forall q | q in e'.timerExist
      ensures Key(e'.timerExist[q], q) in e'.timers || Batched(e', q)
    {
      assert Key(e.timerExist[q], q) in e.timers || Batched(e, q);
    }
    forall q | q in e'.mem
      ensures MemoryRight(e', q)
    {
      assert MemoryRight(e, q);
    }
    if e'.running != NULL { assert Batched(e, e.running); }
  }

  lemma UnregisterKeeps(e: Engine, p: Ptr, clock: Clock)
    requires Inv(e)
    ensures p in e.timerExist ==> p in e.mem
    ensures Inv(Unregister(e, p, clock).0)
  {
    ExactlyOnePlace(e, p);
    if p != NULL && p in e.timerExist {
      if Batched(e, p) {
        var b :| 0 <= b < |e.expired| && e.expired[b].timer == p;
        assert BatchedRight(e, e.expired[b]);
        FlagsInv(e, Unregister(e, p, clock).0, p, e.mem[p].(state := e.mem[p].state.(willRemoved := true)));
      } else {
        assert QueuedRight(e, Key(e.timerExist[p], p));
        DropInv(e, Unregister(e, p, clock).0, p);
      }
    }
  }
}
