/** Applying committed entries in order, with whole batches replayed after a failure, and why the
    replays cannot be seen.
 */
module Apply {
  import opened RaftTypes
  import opened Handlers
  import SM = StateMachine

  /** How each entry of a batch fares, by its index in the log, and when. */
  datatype Weather = Weather(outcome: nat -> SM.Outcome, clock: nat -> nat)

  /** Applies entries from+1..upTo until one fails. */
  function ApplyRange(db: SM.Database, log: seq<Entry>, from: nat, upTo: nat, w: Weather): (SM.Database, bool)
    requires from <= upTo <= |log|
    decreases upTo - from
  {
    if from == upTo then (db, true)
    else
      var (db', ok) := SM.Apply(db, log[from].cmd, w.clock(from + 1), w.outcome(from + 1));
      if ok then ApplyRange(db', log, from + 1, upTo, w) else (db', false)
  }

  class FloydApply {
    var db: SM.Database
    var lastApplied: nat

    constructor (db: SM.Database, lastApplied: nat)
      ensures this.db == db && this.lastApplied == lastApplied
    {
      this.db, this.lastApplied := db, lastApplied;
    }

    /** One run of the apply task. `again` says that it failed and scheduled itself anew. */
    method ApplyStateMachine(log: seq<Entry>, commitIndex: nat, w: Weather) returns (again: bool)
      requires commitIndex <= |log|
      modifies this
      ensures old(lastApplied) >= commitIndex ==> !again && db == old(db) && lastApplied == old(lastApplied)
      ensures old(lastApplied) < commitIndex ==>
        && (db, !again) == ApplyRange(old(db), log, old(lastApplied), commitIndex, w)
        && lastApplied == if again then old(lastApplied) else commitIndex
    {
      var applied := lastApplied;
      again := false;
      if applied >= commitIndex {
        return;
      }
      while applied < commitIndex
        invariant lastApplied == old(lastApplied) <= applied <= commitIndex
        invariant ApplyRange(old(db), log, lastApplied, commitIndex, w) == ApplyRange(db, log, applied, commitIndex, w)
      {
        var (db', ok) := SM.Apply(db, log[applied].cmd, w.clock(applied + 1), w.outcome(applied + 1));
        applied := applied + 1;
        db := db';
        if !ok {
          return true;
        }
      }
      lastApplied := applied;
    }
  }

  // ---------------------------------------------------------------- retry is invisible

  /** Entries that can be replayed: plain key-value commands. */
  predicate Replayable(cmd: Command) { cmd.Write? || cmd.Delete? || cmd.Read? }

  ghost predicate AllReplayable(log: seq<Entry>) {
    forall i :: 0 <= i < |log| ==> Replayable(log[i].cmd)
  }

  /** The reference: the first n entries, once each and in order. */
  function Fold(db: SM.Database, log: seq<Entry>, n: nat): SM.Database
    requires n <= |log|
  {
    if n == 0 then db else Effect(Fold(db, log, n - 1), log[n - 1].cmd)
  }

  function Effect(db: SM.Database, cmd: Command): SM.Database {
    match cmd
    case Write(key, value) => db[key := SM.Plain(value)]
    case Delete(key) => db - {key}
    case _ => db
  }

  function Key(cmd: Command): set<string> {
    match cmd
    case Write(key, _) => {key}
    case Delete(key) => {key}
    case _ => {}
  }

  /** The keys that entries from+1..upTo write. */
  function Touched(log: seq<Entry>, from: nat, upTo: nat): set<string>
    requires from <= upTo <= |log|
  {
    if from == upTo then {} else Touched(log, from, upTo - 1) + Key(log[upTo - 1].cmd)
  }

  /** The two databases differ at most on these keys. */
  ghost predicate AgreeOff(a: SM.Database, b: SM.Database, keys: set<string>) {
    forall k :: k !in keys ==> (k in a <==> k in b) && (k in a ==> a[k] == b[k])
  }

  lemma AgreeEverywhere(a: SM.Database, b: SM.Database)
    requires AgreeOff(a, b, {})
    ensures a == b
  {
    assert a.Keys == b.Keys;
  }

  /** An entry that is applied makes two databases agree on the key it writes. */
  lemma EffectAgrees(a: SM.Database, b: SM.Database, keys: set<string>, cmd: Command)
    requires AgreeOff(a, b, keys)
    ensures AgreeOff(Effect(a, cmd), Effect(b, cmd), keys - Key(cmd))
  {
  }

  /** An entry that is tried changes nothing but the key it writes. */
  lemma TryTouches(db: SM.Database, cmd: Command, now: nat, o: SM.Outcome)
    requires Replayable(cmd)
    ensures AgreeOff(SM.Apply(db, cmd, now, o).0, db, Key(cmd))
    ensures SM.Apply(db, cmd, now, o).1 ==> SM.Apply(db, cmd, now, o).0 == Effect(db, cmd)
  {
  }

  lemma {:induction false} TouchedGrows(log: seq<Entry>, from: nat, i: nat, j: nat)
    requires from <= i <= j <= |log|
    ensures Touched(log, from, i) <= Touched(log, from, j)
    decreases j
  {
    if i < j { TouchedGrows(log, from, i, j - 1); }
  }

  lemma {:induction false} TouchedSplits(log: seq<Entry>, from: nat, upTo: nat)
    requires from < upTo <= |log|
    ensures Touched(log, from, upTo) == Key(log[from].cmd) + Touched(log, from + 1, upTo)
    decreases upTo
  {
    if from + 1 < upTo { TouchedSplits(log, from, upTo - 1); }
  }

  /** A batch that goes through leaves a database that agrees with the reference wherever the
      batch wrote, whatever earlier attempts had left there. */
  lemma {:induction false} RangeMatches(base: SM.Database, db: SM.Database, log: seq<Entry>, from: nat, upTo: nat,
                                       dirty: set<string>, w: Weather)
    requires from <= upTo <= |log| && AllReplayable(log)
    requires AgreeOff(db, Fold(base, log, from), dirty)
    requires ApplyRange(db, log, from, upTo, w).1
    ensures AgreeOff(ApplyRange(db, log, from, upTo, w).0, Fold(base, log, upTo), dirty - Touched(log, from, upTo))
    decreases upTo - from
  {
    if from < upTo {
      var cmd := log[from].cmd;
      var o, now := w.outcome(from + 1), w.clock(from + 1);
      TryTouches(db, cmd, now, o);
      EffectAgrees(db, Fold(base, log, from), dirty, cmd);
      RangeMatches(base, SM.Apply(db, cmd, now, o).0, log, from + 1, upTo, dirty - Key(cmd), w);
      TouchedSplits(log, from, upTo);
      assert dirty - Key(cmd) - Touched(log, from + 1, upTo) == dirty - Touched(log, from, upTo);
    }
  }

  /** A batch, failed or not, changes nothing but the keys of its entries. */
  lemma {:induction false} RangeTouches(db: SM.Database, log: seq<Entry>, from: nat, upTo: nat, w: Weather)
    requires from <= upTo <= |log| && AllReplayable(log)
    ensures AgreeOff(ApplyRange(db, log, from, upTo, w).0, db, Touched(log, from, upTo))
    decreases upTo - from
  {
    if from < upTo {
      var o, now := w.outcome(from + 1), w.clock(from + 1);
      TryTouches(db, log[from].cmd, now, o);
      RangeTouches(SM.Apply(db, log[from].cmd, now, o).0, log, from + 1, upTo, w);
      TouchedSplits(log, from, upTo);
    }
  }

  /** The entries that the fold adds touch their keys only. */
  lemma {:induction false} FoldTouches(base: SM.Database, log: seq<Entry>, from: nat, upTo: nat)
    requires from <= upTo <= |log|
    ensures AgreeOff(Fold(base, log, upTo), Fold(base, log, from), Touched(log, from, upTo))
    decreases upTo
  {
    if from < upTo { FoldTouches(base, log, from, upTo - 1); }
  }

  lemma AgreeAcross(a: SM.Database, b: SM.Database, c: SM.Database, d: SM.Database, keys: set<string>)
    requires AgreeOff(a, b, keys) && AgreeOff(a, c, keys) && AgreeOff(c, d, keys)
    ensures AgreeOff(b, d, keys)
  {
  }

  /** When a batch that goes through leaves what the fold gives: if and only if the database, before
      the attempt, differed from the fold up to the published index at most on keys that the batch
      writes. Whatever happened before, this decides. */
  lemma PublishedExactly(base: SM.Database, db: SM.Database, log: seq<Entry>, from: nat, upTo: nat, w: Weather)
    requires from <= upTo <= |log| && AllReplayable(log) && ApplyRange(db, log, from, upTo, w).1
    ensures ApplyRange(db, log, from, upTo, w).0 == Fold(base, log, upTo)
      <==> AgreeOff(db, Fold(base, log, from), Touched(log, from, upTo))
  {
    var touched, db' := Touched(log, from, upTo), ApplyRange(db, log, from, upTo, w).0;
    if AgreeOff(db, Fold(base, log, from), touched) {
      RangeMatches(base, db, log, from, upTo, touched, w);
      assert touched - touched == {};
      AgreeEverywhere(db', Fold(base, log, upTo));
    }
    if db' == Fold(base, log, upTo) {
      RangeTouches(db, log, from, upTo, w);
      FoldTouches(base, log, from, upTo);
      AgreeAcross(db', db, Fold(base, log, upTo), Fold(base, log, from), touched);
    }
  }

  /** One replica while entries are appended, committed and applied. `attempted` is the highest
      index that any batch so far has reached for. */
  datatype Replica = Replica(db: SM.Database, log: seq<Entry>, commitIndex: nat, lastApplied: nat, attempted: nat)

  datatype Event =
    | Attempt(w: Weather)
    | Commit(index: nat)
    | ChangeSuffix(log: seq<Entry>)

  /** The log changes only past the commit index, and the commit index is not moved below an
      entry that a batch has already reached for. */
  ghost predicate Possible(r: Replica, e: Event) {
    match e
    case Attempt(_) => true
    case Commit(index) => r.attempted <= index <= |r.log|
    case ChangeSuffix(log) =>
      r.commitIndex <= |log| && r.commitIndex <= |r.log| && AllReplayable(log)
      && log[..r.commitIndex] == r.log[..r.commitIndex]
  }

  function Next(r: Replica, e: Event): Replica
    requires r.commitIndex <= |r.log|
  {
    match e
    case Attempt(w) =>
      if r.lastApplied >= r.commitIndex then r
      else
        var (db, ok) := ApplyRange(r.db, r.log, r.lastApplied, r.commitIndex, w);
        r.(db := db, lastApplied := if ok then r.commitIndex else r.lastApplied, attempted := r.commitIndex)
    case Commit(index) => r.(commitIndex := index)
    case ChangeSuffix(log) => r.(log := log)
  }

  /** This attempt publishes a new last_applied. */
  predicate Publishes(r: Replica, e: Event)
    requires r.commitIndex <= |r.log|
  {
    e.Attempt? && Next(r, e).lastApplied > r.lastApplied
  }

  /** So of any replica at all, reached in whatever way, an attempt publishes the fold exactly when
      the database agrees with the fold so far off the keys of the batch. */
  lemma PublishesFoldExactly(base: SM.Database, r: Replica, e: Event)
    requires r.commitIndex <= |r.log| && AllReplayable(r.log) && Publishes(r, e)
    ensures Next(r, e).db == Fold(base, r.log, Next(r, e).lastApplied)
      <==> AgreeOff(r.db, Fold(base, r.log, r.lastApplied), Touched(r.log, r.lastApplied, r.commitIndex))
  {
    PublishedExactly(base, r.db, r.log, r.lastApplied, r.commitIndex, e.w);
  }

  ghost predicate Inv(base: SM.Database, r: Replica) {
    && r.lastApplied <= r.attempted <= r.commitIndex <= |r.log|
    && AllReplayable(r.log)
    && AgreeOff(r.db, Fold(base, r.log, r.lastApplied), Touched(r.log, r.lastApplied, r.attempted))
  }

  lemma {:induction false} SamePrefixSameFold(base: SM.Database, a: seq<Entry>, b: seq<Entry>, n: nat)
    requires n <= |a| && n <= |b| && a[..n] == b[..n]
    ensures Fold(base, a, n) == Fold(base, b, n)
  {
    if n > 0 {
      assert a[..n][..n - 1] == a[..n - 1] && b[..n][..n - 1] == b[..n - 1];
      assert a[..n][n - 1] == a[n - 1] && b[..n][n - 1] == b[n - 1];
      SamePrefixSameFold(base, a, b, n - 1);
    }
  }

  lemma {:induction false} SamePrefixSameTouched(a: seq<Entry>, b: seq<Entry>, from: nat, n: nat)
    requires from <= n <= |a| && n <= |b| && a[..n] == b[..n]
    ensures Touched(a, from, n) == Touched(b, from, n)
    decreases n
  {
    if from < n {
      assert a[..n][..n - 1] == a[..n - 1] && b[..n][..n - 1] == b[..n - 1];
      assert a[..n][n - 1] == a[n - 1] && b[..n][n - 1] == b[n - 1];
      SamePrefixSameTouched(a, b, from, n - 1);
    }
  }

  lemma AttemptKeeps(base: SM.Database, r: Replica, w: Weather)
    requires Inv(base, r)
    ensures Inv(base, Next(r, Attempt(w)))
    ensures Publishes(r, Attempt(w)) ==>
      Next(r, Attempt(w)).db == Fold(base, r.log, Next(r, Attempt(w)).lastApplied)
  {
    if r.lastApplied < r.commitIndex {
      var k, c := r.lastApplied, r.commitIndex;
      TouchedGrows(r.log, k, r.attempted, c);
      if ApplyRange(r.db, r.log, k, c, w).1 {
        PublishesFoldExactly(base, r, Attempt(w));
      } else {
        RangeTouches(r.db, r.log, k, c, w);
      }
    }
  }

  lemma NextKeeps(base: SM.Database, r: Replica, e: Event)
    requires Inv(base, r) && Possible(r, e)
    ensures Inv(base, Next(r, e))
    ensures Publishes(r, e) ==> Next(r, e).db == Fold(base, r.log, Next(r, e).lastApplied)
  {
    match e
    case Attempt(w) => AttemptKeeps(base, r, w);
    case Commit(index) =>
    case ChangeSuffix(log) =>
      var k, h := r.lastApplied, r.attempted;
      assert log[..h] == log[..r.commitIndex][..h] == r.log[..h];
      assert log[..k] == log[..r.commitIndex][..k] == r.log[..k];
      SamePrefixSameFold(base, r.log, log, k);
      SamePrefixSameTouched(r.log, log, k, h);
  }

  ghost predicate AllPossible(base: SM.Database, r: Replica, events: seq<Event>)
    requires Inv(base, r)
    decreases |events|
  {
    events == [] ||
    (Possible(r, events[0]) && (NextKeeps(base, r, events[0]); AllPossible(base, Next(r, events[0]), events[1..])))
  }

  ghost function After(base: SM.Database, r: Replica, events: seq<Event>): (r': Replica)
    requires Inv(base, r) && AllPossible(base, r, events)
    ensures Inv(base, r')
    decreases |events|
  {
    if events == [] then r
    else
      NextKeeps(base, r, events[0]);
      After(base, Next(r, events[0]), events[1..])
  }

  /** A replica that starts where nothing is half applied. */
  function Clean(base: SM.Database, log: seq<Entry>, k: nat): Replica
    requires k <= |log|
  {
    Replica(Fold(base, log, k), log, k, k, k)
  }

  lemma StartsClean(base: SM.Database, log: seq<Entry>, k: nat)
    requires k <= |log| && AllReplayable(log)
    ensures Inv(base, Clean(base, log, k))
  {
  }

  /** Retry is invisible: from a clean start, after any run of failed and successful attempts,
      commits and log changes, an attempt that publishes last_applied leaves the database exactly as
      the entries up to it, applied once each and in order, would. */
  lemma RetryIsInvisible(base: SM.Database, log: seq<Entry>, k: nat, events: seq<Event>, last: Event)
    requires k <= |log| && AllReplayable(log)
    requires (StartsClean(base, log, k);
      AllPossible(base, Clean(base, log, k), events) && Publishes(After(base, Clean(base, log, k), events), last))
    ensures var e := (StartsClean(base, log, k); After(base, Clean(base, log, k), events));
      var n := Next(e, last).lastApplied;
      n > e.lastApplied && Next(e, last).db == Fold(base, e.log, n)
  {
    StartsClean(base, log, k);
    NextKeeps(base, After(base, Clean(base, log, k), events), last);
  }

  // ---------------------------------------------------------------- progress

  /** Every database operation succeeds. */
  ghost predicate Fine(w: Weather) { forall i: nat :: w.outcome(i).getOk && w.outcome(i).putOk }

  /** A batch of any entries, locks too, goes through in fine weather. */
  lemma {:induction false} FineRange(db: SM.Database, log: seq<Entry>, from: nat, upTo: nat, w: Weather)
    requires from <= upTo <= |log| && Fine(w)
    ensures ApplyRange(db, log, from, upTo, w).1
    decreases upTo - from
  {
    if from < upTo {
      assert w.outcome(from + 1).getOk && w.outcome(from + 1).putOk;
      FineRange(SM.Apply(db, log[from].cmd, w.clock(from + 1), w.outcome(from + 1)).0, log, from + 1, upTo, w);
    }
  }

  /** So an attempt in fine weather publishes the commit index, for any log and any database. */
  lemma FineAttempt(r: Replica, w: Weather)
    requires r.commitIndex <= |r.log| && Fine(w)
    ensures Next(r, Attempt(w)).lastApplied == Max(r.lastApplied, r.commitIndex)
  {
    if r.lastApplied < r.commitIndex { FineRange(r.db, r.log, r.lastApplied, r.commitIndex, w); }
  }

  /** And whatever failed before, over logs that can be replayed it publishes the fold of everything
      that is committed. */
  lemma FineAttemptPublishes(base: SM.Database, log: seq<Entry>, k: nat, events: seq<Event>, w: Weather)
    requires k <= |log| && AllReplayable(log) && Fine(w)
    requires (StartsClean(base, log, k); AllPossible(base, Clean(base, log, k), events))
    ensures var e := (StartsClean(base, log, k); After(base, Clean(base, log, k), events));
      var e' := Next(e, Attempt(w));
      && e'.lastApplied == e.commitIndex
      && (e.lastApplied < e.commitIndex ==> e'.db == Fold(base, e.log, e.commitIndex))
  {
    StartsClean(base, log, k);
    var e := After(base, Clean(base, log, k), events);
    FineAttempt(e, w);
    if e.lastApplied < e.commitIndex {
      RetryIsInvisible(base, log, k, events, Attempt(w));
    }
  }

  // ---------------------------------------------------------------- when the commit index falls

  /** A follower that knows three entries committed, and a new leader that knows of one. */
  const THREE := [Entry(1, Write("a", "1")), Entry(1, Write("b", "2")), Entry(1, Write("c", "3"))]
  const FOLLOWER := Node(Addr("f", 1), 1, Follower, NOBODY, Addr("l", 1), 0, 3, map[], THREE, map[Addr("l", 1) := Peer(4, 0)])
  const LEADER := Node(Addr("l", 1), 2, Leader, Addr("l", 1), Addr("l", 1), 2, 1, map[], THREE, map[Addr("f", 1) := Peer(4, 0)])

  /** The leader's heartbeat lowers the follower's commit index from 3 to 1. */
  lemma HeartbeatLowersCommit()
    ensures var req := BuildAppendRequest(LEADER, FOLLOWER.self, 0);
      && (req.prevLogIndex == 0 ==> req.prevLogTerm == 0)
      && var n := ReplyAppendEntries(FOLLOWER, req, true).0;
      n.commitIndex == 1 && FOLLOWER.commitIndex == 3 && n.log == FOLLOWER.log
  {
    LaggingLeaderLowersCommit(FOLLOWER, LEADER);
  }

  /** The premise on the commit index is needed: when that heartbeat arrives after a failed batch
      that had applied two of the three entries, the next publication is of a database that the
      entries up to the published index do not produce. */
  lemma LoweredCommitShows()
    ensures var req := BuildAppendRequest(LEADER, FOLLOWER.self, 0);
      && (req.prevLogIndex == 0 ==> req.prevLogTerm == 0)
      && var fails := Weather(i => SM.Outcome(true, i != 3, false), i => 0);
      var fine := Weather(i => SM.Outcome(true, true, false), i => 0);
      var r := Next(Replica(map[], THREE, FOLLOWER.commitIndex, 0, 0), Attempt(fails));
      var n := ReplyAppendEntries(FOLLOWER, req, true).0;
      var lowered := r.(log := n.log, commitIndex := n.commitIndex);
      && lowered.commitIndex <= |lowered.log|
      && Publishes(lowered, Attempt(fine)) && Next(lowered, Attempt(fine)).db != Fold(map[], n.log, 1)
  {
    HeartbeatLowersCommit();
    var fails := Weather(i => SM.Outcome(true, i != 3, false), i => 0);
    var fine := Weather(i => SM.Outcome(true, true, false), i => 0);
    var db1: SM.Database := map["a" := SM.Plain("1")];
    var db2: SM.Database := map["a" := SM.Plain("1"), "b" := SM.Plain("2")];
    assert ApplyRange(db2, THREE, 2, 3, fails) == (db2, false);
    assert ApplyRange(db1, THREE, 1, 3, fails) == (db2, false);
    assert ApplyRange(map[], THREE, 0, 3, fails) == (db2, false);
    assert db2["a" := SM.Plain("1")] == db2;
    assert ApplyRange(db2, THREE, 1, 1, fine) == (db2, true);
    assert ApplyRange(db2, THREE, 0, 1, fine) == (db2, true);
    assert Fold(map[], THREE, 1) == db1;
    assert "b" in db2 && "b" !in db1;
  }
}
