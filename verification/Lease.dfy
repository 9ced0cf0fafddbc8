/** Locks with leases: on one replica, with a clock that does not go back and names used only as
    locks, a lock changes hands only by expiry or by its holder's own UnLock.
 */
module Lease {
  import opened RaftTypes
  import opened StateMachine

  /** One attempt to apply a lock entry; replays and failures are attempts like any other. */
  datatype Attempt = Attempt(cmd: Command, now: nat, o: Outcome)

  ghost predicate LockAttempts(attempts: seq<Attempt>) {
    forall i :: 0 <= i < |attempts| ==> attempts[i].cmd.TryLock? || attempts[i].cmd.UnLock?
  }

  ghost predicate ClockForward(attempts: seq<Attempt>) {
    forall i, j :: 0 <= i <= j < |attempts| ==> attempts[i].now <= attempts[j].now
  }

  /** The database after the first n attempts. */
  function After(db: Database, attempts: seq<Attempt>, n: nat): Database
    requires n <= |attempts|
  {
    if n == 0 then db
    else
      var a := attempts[n - 1];
      Apply(After(db, attempts, n - 1), a.cmd, a.now, a.o).0
  }

  predicate Holds(db: Database, name: string, lock: Stored) {
    name in db && db[name] == lock
  }

  /** This attempt releases the lock: an UnLock by its holder, in time, whose delete took effect. */
  predicate Releases(a: Attempt, name: string, lock: Stored)
    requires lock.Lock?
  {
    a.cmd == UnLock(name, lock.holder) && a.now <= lock.leaseEnd && a.o.getOk && (a.o.putOk || a.o.took)
  }

  /** This attempt takes the lock over after its lease has ended. */
  predicate TakesOver(a: Attempt, name: string, lock: Stored)
    requires lock.Lock?
  {
    && a.cmd.TryLock? && a.cmd.name == name && a.now > lock.leaseEnd
    && a.o.getOk && (a.o.putOk || a.o.took) && Lock(a.cmd.holder, a.cmd.leaseEnd) != lock
  }

  /** A held lock changes in one attempt exactly when it is released or taken over after expiry. */
  lemma ChangesExactly(db: Database, a: Attempt, name: string, lock: Stored)
    requires lock.Lock? && Holds(db, name, lock)
    requires a.cmd.TryLock? || a.cmd.UnLock?
    ensures !Holds(Apply(db, a.cmd, a.now, a.o).0, name, lock) <==> Releases(a, name, lock) || TakesOver(a, name, lock)
  {
  }

  /** A lock that is gone was released by its holder in time, or its lease had ended by then. */
  lemma {:induction false} GoneMeansReleasedOrExpired(db: Database, attempts: seq<Attempt>, i: nat, j: nat, name: string, lock: Stored)
    requires LockAttempts(attempts) && ClockForward(attempts)
    requires i <= j <= |attempts| && lock.Lock?
    requires Holds(After(db, attempts, i), name, lock) && !Holds(After(db, attempts, j), name, lock)
    ensures attempts[j - 1].now > lock.leaseEnd || exists m :: i <= m < j && Releases(attempts[m], name, lock)
    decreases j
  {
    var before := After(db, attempts, j - 1);
    if Holds(before, name, lock) {
      ChangesExactly(before, attempts[j - 1], name, lock);
      if Releases(attempts[j - 1], name, lock) {
        assert i <= j - 1 < j && Releases(attempts[j - 1], name, lock);
      }
    } else {
      GoneMeansReleasedOrExpired(db, attempts, i, j - 1, name, lock);
      if attempts[j - 2].now > lock.leaseEnd {
        assert attempts[j - 2].now <= attempts[j - 1].now;
      } else {
        var m :| i <= m < j - 1 && Releases(attempts[m], name, lock);
        assert i <= m < j;
      }
    }
  }

  /** Mutual exclusion: if one holder has a lock at one point of a run and another holder has it
      later, then by that time the first lease had ended, or the first holder released it in
      between, in time. */
  lemma MutualExclusion(db: Database, attempts: seq<Attempt>, i: nat, j: nat, name: string, first: Stored, second: Stored)
    requires LockAttempts(attempts) && ClockForward(attempts)
    requires i <= j <= |attempts| && first.Lock? && second.Lock? && first.holder != second.holder
    requires Holds(After(db, attempts, i), name, first) && Holds(After(db, attempts, j), name, second)
    ensures i < j
    ensures attempts[j - 1].now > first.leaseEnd || exists m :: i <= m < j && Releases(attempts[m], name, first)
  {
    GoneMeansReleasedOrExpired(db, attempts, i, j, name, first);
  }

  /** Only locks are ever stored under the names, whatever is attempted. */
  lemma {:induction false} OnlyLocks(db: Database, attempts: seq<Attempt>, n: nat, name: string)
    requires LockAttempts(attempts) && n <= |attempts|
    requires name in db ==> db[name].Lock?
    ensures var d := After(db, attempts, n); name in d ==> d[name].Lock?
  {
    if n > 0 { OnlyLocks(db, attempts, n - 1, name); }
  }

  /** TryLock answers kOk exactly when the stored lock is the one asked for; so a holder that was
      answered kOk keeps the lock until its lease ends or it unlocks. */
  lemma OkMeansHeld(db: Database, attempts: seq<Attempt>, i: nat, j: nat, name: string, holder: string, leaseEnd: nat)
    requires LockAttempts(attempts) && ClockForward(attempts) && 1 <= i <= j <= |attempts|
    requires name in db ==> db[name].Lock?
    ensures TryLockReply(After(db, attempts, i), name, holder, leaseEnd) == Ok
      <==> Holds(After(db, attempts, i), name, Lock(holder, leaseEnd))
    ensures TryLockReply(After(db, attempts, i), name, holder, leaseEnd) == Ok
      && attempts[j - 1].now <= leaseEnd
      && (forall m :: i <= m < j ==> attempts[m].cmd != UnLock(name, holder))
      ==> Holds(After(db, attempts, j), name, Lock(holder, leaseEnd))
  {
    OnlyLocks(db, attempts, i, name);
    var lock := Lock(holder, leaseEnd);
    if Holds(After(db, attempts, i), name, lock) && !Holds(After(db, attempts, j), name, lock) {
      GoneMeansReleasedOrExpired(db, attempts, i, j, name, lock);
    }
  }

  /** An UnLock of a held lock that counts as applied is answered kOk exactly when it came from the
      holder before the lease end; an expired lock stays, and is answered as still locked. */
  lemma UnLockAnsweredExactly(db: Database, a: Attempt, name: string, lock: Stored)
    requires lock.Lock? && Holds(db, name, lock)
    requires a.cmd.UnLock? && a.cmd.name == name && Apply(db, a.cmd, a.now, a.o).1
    ensures UnLockReply(Apply(db, a.cmd, a.now, a.o).0, name) == Ok <==> Releases(a, name, lock)
    ensures !Releases(a, name, lock) ==> Apply(db, a.cmd, a.now, a.o).0 == db
  {
  }

  // ---------------------------------------------------------------- taking a lock

  /** Nobody holds the name, or its lease has ended. */
  predicate Free(db: Database, name: string, now: nat) {
    name !in db || db[name].AsLock().leaseEnd < now
  }

  /** The put of this attempt took effect. */
  predicate Wrote(o: Outcome) { o.putOk || o.took }

  /** A TryLock takes a lock that was not so held before if and only if the name was free and the
      database could be read and written; and if the attempt counts as applied, it is answered kOk
      exactly when the lock is the asked one, kLocked exactly when there is none. */
  lemma TakesExactly(db: Database, a: Attempt, name: string, holder: string, leaseEnd: nat)
    requires a.cmd == TryLock(name, holder, leaseEnd) && !Holds(db, name, Lock(holder, leaseEnd))
    requires name in db ==> db[name].Lock?
    ensures var (db', applied) := Apply(db, a.cmd, a.now, a.o);
      && (Holds(db', name, Lock(holder, leaseEnd)) <==> a.o.getOk && Wrote(a.o) && Free(db, name, a.now))
      && (applied ==>
            && (TryLockReply(db', name, holder, leaseEnd) == Ok <==> Free(db, name, a.now))
            && (TryLockReply(db', name, holder, leaseEnd) != Ok ==> db' == db && TryLockReply(db', name, holder, leaseEnd) == Error))
      && (forall other :: other != name ==> (other in db' <==> other in db) && (other in db ==> db'[other] == db[other]))
  {
  }

  /** An entry counts as applied if and only if every database operation that it needs succeeded: a
      read for locks, and a write for what it changes. */
  lemma CountsExactly(db: Database, a: Attempt)
    ensures Apply(db, a.cmd, a.now, a.o).1 <==> (NeedsGet(a.cmd) ==> a.o.getOk) && (NeedsPut(db, a.cmd, a.now) ==> a.o.putOk)
  {
  }

  predicate NeedsGet(cmd: Command) { cmd.TryLock? || cmd.UnLock? }

  predicate NeedsPut(db: Database, cmd: Command, now: nat) {
    match cmd
    case Write(_, _) => true
    case Delete(_) => true
    case Read(_) => false
    case TryLock(name, _, _) => Free(db, name, now)
    case UnLock(name, holder) => !Free(db, name, now) && db[name].AsLock().holder == holder
  }

  /** After a release nobody holds the name. */
  lemma ReleaseFrees(db: Database, a: Attempt, name: string, lock: Stored, now: nat)
    requires lock.Lock? && Holds(db, name, lock) && Releases(a, name, lock)
    ensures Free(Apply(db, a.cmd, a.now, a.o).0, name, now)
  {
  }

  /** A free name stays free until somebody asks for it. */
  lemma {:induction false} StaysFree(db: Database, attempts: seq<Attempt>, i: nat, j: nat, name: string, now: nat)
    requires LockAttempts(attempts) && i <= j <= |attempts|
    requires forall m :: i <= m < j ==> !(attempts[m].cmd.TryLock? && attempts[m].cmd.name == name)
    requires Free(After(db, attempts, i), name, now)
    ensures Free(After(db, attempts, j), name, now)
    decreases j
  {
    if i < j { StaysFree(db, attempts, i, j - 1, name, now); }
  }

  /** The lock was held first and then released in time, or its lease had ended by the j-th attempt. */
  ghost predicate GivenUp(db: Database, attempts: seq<Attempt>, i: nat, j: nat, name: string, first: Stored)
    requires first.Lock? && i <= j < |attempts|
  {
    && Holds(After(db, attempts, i), name, first)
    && ((i < j && Releases(attempts[i], name, first)) || attempts[j].now > first.leaseEnd)
  }

  /** After a release or an expiry the next TryLock by anyone, whose database operations succeed,
      takes the lock and is answered kOk. */
  lemma NextTakerHolds(db: Database, attempts: seq<Attempt>, i: nat, j: nat, name: string, first: Stored,
                       holder: string, leaseEnd: nat)
    requires LockAttempts(attempts) && first.Lock? && i <= j < |attempts| && GivenUp(db, attempts, i, j, name, first)
    requires forall m :: i <= m < j ==> !(attempts[m].cmd.TryLock? && attempts[m].cmd.name == name)
    requires attempts[j].cmd == TryLock(name, holder, leaseEnd) && attempts[j].o.getOk && attempts[j].o.putOk
    ensures Holds(After(db, attempts, j + 1), name, Lock(holder, leaseEnd))
    ensures TryLockReply(After(db, attempts, j + 1), name, holder, leaseEnd) == Ok
  {
    if attempts[j].now > first.leaseEnd {
      StaysFree(db, attempts, i, j, name, attempts[j].now);
    } else {
      ReleaseFrees(After(db, attempts, i), attempts[i], name, first, attempts[j].now);
      StaysFree(db, attempts, i + 1, j, name, attempts[j].now);
    }
    assert Free(After(db, attempts, j), name, attempts[j].now);
  }
}
