/** The replicated state machine: what applying one committed entry does to the database. */
module StateMachine {
  import opened RaftTypes

  /** A stored value: a plain one, or a lock with its holder and the end of its lease. */
  datatype Stored = Plain(text: string) | Lock(holder: string, leaseEnd: nat) {
    /** Reading a value as a lock; a plain value reads as an unheld one. */
    function AsLock(): Stored { if Lock? then this else Lock("", 0) }
  }

  type Database = map<string, Stored>

  /** How the database behaved: whether the read worked, whether the write reported success, and
      whether a write that reported failure took effect nevertheless. */
  datatype Outcome = Outcome(getOk: bool, putOk: bool, took: bool)

  function Put(db: Database, key: string, value: Stored, o: Outcome): (Database, bool) {
    (if o.putOk || o.took then db[key := value] else db, o.putOk)
  }

  function Remove(db: Database, key: string, o: Outcome): (Database, bool) {
    (if o.putOk || o.took then db - {key} else db, o.putOk)
  }

  /** The new database and whether the entry counts as applied. */
  function Apply(db: Database, cmd: Command, now: nat, o: Outcome): (Database, bool) {
    match cmd
    case Write(key, value) => Put(db, key, Plain(value), o)
    case Delete(key) => Remove(db, key, o)
    case Read(_) => (db, true)
    case TryLock(name, holder, leaseEnd) =>
      if !o.getOk then (db, false)
      else if name in db && db[name].AsLock().leaseEnd >= now then (db, true)
      else Put(db, name, Lock(holder, leaseEnd), o)
    case UnLock(name, holder) =>
      if !o.getOk then (db, false)
      else if name !in db || db[name].AsLock().holder != holder || db[name].AsLock().leaseEnd < now then (db, true)
      else Remove(db, name, o)
  }

  datatype Code = Ok | Error | Locked

  /** The answer to a TryLock once its entry is applied. */
  function TryLockReply(db: Database, name: string, holder: string, leaseEnd: nat): Code {
    if name !in db then Locked
    else if db[name].AsLock() == Lock(holder, leaseEnd) then Ok
    else Error
  }

  /** The answer to an UnLock once its entry is applied. */
  function UnLockReply(db: Database, name: string): Code {
    if name !in db then Ok else Locked
  }
}
