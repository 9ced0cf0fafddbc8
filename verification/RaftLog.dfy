/** The replicated log on disk, and the metadata that shares its store. */
module RaftLog {
  import opened RaftTypes
  import opened BitString
  import opened LogStore
  import opened Ordering

  /** The ordered key-value store; only its contents matter here. */
  class Database {
    var data: map<Key, Stored>

    constructor ()
      ensures data == map[]
    {
      data := map[];
    }
  }

  /** The store's iterator, over the keys at the time it was made. */
  class KeyIterator {
    const keys: seq<Key>
    var pos: int

    constructor (db: Database)
      ensures keys == KeyOrder(db.data.Keys)
    {
      LessIsOrder();
      var ks := Sort(Less, db.data.Keys);
      keys, pos := ks, -1;
    }

    predicate Valid()
      reads this
    {
      0 <= pos < |keys|
    }

    method SeekToLast()
      modifies this
      ensures pos == |keys| - 1
    {
      pos := |keys| - 1;
    }

    /** One key back. Moving an iterator that stands nowhere has no meaning, and is reported. */
    method Prev() returns (defined: bool)
      modifies this
      ensures defined <==> old(Valid())
      ensures pos == if defined then old(pos) - 1 else old(pos)
    {
      defined := Valid();
      if defined {
        pos := pos - 1;
      }
    }
  }

  /** Steps five keys back from the last key and reads what is there as an index. `defined` is false
      when a step was taken from nowhere, which the store's iterator gives no meaning to. */
  method RecoverIndex(db: Database) returns (defined: bool, index: nat)
    requires forall i :: 0 <= i < |KeyOrder(db.data.Keys)| ==> |KeyOrder(db.data.Keys)[i]| >= 8
    ensures var n := |KeyOrder(db.data.Keys)|;
      defined <==> n == 0 || WalkBack(n, 5) != Undefined
    ensures defined ==> index == RecoveredIndex(KeyOrder(db.data.Keys))
  {
    index := 0;
    ghost var ks := KeyOrder(db.data.Keys);
    WalkDefinedExactly(|ks|, 5);
    var it := new KeyIterator(db);
    it.SeekToLast();
    defined := true;
    if it.Valid() {
      var d1 := it.Prev();
      var d2 := it.Prev();
      var d3 := it.Prev();
      var d4 := it.Prev();
      var d5 := it.Prev();
      defined := d1 && d2 && d3 && d4 && d5;
      if defined && it.Valid() {
        var key := it.keys[it.pos];
        assert key == ks[|ks| - 6];
        index := BitStrToUint(key);
      }
    }
  }

  class Log {
    const db: Database
    var lastLogIndex: nat

    ghost predicate Valid()
      reads this, db
    {
      HoldsLog(db.data, lastLogIndex)
    }

    /** The entries 1..last_log_index_. */
    ghost function Entries(): (log: seq<Entry>)
      requires Valid()
      reads this, db
      ensures |log| == lastLogIndex
    {
      LogOf(db.data, lastLogIndex)
    }

    /** Opening a store that is new, or that holds n entries and the five metadata keys,
        recovers the index n. */
    constructor (db: Database, ghost n: nat)
      requires HoldsLog(db.data, n) && n < INDEX_LIMIT
      requires db.data == map[] || |MetaPart(db.data)| == 5
      ensures this.db == db && Valid()
      ensures lastLogIndex == n && Entries() == LogOf(db.data, n)
    {
      this.db := db;
      lastLogIndex := 0;
      new;
      RecoversIndex(db.data, n);
      WalkDefinedExactly(|KeyOrder(db.data.Keys)|, 5);
      var _, index := RecoverIndex(db);
      lastLogIndex := index;
    }

    method Append(entries: seq<Entry>, writeOk: bool) returns (last: nat)
      requires Valid() && lastLogIndex + |entries| <= MAX_INDEX
      modifies this, db
      ensures Valid() && last == lastLogIndex
      ensures Entries() == if writeOk then old(Entries()) + entries else old(Entries())
      ensures MetaPart(db.data) == old(MetaPart(db.data))
    {
      var batch: map<Key, Stored> := map[];
      ghost var n := lastLogIndex;
      for i := 0 to |entries|
        invariant lastLogIndex == n + i && db.data == old(db.data)
        invariant BatchOf(batch, n, entries[..i])
      {
        BatchGrows(batch, n, entries[..i], entries[i]);
        assert entries[..i] + [entries[i]] == entries[..i + 1];
        lastLogIndex := lastLogIndex + 1;
        batch := batch[UintToBitStr(lastLogIndex) := LogValue(entries[i])];
      }
      assert entries[..|entries|] == entries;
      AppendExtends(db.data, n, batch, entries);
      if writeOk {
        db.data := db.data + batch;
      } else {
        lastLogIndex := lastLogIndex - |entries|;
      }
      last := lastLogIndex;
    }

    method GetEntry(index: uint64) returns (found: bool, entry: Entry)
      requires Valid()
      ensures found <==> 1 <= index <= lastLogIndex
      ensures found ==> entry == Entries()[index - 1]
    {
      var key := UintToBitStr(index);
      IndexKeyOf(index, lastLogIndex);
      if key in db.data {
        return true, db.data[key].entry;
      }
      return false, Entry(0, Read(""));
    }

    method GetLastLogTermAndIndex() returns (term: nat, index: nat)
      requires Valid()
      ensures term == LastTerm(Entries()) && index == |Entries()|
    {
      term, index := 0, 0;
      if lastLogIndex == 0 {
        return;
      }
      IndexKeyOf(lastLogIndex, lastLogIndex);
      assert Entries()[lastLogIndex - 1] == EntryAt(db.data, lastLogIndex, lastLogIndex);
      var key := UintToBitStr(lastLogIndex);
      if key !in db.data {
        return;
      }
      term, index := db.data[key].entry.term, lastLogIndex;
    }

    /** Index 0 would make the original loop below zero, so callers start at 1 or later. */
    method TruncateSuffix(index: nat)
      requires Valid() && index >= 1
      modifies this, db
      ensures Valid()
      ensures Entries() == old(Entries())[..if index - 1 < old(lastLogIndex) then index - 1 else old(lastLogIndex)]
      ensures MetaPart(db.data) == old(MetaPart(db.data))
    {
      var gone: set<Key> := {};
      ghost var n := lastLogIndex;
      while lastLogIndex >= index
        invariant db.data == old(db.data)
        invariant lastLogIndex <= n && (lastLogIndex >= index - 1 || lastLogIndex == n)
        invariant forall k :: k in gone <==> IndexKey(k, n) && Value(k) > lastLogIndex
      {
        GoneGrows(gone, n, lastLogIndex);
        gone := gone + {UintToBitStr(lastLogIndex)};
        lastLogIndex := lastLogIndex - 1;
      }
      TruncateCuts(db.data, n, lastLogIndex, gone);
      db.data := db.data - gone;
    }
  }

  lemma GoneGrows(gone: set<Key>, n: nat, last: nat)
    requires 1 <= last <= n <= MAX_INDEX
    requires forall k :: k in gone <==> IndexKey(k, n) && Value(k) > last
    ensures forall k :: k in gone + {UintToBitStr(last)} <==> IndexKey(k, n) && Value(k) > last - 1
  {
    IndexKeyOf(last, n);
    forall k
      ensures k in gone + {UintToBitStr(last)} <==> IndexKey(k, n) && Value(k) > last - 1
    {
      if |k| == 8 { IndexOfKey(k); }
    }
  }

  /** The five metadata values kept beside the log. */
  class Meta {
    const db: Database

    constructor (db: Database)
      ensures this.db == db
    {
      this.db := db;
    }

    method GetNumber(key: Key) returns (number: int)
      requires key in db.data ==> db.data[key].NumberValue?
      ensures number == if key in db.data then db.data[key].number else 0
    {
      if key !in db.data {
        return 0;
      }
      return db.data[key].number;
    }

    method SetNumber(key: Key, number: int)
      modifies db
      ensures db.data == old(db.data)[key := NumberValue(number)]
    {
      db.data := db.data[key := NumberValue(number)];
    }

    method GetVotedForIp() returns (ip: string)
      requires VOTEFORIP in db.data ==> db.data[VOTEFORIP].TextValue?
      ensures ip == if VOTEFORIP in db.data then db.data[VOTEFORIP].text else ""
    {
      if VOTEFORIP !in db.data {
        return "";
      }
      return db.data[VOTEFORIP].text;
    }

    method SetVotedForIp(ip: string)
      modifies db
      ensures db.data == old(db.data)[VOTEFORIP := TextValue(ip)]
    {
      db.data := db.data[VOTEFORIP := TextValue(ip)];
    }

    /** After initialisation exactly the five metadata keys stand beside the log, whatever
        subset of them was there before; the log and all that was there are untouched. */
    method Init(ghost n: nat)
      requires HoldsLog(db.data, n) && Typed(db.data)
      modifies db
      ensures OnlyAdded(old(db.data), db.data, n)
      ensures MetaPart(db.data) == META_KEYS && |MetaPart(db.data)| == 5
    {
      ghost var before := db.data;
      EnsureNumber(CURRENTTERM, before, n);
      var ip := GetVotedForIp();
      if ip == "" {
        MetaWriteKeepsLog(db.data, n, VOTEFORIP, TextValue(""));
        SetVotedForIp("");
      }
      EnsureNumber(VOTEFORPORT, before, n);
      EnsureNumber(COMMITINDEX, before, n);
      EnsureNumber(APPLYINDEX, before, n);
      AllFive(db.data, n);
    }

    method EnsureNumber(key: Key, ghost before: map<Key, Stored>, ghost n: nat)
      requires HoldsLog(before, n) && OnlyAdded(before, db.data, n)
      requires key in META_KEYS && key != VOTEFORIP
      modifies db
      ensures OnlyAdded(before, db.data, n)
      ensures db.data.Keys == old(db.data).Keys + {key}
    {
      var number := GetNumber(key);
      if number == 0 {
        MetaWriteKeepsLog(db.data, n, key, NumberValue(0));
        SetNumber(key, 0);
      }
    }
  }

  /** The same log, and nothing but well-typed metadata added to what was there. */
  ghost predicate OnlyAdded(before: map<Key, Stored>, data: map<Key, Stored>, n: nat)
    requires HoldsLog(before, n)
  {
    && HoldsLog(data, n) && LogOf(data, n) == LogOf(before, n)
    && Typed(data)
    && forall k :: k in before ==> k in data && data[k] == before[k]
  }

  /** Only the five names occur as metadata, each with a value of its own kind. */
  ghost predicate Typed(data: map<Key, Stored>) {
    forall k :: k in data && !data[k].LogValue? ==>
      k in META_KEYS && (if k == VOTEFORIP then data[k].TextValue? else data[k].NumberValue?)
  }

  lemma AllFive(data: map<Key, Stored>, n: nat)
    requires HoldsLog(data, n) && Typed(data) && META_KEYS <= data.Keys
    ensures MetaPart(data) == META_KEYS && |MetaPart(data)| == 5
  {
    assert MetaPart(data) == META_KEYS;
    assert APPLYINDEX[0] == 0x41 && COMMITINDEX[0] == CURRENTTERM[0] == 0x43 && VOTEFORIP[0] == VOTEFORPORT[0] == 0x56;
    assert COMMITINDEX[1] != CURRENTTERM[1];
    assert |VOTEFORIP| != |VOTEFORPORT|;
  }
}
