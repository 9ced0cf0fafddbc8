/** The ordered key-value store that the log and the metadata share, and the log's index
    recovered from it.
 */
module LogStore {
  import opened RaftTypes
  import opened BitString
  import opened Ordering

  datatype Stored = LogValue(entry: Entry) | NumberValue(number: int) | TextValue(text: string)

  const MAX_INDEX: nat := 0xFFFF_FFFF_FFFF_FFFF

  /** Indices from here on have encodings that sort among or after the metadata names. */
  const INDEX_LIMIT: nat := 0x4100_0000_0000_0000

  const APPLYINDEX: Key := [0x41, 0x50, 0x50, 0x4C, 0x59, 0x49, 0x4E, 0x44, 0x45, 0x58]
  const COMMITINDEX: Key := [0x43, 0x4F, 0x4D, 0x4D, 0x49, 0x54, 0x49, 0x4E, 0x44, 0x45, 0x58]
  const CURRENTTERM: Key := [0x43, 0x55, 0x52, 0x52, 0x45, 0x4E, 0x54, 0x54, 0x45, 0x52, 0x4D]
  const VOTEFORIP: Key := [0x56, 0x4F, 0x54, 0x45, 0x46, 0x4F, 0x52, 0x49, 0x50]
  const VOTEFORPORT: Key := [0x56, 0x4F, 0x54, 0x45, 0x46, 0x4F, 0x52, 0x50, 0x4F, 0x52, 0x54]
  const FENCINGTOKEN: Key := [0x46, 0x45, 0x4E, 0x43, 0x49, 0x4E, 0x47, 0x54, 0x4F, 0x4B, 0x45, 0x4E]

  const META_KEYS: set<Key> := {APPLYINDEX, COMMITINDEX, CURRENTTERM, VOTEFORIP, VOTEFORPORT}

  /** Metadata names are longer than eight bytes and start with a capital letter. */
  predicate MetaKey(k: Key) { |k| > 8 && k[0] >= 0x41 }

  /** The key of one of the indices 1..n. */
  predicate IndexKey(k: Key, n: nat) { |k| == 8 && 1 <= Value(k) <= n }

  /** The store holds exactly the entries 1..n, besides metadata. */
  ghost predicate HoldsLog(data: map<Key, Stored>, n: nat) {
    && n <= MAX_INDEX
    && (forall k :: IndexKey(k, n) ==> k in data)
    && (forall k :: k in data ==> if data[k].LogValue? then IndexKey(k, n) else MetaKey(k))
  }

  /** The entries held, in index order. */
  ghost function LogOf(data: map<Key, Stored>, n: nat): (log: seq<Entry>)
    requires HoldsLog(data, n)
    ensures |log| == n
  {
    seq(n, i requires 0 <= i < n => EntryAt(data, n, i + 1))
  }

  ghost function EntryAt(data: map<Key, Stored>, n: nat, i: nat): Entry
    requires HoldsLog(data, n) && 1 <= i <= n
  {
    IndexKeyOf(i, n);
    data[UintToBitStr(i)].entry
  }

  lemma IndexKeyOf(i: nat, n: nat)
    requires i <= MAX_INDEX
    ensures IndexKey(UintToBitStr(i), n) <==> 1 <= i <= n
    ensures Value(UintToBitStr(i)) == i
  {
    RoundTrip(i);
    assert UintToBitStr(i)[..8] == UintToBitStr(i);
  }

  lemma IndexOfKey(k: Key)
    requires |k| == 8
    ensures Value(k) <= MAX_INDEX && UintToBitStr(Value(k)) == k
  {
    EncodesValue(k);
  }

  /** Writing the entries of a batch under the indices after n extends the log by them. */
  lemma AppendExtends(data: map<Key, Stored>, n: nat, batch: map<Key, Stored>, entries: seq<Entry>)
    requires HoldsLog(data, n) && n + |entries| <= MAX_INDEX
    requires BatchOf(batch, n, entries)
    ensures HoldsLog(data + batch, n + |entries|)
    ensures LogOf(data + batch, n + |entries|) == LogOf(data, n) + entries
  {
    var data', n' := data + batch, n + |entries|;
    assert HoldsLog(data', n');
    forall i | 0 <= i < n'
      ensures LogOf(data', n')[i] == (LogOf(data, n) + entries)[i]
    {
      IndexKeyOf(i + 1, n);
      IndexKeyOf(i + 1, n');
      if i >= n {
        assert UintToBitStr(i + 1) in batch;
      }
    }
  }

  /** The batch that Append builds: one value per entry, under consecutive indices after n. */
  ghost predicate BatchOf(batch: map<Key, Stored>, n: nat, entries: seq<Entry>) {
    && n + |entries| <= MAX_INDEX
    && (forall k :: k in batch <==> IndexKey(k, n + |entries|) && Value(k) > n)
    && (forall k :: k in batch ==> batch[k] == LogValue(entries[Value(k) - n - 1]))
  }

  lemma BatchGrows(batch: map<Key, Stored>, n: nat, entries: seq<Entry>, e: Entry)
    requires BatchOf(batch, n, entries) && n + |entries| + 1 <= MAX_INDEX
    ensures BatchOf(batch[UintToBitStr(n + |entries| + 1) := LogValue(e)], n, entries + [e])
  {
    var last := n + |entries| + 1;
    var batch' := batch[UintToBitStr(last) := LogValue(e)];
    IndexKeyOf(last, last);
    forall k
      ensures k in batch' <==> IndexKey(k, last) && Value(k) > n
      ensures k in batch' ==> batch'[k] == LogValue((entries + [e])[Value(k) - n - 1])
    {
      if |k| == 8 {
        IndexOfKey(k);
      }
    }
  }

  /** Deleting the keys of the indices after m cuts the log back to m entries. */
  lemma TruncateCuts(data: map<Key, Stored>, n: nat, m: nat, gone: set<Key>)
    requires HoldsLog(data, n) && m <= n
    requires forall k :: k in gone <==> IndexKey(k, n) && Value(k) > m
    ensures HoldsLog(data - gone, m)
    ensures LogOf(data - gone, m) == LogOf(data, n)[..m]
  {
    var data' := data - gone;
    assert HoldsLog(data', m);
    forall i | 0 <= i < m
      ensures LogOf(data', m)[i] == LogOf(data, n)[i]
    {
      IndexKeyOf(i + 1, m);
      IndexKeyOf(i + 1, n);
    }
  }

  /** Writing a metadata value leaves the log alone. */
  lemma MetaWriteKeepsLog(data: map<Key, Stored>, n: nat, k: Key, v: Stored)
    requires HoldsLog(data, n) && MetaKey(k) && !v.LogValue?
    ensures HoldsLog(data[k := v], n) && LogOf(data[k := v], n) == LogOf(data, n)
  {
    assert HoldsLog(data[k := v], n);
    forall i | 0 <= i < n
      ensures LogOf(data[k := v], n)[i] == LogOf(data, n)[i]
    {
      IndexKeyOf(i + 1, n);
    }
  }

  /** The keys in the order in which the store's iterator visits them. */
  ghost function KeyOrder(keys: set<Key>): (ks: seq<Key>)
    ensures Ascending(Less, ks) && |ks| == |keys|
    ensures forall x :: x in ks <==> x in keys
  {
    LessIsOrder();
    InOrder(Less, keys)
  }

  // ---------------------------------------------------------------- recovery

  /** What stepping five keys back from the last one reads: the sixth key from the end, or
      nothing when there are fewer. */
  function RecoveredIndex(ks: seq<Key>): nat
    requires forall i :: 0 <= i < |ks| ==> |ks[i]| >= 8
  {
    if |ks| >= 6 then BitStrToUint(ks[|ks| - 6]) else 0
  }

  ghost function MetaPart(data: map<Key, Stored>): set<Key> {
    set k | k in data && !data[k].LogValue?
  }

  ghost function IndexKeys(n: nat): seq<Key>
    requires n <= MAX_INDEX
  {
    seq(n, i requires 0 <= i < n => UintToBitStr(i + 1))
  }

  lemma IndexKeysAscend(n: nat, metas: seq<Key>)
    requires n < INDEX_LIMIT
    requires Ascending(Less, metas) && forall i :: 0 <= i < |metas| ==> MetaKey(metas[i])
    ensures Ascending(Less, IndexKeys(n) + metas)
  {
    var ks := IndexKeys(n) + metas;
    forall i, j | 0 <= i < j < |ks|
      ensures Less(ks[i], ks[j])
    {
      if j < n {
        OrderIsNumeric(i + 1, j + 1);
      } else if i < n {
        SmallLeadingByte(i + 1);
        assert MetaKey(metas[j - n]);
      }
    }
  }

  lemma IndexKeysAre(n: nat, x: Key)
    requires n <= MAX_INDEX
    ensures x in IndexKeys(n) <==> IndexKey(x, n)
  {
    if IndexKey(x, n) {
      IndexOfKey(x);
      assert IndexKeys(n)[Value(x) - 1] == x;
    }
    if x in IndexKeys(n) {
      var i :| 0 <= i < n && IndexKeys(n)[i] == x;
      IndexKeyOf(i + 1, n);
    }
  }

  /** Below the limit, the index keys come first, in numeric order, and the metadata last. */
  lemma KeysKeyOrder(data: map<Key, Stored>, n: nat)
    requires HoldsLog(data, n) && n < INDEX_LIMIT
    ensures KeyOrder(data.Keys) == IndexKeys(n) + KeyOrder(MetaPart(data))
  {
    var metas := KeyOrder(MetaPart(data));
    forall i | 0 <= i < |metas|
      ensures MetaKey(metas[i])
    {
      assert metas[i] in MetaPart(data);
    }
    IndexKeysAscend(n, metas);
    forall x
      ensures x in IndexKeys(n) + metas <==> x in data.Keys
    {
      IndexKeysAre(n, x);
    }
    LessIsOrder();
    AscendingUnique(Less, KeyOrder(data.Keys), IndexKeys(n) + metas);
  }

  lemma {:induction false} ValueAtLeast(s: Key)
    requires s != []
    ensures Value(s) >= s[0] as nat * Pow256(|s| - 1)
  {
    if |s| > 1 {
      ValueAtLeast(s[..|s| - 1]);
      assert Pow256(|s| - 1) == 256 * Pow256(|s| - 2);
    }
  }

  /** Reading a metadata name as an index gives a number past the limit. */
  lemma MetaNameIsLarge(k: Key)
    requires MetaKey(k)
    ensures BitStrToUint(k) >= INDEX_LIMIT
  {
    ValueAtLeast(k[..8]);
    assert Pow256(3) == 0x100_0000;
    assert Pow256(7) == 0x100_0000_0000_0000;
  }

  lemma KeysLongEnough(data: map<Key, Stored>, n: nat)
    requires HoldsLog(data, n)
    ensures forall i :: 0 <= i < |KeyOrder(data.Keys)| ==> |KeyOrder(data.Keys)[i]| >= 8
  {
    forall i | 0 <= i < |KeyOrder(data.Keys)|
      ensures |KeyOrder(data.Keys)[i]| >= 8
    {
      assert KeyOrder(data.Keys)[i] in data.Keys;
    }
  }

  /** Reopening a log of n >= 1 entries below the limit recovers n if and only if there are
      exactly five metadata keys; a sixth one, such as the fencing token, makes it read a name
      as an index. */
  lemma RecoveryExact(data: map<Key, Stored>, n: nat)
    requires HoldsLog(data, n) && 1 <= n < INDEX_LIMIT
    ensures (KeysLongEnough(data, n); RecoveredIndex(KeyOrder(data.Keys)) == n) <==> |MetaPart(data)| == 5
  {
    KeysLongEnough(data, n);
    KeysKeyOrder(data, n);
    var metas := KeyOrder(MetaPart(data));
    if |metas| > 5 {
      assert metas[|metas| - 6] in MetaPart(data);
      MetaNameIsLarge(metas[|metas| - 6]);
    }
    ReadBack(n, metas);
  }

  /** Once a fencing token has been written beside the five metadata keys, reopening takes a
      metadata name for an index, past any that the log can hold, whatever the log holds. */
  lemma FencingTokenBreaksRecovery(data: map<Key, Stored>, n: nat, token: int)
    requires HoldsLog(data, n) && n < INDEX_LIMIT && MetaPart(data) == META_KEYS
    ensures var data' := data[FENCINGTOKEN := NumberValue(token)];
      && HoldsLog(data', n) && LogOf(data', n) == LogOf(data, n)
      && (KeysLongEnough(data', n); RecoveredIndex(KeyOrder(data'.Keys)) >= INDEX_LIMIT)
  {
    var data' := data[FENCINGTOKEN := NumberValue(token)];
    MetaWriteKeepsLog(data, n, FENCINGTOKEN, NumberValue(token));
    KeysLongEnough(data', n);
    KeysKeyOrder(data', n);
    SixMetaKeys(data, data', token);
    var metas := KeyOrder(MetaPart(data'));
    assert metas[0] in MetaPart(data');
    MetaNameIsLarge(metas[0]);
    ReadBack(n, metas);
  }

  lemma SixMetaKeys(data: map<Key, Stored>, data': map<Key, Stored>, token: int)
    requires MetaPart(data) == META_KEYS && data' == data[FENCINGTOKEN := NumberValue(token)]
    ensures |MetaPart(data')| == 6
    ensures forall k :: k in MetaPart(data') ==> MetaKey(k)
  {
    assert FENCINGTOKEN[0] == 0x46 && FENCINGTOKEN[1] == 0x45;
    assert FENCINGTOKEN !in META_KEYS && |META_KEYS| == 5 by { FiveNames(); }
    assert MetaPart(data') == META_KEYS + {FENCINGTOKEN};
  }

  /** The names differ in their length or in a letter. */
  lemma FiveNames()
    ensures |META_KEYS| == 5 && FENCINGTOKEN !in META_KEYS
  {
    assert |APPLYINDEX| == 10 && |COMMITINDEX| == 11 && |CURRENTTERM| == 11 && |VOTEFORIP| == 9 && |VOTEFORPORT| == 11;
    assert |FENCINGTOKEN| == 12;
    assert COMMITINDEX[1] == 0x4F && CURRENTTERM[1] == 0x55 && VOTEFORPORT[0] == 0x56 && COMMITINDEX[0] == 0x43 && CURRENTTERM[0] == 0x43;
  }

  /** What the sixth key from the end reads as, among n index keys and then the metadata. */
  lemma ReadBack(n: nat, metas: seq<Key>)
    requires n < INDEX_LIMIT
    requires forall i :: 0 <= i < |IndexKeys(n) + metas| ==> |(IndexKeys(n) + metas)[i]| >= 8
    requires |metas| > 5 ==> |metas[|metas| - 6]| >= 8
    ensures RecoveredIndex(IndexKeys(n) + metas) ==
            if |metas| > 5 then BitStrToUint(metas[|metas| - 6])
            else if n + |metas| >= 6 then n + |metas| - 5 else 0
  {
    var ks := IndexKeys(n) + metas;
    if |metas| <= 5 && n + |metas| >= 6 {
      var i := n + |metas| - 6;
      assert ks[i] == UintToBitStr(i + 1);
      RoundTrip(i + 1);
    }
  }

  /** A store that is new, or that holds n entries and the five metadata keys, always has a
      key to step back to, and the walk recovers n. */
  lemma RecoversIndex(data: map<Key, Stored>, n: nat)
    requires HoldsLog(data, n) && n < INDEX_LIMIT
    requires data == map[] || |MetaPart(data)| == 5
    ensures var ks := KeyOrder(data.Keys);
      && (ks == [] || |ks| >= 5)
      && (forall i :: 0 <= i < |ks| ==> |ks[i]| >= 8)
      && RecoveredIndex(ks) == n
  {
    KeysLongEnough(data, n);
    KeyCount(data, n);
    if n >= 1 {
      NotEmpty(data, n);
      RecoveryExact(data, n);
    }
  }

  /** Where the iterator stands, or that it was moved when it stood nowhere. */
  datatype Walk = At(pos: int) | Undefined

  /** So many steps back from the last of n keys. */
  function WalkBack(n: nat, steps: nat): Walk {
    if steps == 0 then At(n - 1)
    else
      match WalkBack(n, steps - 1)
      case At(pos) => if pos >= 0 then At(pos - 1) else Undefined
      case Undefined => Undefined
  }

  lemma {:induction false} WalkDefinedExactly(n: nat, steps: nat)
    ensures WalkBack(n, steps) == if steps <= n then At(n - 1 - steps) else Undefined
  {
    if steps > 0 { WalkDefinedExactly(n, steps - 1); }
  }

  /** The five steps back step off a store that is not empty exactly when it has fewer than five keys.
      A crash during the very first start, between the first and the last of its five metadata
      writes, leaves such a store: the log is opened before they are repeated. */
  lemma FewKeysStepOff(data: map<Key, Stored>, n: nat)
    requires HoldsLog(data, n) && n < INDEX_LIMIT && data != map[]
    ensures WalkBack(|KeyOrder(data.Keys)|, 5) == Undefined <==> n + |MetaPart(data)| < 5
    ensures n == 0 && 1 <= |MetaPart(data)| < 5 ==> WalkBack(|KeyOrder(data.Keys)|, 5) == Undefined
  {
    KeyCount(data, n);
    WalkDefinedExactly(|KeyOrder(data.Keys)|, 5);
  }

  lemma KeyCount(data: map<Key, Stored>, n: nat)
    requires HoldsLog(data, n) && n < INDEX_LIMIT
    ensures |KeyOrder(data.Keys)| == n + |MetaPart(data)|
    ensures MetaPart(data) <= data.Keys
  {
    KeysKeyOrder(data, n);
  }

  lemma NotEmpty(data: map<Key, Stored>, n: nat)
    requires HoldsLog(data, n) && n >= 1
    ensures data != map[]
  {
    IndexKeyOf(1, n);
  }
}
