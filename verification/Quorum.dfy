/** The index that a majority of the cluster has reached: a reference definition by counting,
    and the code's way of finding it by sorting the peers' match indices.
 */
module Quorum {
  import opened RaftTypes

  /** The peers known to hold at least the first k entries. */
  ghost function Holders(peers: map<Addr, Peer>, k: nat): set<Addr> {
    set p | p in peers && peers[p].matchIndex >= k
  }

  /** The leader and those peers are a strict majority of the leader plus all its peers. */
  ghost predicate HeldByMajority(peers: map<Addr, Peer>, k: nat) {
    2 * (1 + |Holders(peers, k)|) > 1 + |peers|
  }

  /** The largest index that a strict majority holds. */
  ghost predicate IsQuorumIndex(peers: map<Addr, Peer>, k: nat) {
    && HeldByMajority(peers, k)
    && forall j: nat :: j > k ==> !HeldByMajority(peers, j)
  }

  predicate Sorted(s: seq<nat>) {
    forall i, j :: 0 <= i <= j < |s| ==> s[i] <= s[j]
  }

  function Insert(x: nat, s: seq<nat>): (r: seq<nat>)
    requires Sorted(s)
    ensures Sorted(r) && multiset(r) == multiset(s) + multiset{x}
  {
    if s == [] then [x]
    else if x <= s[0] then [x] + s
    else
      var rest := Insert(x, s[1..]);
      InsertBelow(x, s, rest);
      [s[0]] + rest
  }

  lemma InsertBelow(x: nat, s: seq<nat>, rest: seq<nat>)
    requires s != [] && Sorted(s) && s[0] <= x
    requires Sorted(rest) && multiset(rest) == multiset(s[1..]) + multiset{x}
    ensures Sorted([s[0]] + rest)
    ensures multiset([s[0]] + rest) == multiset(s) + multiset{x}
  {
    assert s == [s[0]] + s[1..];
    forall i | 0 <= i < |rest|
      ensures s[0] <= rest[i]
    {
      assert rest[i] in multiset(rest);
      assert rest[i] == x || rest[i] in s[1..];
    }
  }

  /** The library sort: the sorted rearrangement. */
  function Sort(s: seq<nat>): (r: seq<nat>)
    ensures Sorted(r) && multiset(r) == multiset(s) && |r| == |s|
  {
    if s == [] then []
    else
      assert s == [s[0]] + s[1..];
      var r := Insert(s[0], Sort(s[1..]));
      assert |r| == |multiset(r)| == |multiset(s)|;
      r
  }

  /** How many values reach k. */
  function CountFrom(s: seq<nat>, k: nat): nat {
    if s == [] then 0 else (if s[0] >= k then 1 else 0) + CountFrom(s[1..], k)
  }

  lemma {:induction false} CountAppend(s: seq<nat>, t: seq<nat>, k: nat)
    ensures CountFrom(s + t, k) == CountFrom(s, k) + CountFrom(t, k)
  {
    if s == [] {
      assert s + t == t;
    } else {
      assert (s + t)[1..] == s[1..] + t;
      CountAppend(s[1..], t, k);
    }
  }

  lemma RemoveOne(t: seq<nat>, i: nat, k: nat)
    requires i < |t|
    ensures var t' := t[..i] + t[i + 1..];
      && multiset(t') == multiset(t) - multiset{t[i]}
      && CountFrom(t, k) == CountFrom(t', k) + (if t[i] >= k then 1 else 0)
  {
    assert t == t[..i] + ([t[i]] + t[i + 1..]);
    CountAppend(t[..i], t[i + 1..], k);
    CountAppend(t[..i], [t[i]] + t[i + 1..], k);
    assert ([t[i]] + t[i + 1..])[1..] == t[i + 1..];
  }

  /** Counting sees only the multiset of values. */
  lemma {:induction false} CountPermutation(s: seq<nat>, t: seq<nat>, k: nat)
    requires multiset(s) == multiset(t)
    ensures CountFrom(s, k) == CountFrom(t, k)
    decreases |s|
  {
    if s == [] {
      assert |t| == |multiset(t)| == |multiset(s)| == 0;
    } else {
      var i := PlaceOf(s[0], s, t);
      var t' := t[..i] + t[i + 1..];
      RemoveOne(t, i, k);
      RemoveFirst(s);
      CountPermutation(s[1..], t', k);
    }
  }

  lemma RemoveFirst(s: seq<nat>)
    requires s != []
    ensures multiset(s[1..]) == multiset(s) - multiset{s[0]}
  {
    assert s == [s[0]] + s[1..];
  }

  lemma PlaceOf(x: nat, s: seq<nat>, t: seq<nat>) returns (i: nat)
    requires multiset(s) == multiset(t) && x in s
    ensures i < |t| && t[i] == x
  {
    assert x in multiset(t);
    i :| 0 <= i < |t| && t[i] == x;
  }

  /** In a sorted sequence the values that reach k are a suffix. */
  lemma {:induction false} CountSorted(s: seq<nat>, i: nat, k: nat)
    requires Sorted(s) && i <= |s|
    requires forall j :: 0 <= j < i ==> s[j] < k
    requires forall j :: i <= j < |s| ==> s[j] >= k
    ensures CountFrom(s, k) == |s| - i
    decreases |s|
  {
    if s != [] {
      CountSorted(s[1..], if i == 0 then 0 else i - 1, k);
    }
  }

  /** A sorted sequence splits at the first value that reaches k. */
  lemma {:induction false} SplitSorted(s: seq<nat>, k: nat) returns (i: nat)
    requires Sorted(s)
    ensures i <= |s|
    ensures forall j :: 0 <= j < i ==> s[j] < k
    ensures forall j :: i <= j < |s| ==> s[j] >= k
    ensures CountFrom(s, k) == |s| - i
  {
    i := 0;
    while i < |s| && s[i] < k
      invariant i <= |s| && forall j :: 0 <= j < i ==> s[j] < k
    {
      i := i + 1;
    }
    CountSorted(s, i, k);
  }

  /** The value at the middle position of the sorted match indices is reached by the leader
      and enough peers for a majority, and no larger value is. */
  lemma MiddleIsQuorum(values: seq<nat>, k: nat)
    requires |values| >= 1
    ensures (2 * (1 + CountFrom(values, k)) > 1 + |values|) <==> k <= Sort(values)[|values| / 2]
  {
    var s := Sort(values);
    CountPermutation(values, s, k);
    var i := SplitSorted(s, k);
    var m := |values| / 2;
    if k <= s[m] {
      assert i <= m;
    } else {
      assert i > m;
    }
  }

  /** The values collected from the peers count as the peers do. */
  ghost predicate Collected(peers: map<Addr, Peer>, done: set<Addr>, values: seq<nat>) {
    && done <= peers.Keys
    && |values| == |done|
    && forall k: nat :: CountFrom(values, k) == |Holders(peers, k) * done|
  }

  lemma CollectOne(peers: map<Addr, Peer>, done: set<Addr>, values: seq<nat>, p: Addr)
    requires Collected(peers, done, values) && p in peers && p !in done
    ensures Collected(peers, done + {p}, values + [peers[p].matchIndex])
  {
    var values' := values + [peers[p].matchIndex];
    forall k: nat
      ensures CountFrom(values', k) == |Holders(peers, k) * (done + {p})|
    {
      CountAppend(values, [peers[p].matchIndex], k);
      var h := Holders(peers, k);
      if p in h {
        assert h * (done + {p}) == h * done + {p};
      } else {
        assert h * (done + {p}) == h * done;
      }
    }
  }

  lemma CollectNext(peers: map<Addr, Peer>, rest: set<Addr>, values: seq<nat>, p: Addr)
    requires rest <= peers.Keys && p in rest && Collected(peers, peers.Keys - rest, values)
    ensures Collected(peers, peers.Keys - (rest - {p}), values + [peers[p].matchIndex])
  {
    CollectOne(peers, peers.Keys - rest, values, p);
    assert peers.Keys - (rest - {p}) == (peers.Keys - rest) + {p};
  }

  lemma CollectedAll(peers: map<Addr, Peer>, values: seq<nat>)
    requires |peers| >= 1 && Collected(peers, peers.Keys, values)
    ensures |values| == |peers| && IsQuorumIndex(peers, Sort(values)[|values| / 2])
  {
    var k := Sort(values)[|values| / 2];
    assert |peers.Keys| == |peers|;
    forall j: nat
      ensures HeldByMajority(peers, j) <==> j <= k
    {
      assert Holders(peers, j) * peers.Keys == Holders(peers, j);
      MiddleIsQuorum(values, j);
    }
  }

  /** Collects the peers' match indices, sorts them, and takes the middle one. */
  method QuorumMatchIndex(peers: map<Addr, Peer>) returns (index: nat)
    requires |peers| >= 1
    ensures IsQuorumIndex(peers, index)
    ensures index == QuorumIndex(peers)
  {
    var values: seq<nat> := [];
    var rest := peers.Keys;
    while rest != {}
      invariant rest <= peers.Keys
      invariant Collected(peers, peers.Keys - rest, values)
      decreases rest
    {
      var p :| p in rest;
      CollectNext(peers, rest, values, p);
      values := values + [peers[p].matchIndex];
      rest := rest - {p};
    }
    assert peers.Keys - rest == peers.Keys;
    CollectedAll(peers, values);
    var sorted := Sort(values);
    index := sorted[|sorted| / 2];
    QuorumIndexUnique(peers, index);
  }

  /** Some enumeration of the peers' match indices exists, so the quorum index does. */
  lemma QuorumIndexExists(peers: map<Addr, Peer>)
    requires |peers| >= 1
    ensures exists k: nat :: IsQuorumIndex(peers, k)
  {
    var values, rest := [], peers.Keys;
    while rest != {}
      invariant rest <= peers.Keys
      invariant Collected(peers, peers.Keys - rest, values)
      decreases rest
    {
      var p :| p in rest;
      CollectNext(peers, rest, values, p);
      values, rest := values + [peers[p].matchIndex], rest - {p};
    }
    assert peers.Keys - rest == peers.Keys;
    CollectedAll(peers, values);
  }

  /** The unique quorum index. */
  ghost function QuorumIndex(peers: map<Addr, Peer>): (k: nat)
    requires |peers| >= 1
    ensures IsQuorumIndex(peers, k)
  {
    QuorumIndexExists(peers);
    var k: nat :| IsQuorumIndex(peers, k);
    k
  }

  lemma QuorumIndexUnique(peers: map<Addr, Peer>, k: nat)
    requires |peers| >= 1 && IsQuorumIndex(peers, k)
    ensures k == QuorumIndex(peers)
  {
    var q := QuorumIndex(peers);
    assert !(q > k) && !(k > q);
  }
}
