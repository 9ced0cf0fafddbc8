/** The data that the Raft core ("floyd") keeps and exchanges: log entries, the context of
    one node, the four RPC messages, and the relation between two logs that replication keeps.
 */
module RaftTypes {

  /** A server address. The pair of an empty ip and port 0 is how the code says "nobody". */
  datatype Addr = Addr(ip: string, port: int) {
    predicate IsSet() { ip != "" && port != 0 }
  }

  const NOBODY := Addr("", 0)

  datatype Command =
    | Write(key: string, value: string)
    | Delete(key: string)
    | Read(key: string)
    | TryLock(name: string, holder: string, leaseEnd: nat)
    | UnLock(name: string, holder: string)

  datatype Entry = Entry(term: nat, cmd: Command)

  datatype Role = Follower | Candidate | Leader

  /** What a node remembers about one peer; indices are 1-based as in the code. */
  datatype Peer = Peer(nextIndex: nat, matchIndex: nat)

  /** The fields of one node that its handlers read and write. */
  datatype Node = Node(
    self: Addr,
    currentTerm: nat,
    role: Role,
    votedFor: Addr,
    leader: Addr,
    voteQuorum: nat,
    commitIndex: nat,
    voteFor: map<nat, Addr>,
    log: seq<Entry>,
    peers: map<Addr, Peer>)

  datatype VoteRequest = VoteRequest(from: Addr, term: nat, lastLogTerm: nat, lastLogIndex: nat)
  datatype VoteReply = VoteReply(term: nat, granted: bool)
  datatype AppendRequest = AppendRequest(
    from: Addr, term: nat, prevLogIndex: nat, prevLogTerm: nat, leaderCommit: nat, entries: seq<Entry>)
  datatype AppendReply = AppendReply(success: bool, term: nat, lastLogIndex: nat)

  function Min(a: nat, b: nat): nat { if a <= b then a else b }

  function Max(a: nat, b: nat): nat { if a <= b then b else a }

  /** The term of the last entry, 0 for an empty log. */
  function LastTerm(log: seq<Entry>): nat {
    if log == [] then 0 else log[|log| - 1].term
  }

  /** The term of the entry at a 1-based index; 0 at index 0 and past the end, where the
      sender finds no entry. */
  function TermAt(log: seq<Entry>, index: nat): nat {
    if 1 <= index <= |log| then log[index - 1].term else 0
  }

  /** Two logs agree up to and including every position where their terms agree. */
  ghost predicate LogMatch(a: seq<Entry>, b: seq<Entry>) {
    forall k :: 0 <= k < |a| && k < |b| && a[k].term == b[k].term ==> a[..k + 1] == b[..k + 1]
  }

  ghost predicate PositiveTerms(log: seq<Entry>) {
    forall k :: 0 <= k < |log| ==> log[k].term > 0
  }

  lemma MatchReflexive(a: seq<Entry>)
    ensures LogMatch(a, a)
  {
  }

  lemma MatchSymmetric(a: seq<Entry>, b: seq<Entry>)
    requires LogMatch(a, b)
    ensures LogMatch(b, a)
  {
    forall k | 0 <= k < |b| && k < |a| && b[k].term == a[k].term
      ensures b[..k + 1] == a[..k + 1]
    {
      assert a[k].term == b[k].term;
    }
  }

  /** A prefix of a log matches whatever the log matches. */
  lemma PrefixMatches(a: seq<Entry>, n: nat, b: seq<Entry>)
    requires n <= |a| && LogMatch(a, b)
    ensures LogMatch(a[..n], b)
  {
    forall k | 0 <= k < n && k < |b| && a[..n][k].term == b[k].term
      ensures a[..n][..k + 1] == b[..k + 1]
    {
      assert a[k].term == b[k].term;
      assert a[..n][..k + 1] == a[..k + 1];
    }
  }

  /** Two matching logs that agree on the term at an index agree on everything up to it. */
  lemma AgreeUpTo(a: seq<Entry>, b: seq<Entry>, n: nat)
    requires LogMatch(a, b)
    requires n <= |a| && n <= |b|
    requires n > 0 ==> a[n - 1].term == b[n - 1].term
    ensures a[..n] == b[..n]
  {
    if n > 0 {
      var k := n - 1;
      assert a[k].term == b[k].term;
      assert a[..k + 1] == b[..k + 1];
    }
  }
}
