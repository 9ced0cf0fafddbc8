/** The loop that brings a follower's log into line: AppendEntries, its reply, and the leader's
    move of next_index, repeated with the leader's log held fixed.
 */
module LogRepair {
  import opened RaftTypes
  import opened Handlers
  import Quorum

  /** A leader and the follower it repairs. */
  datatype Pair = Pair(leader: Node, follower: Node) {
    function Next(): nat
      requires follower.self in leader.peers
    {
      leader.peers[follower.self].nextIndex
    }
  }

  /** Nothing stands in the way of the two talking: a working leader, a follower whose term is
      not ahead, and logs that match. */
  ghost predicate Ready(p: Pair) {
    && NodeValid(p.leader) && p.follower.self in p.leader.peers
    && p.leader.role == Leader
    && p.follower.currentTerm <= p.leader.currentTerm
    && LogMatch(p.leader.log, p.follower.log)
  }

  /** An entry of term 0 past the end of the leader's log, at a position that the leader has still to
      step back over. It looks like the entry that the leader does not find there. */
  ghost predicate Blank(p: Pair, q: nat)
    requires p.follower.self in p.leader.peers
  {
    |p.leader.log| < q < p.Next() && q <= |p.follower.log| && p.follower.log[q - 1].term == 0
  }

  ghost predicate NoBlank(p: Pair)
    requires p.follower.self in p.leader.peers
  {
    forall q :: !Blank(p, q)
  }

  ghost predicate Enabled(p: Pair, k: nat) {
    Ready(p) && BatchSize(p.leader.log, p.Next(), k)
  }

  /** One exchange that carries k entries. */
  ghost function Round(p: Pair, k: nat): Pair
    requires Enabled(p, k)
  {
    var req := BuildAppendRequest(p.leader, p.follower.self, k);
    var (follower, res) := ReplyAppendEntries(p.follower, req, true);
    Pair(HandleAppendReply(p.leader, p.follower.self, req, res), follower)
  }

  ghost predicate Refused(p: Pair, k: nat)
    requires Enabled(p, k)
  {
    !ReplyAppendEntries(p.follower, BuildAppendRequest(p.leader, p.follower.self, k), true).1.success
  }

  /** The follower holds exactly what precedes next_index in the leader's log. */
  ghost predicate InStep(p: Pair)
    requires p.follower.self in p.leader.peers
  {
    && 1 <= p.Next() <= |p.leader.log| + 1
    && p.follower.log == p.leader.log[..p.Next() - 1]
  }

  ghost predicate Repaired(p: Pair)
    requires p.follower.self in p.leader.peers
  {
    p.Next() == |p.leader.log| + 1 && p.follower.log == p.leader.log
  }

  /** Delivering a request built from a log keeps the receiver's log matching it. */
  lemma AcceptKeepsMatch(log: seq<Entry>, req: AppendRequest, senderLog: seq<Entry>)
    requires LogMatch(senderLog, log) && FromLog(req, senderLog)
    ensures var l := AcceptEntries(log, req.prevLogIndex, req.prevLogTerm, req.entries, true).0;
      LogMatch(senderLog, l)
  {
    var l := AcceptEntries(log, req.prevLogIndex, req.prevLogTerm, req.entries, true).0;
    AcceptedIsPrefix(log, req, senderLog, true);
    if |l| <= |log| && l == log[..|l|] {
      MatchSymmetric(senderLog, log);
      PrefixMatches(log, |l|, senderLog);
      MatchSymmetric(l, senderLog);
    } else {
      MatchReflexive(senderLog);
      PrefixMatches(senderLog, |l|, senderLog);
      MatchSymmetric(l, senderLog);
    }
  }

  /** What every round keeps: the leader's log and the readiness of both sides. */
  lemma RoundKeepsReady(p: Pair, k: nat)
    requires Enabled(p, k)
    ensures Ready(Round(p, k))
    ensures Round(p, k).leader.log == p.leader.log && Round(p, k).follower.self == p.follower.self
  {
    var req := BuildAppendRequest(p.leader, p.follower.self, k);
    BuiltFromLog(p.leader, p.follower.self, k);
    AcceptKeepsMatch(p.follower.log, req, p.leader.log);
    var (follower, res) := ReplyAppendEntries(p.follower, req, true);
    assert follower.currentTerm == res.term == p.leader.currentTerm;
    LeaderStays(p.leader, p.follower.self, req, res);
  }

  /** A reply that is not of a newer term leaves the leader leading, with its log. */
  lemma LeaderStays(n: Node, peer: Addr, req: AppendRequest, res: AppendReply)
    requires NodeValid(n) && peer in n.peers && n.role == Leader && res.term <= n.currentTerm
    ensures var n' := HandleAppendReply(n, peer, req, res);
      && NodeValid(n') && n'.peers.Keys == n.peers.Keys
      && n' == n.(commitIndex := n'.commitIndex, peers := n'.peers)
  {
    var n' := HandleAppendReply(n, peer, req, res);
    assert n'.peers.Keys == n.peers.Keys;
    assert |n'.peers| == |n'.peers.Keys|;
  }

  /** A refusal strictly lowers next_index and leaves it at least 1, so the leader always
      tries again; in particular a request with nothing before its first entry is never refused. */
  lemma RefusalLowersNext(p: Pair, k: nat)
    requires Enabled(p, k) && Refused(p, k)
    ensures 1 <= Round(p, k).Next() < p.Next()
    ensures p.Next() >= 2
  {
  }

  /** A request that is accepted starts within the leader's log, blanks aside. */
  lemma SuccessInLog(p: Pair, k: nat)
    requires Enabled(p, k) && !Refused(p, k) && !Blank(p, p.Next() - 1)
    ensures var prev := p.Next() - 1;
      && prev <= |p.leader.log| && prev <= |p.follower.log|
      && (prev > 0 ==> p.leader.log[prev - 1].term == p.follower.log[prev - 1].term)
  {
  }

  /** After a success the follower holds the leader's log up to the last entry sent. */
  lemma SuccessFillsFollower(p: Pair, k: nat)
    requires Enabled(p, k) && !Refused(p, k) && !Blank(p, p.Next() - 1)
    ensures p.Next() - 1 + k <= |p.leader.log|
    ensures Round(p, k).follower.log == p.leader.log[..p.Next() - 1 + k]
  {
    var prev := p.Next() - 1;
    SuccessInLog(p, k);
    AgreeUpTo(p.leader.log, p.follower.log, prev);
    assert p.leader.log[..prev + k] == p.leader.log[..prev] + p.leader.log[prev..prev + k];
  }

  lemma SuccessMovesNext(p: Pair, k: nat)
    requires Enabled(p, k) && !Refused(p, k) && !Blank(p, p.Next() - 1)
    ensures Round(p, k).follower.self in Round(p, k).leader.peers && Round(p, k).Next() == p.Next() + k
  {
    SuccessInLog(p, k);
  }

  /** The first success puts the two in step. */
  lemma SuccessPutsInStep(p: Pair, k: nat)
    requires Enabled(p, k) && !Refused(p, k) && !Blank(p, p.Next() - 1)
    ensures InStep(Round(p, k))
    ensures Round(p, k).Next() == p.Next() + k
  {
    RoundKeepsReady(p, k);
    SuccessFillsFollower(p, k);
    SuccessMovesNext(p, k);
  }

  /** Once in step no request is refused. */
  lemma InStepNeverRefused(p: Pair, k: nat)
    requires Enabled(p, k) && InStep(p)
    ensures !Refused(p, k)
  {
    var prev := p.Next() - 1;
    assert TermAt(p.follower.log, prev) == TermAt(p.leader.log, prev);
  }

  /** Several rounds; `sizes` are the batch sizes that the limits happened to allow. */
  ghost predicate AllEnabled(p: Pair, sizes: seq<nat>)
    decreases |sizes|
  {
    sizes == [] || (Enabled(p, sizes[0]) && AllEnabled(Round(p, sizes[0]), sizes[1..]))
  }

  ghost function Rounds(p: Pair, sizes: seq<nat>): Pair
    requires AllEnabled(p, sizes)
    decreases |sizes|
  {
    if sizes == [] then p else Rounds(Round(p, sizes[0]), sizes[1..])
  }

  /** Some batch size is always possible, so the loop never stalls. */
  lemma NeverStuck(p: Pair)
    requires Ready(p)
    ensures exists k :: Enabled(p, k)
  {
    if p.Next() <= |p.leader.log| {
      assert Enabled(p, 1);
    } else {
      assert Enabled(p, 0);
    }
  }

  lemma {:induction false} InStepConverges(p: Pair, sizes: seq<nat>)
    requires Ready(p) && InStep(p) && AllEnabled(p, sizes)
    requires |sizes| > |p.leader.log| - p.Next()
    ensures var q := Rounds(p, sizes);
      q.leader.log == p.leader.log && q.follower.self in q.leader.peers && Repaired(q)
    decreases |sizes|
  {
    if sizes == [] {
      assert p.follower.log == p.leader.log;
    } else {
      RoundKeepsReady(p, sizes[0]);
      InStepNeverRefused(p, sizes[0]);
      SuccessPutsInStep(p, sizes[0]);
      InStepConverges(Round(p, sizes[0]), sizes[1..]);
    }
  }

  // ---------------------------------------------------------------- blanks

  /** What a refusal leaves of the follower's log and of the distance to step back. */
  lemma RefusalLeaves(p: Pair, k: nat)
    requires Enabled(p, k) && Refused(p, k)
    ensures var r, prev := Round(p, k), p.Next() - 1;
      && r.follower.self in r.leader.peers && r.leader.log == p.leader.log
      && (prev > |p.follower.log| ==> r.follower.log == p.follower.log && r.Next() == Min(|p.follower.log| + 1, prev))
      && (prev <= |p.follower.log| ==> r.follower.log == p.follower.log[..prev - 1] && r.Next() == prev)
  {
  }

  /** A refused request meets no blank, and blanks are neither made nor passed by it. */
  lemma RefusalKeepsBlanks(p: Pair, k: nat, q: nat)
    requires Enabled(p, k) && Refused(p, k)
    ensures Round(p, k).follower.self in Round(p, k).leader.peers
    ensures Blank(Round(p, k), q) <==> Blank(p, q)
  {
    RefusalLeaves(p, k);
  }

  /** An accepted request at a blank changes nothing before it: the blank stays, and the leader's
      next index with it. */
  lemma BlankStalls(p: Pair, k: nat)
    requires Enabled(p, k) && Blank(p, p.Next() - 1)
    ensures !Refused(p, k) && Round(p, k).follower.self in Round(p, k).leader.peers
    ensures Round(p, k).Next() == p.Next() && Blank(Round(p, k), p.Next() - 1)
  {
  }

  /** An accepted request while a blank is left is at a blank: past the leader's log it names term 0. */
  lemma AcceptedAtBlank(p: Pair, k: nat, q: nat)
    requires Enabled(p, k) && !Refused(p, k) && Blank(p, q)
    ensures Blank(p, p.Next() - 1)
  {
  }

  lemma {:induction false} BlankNeverRepaired(p: Pair, sizes: seq<nat>, q: nat)
    requires Ready(p) && AllEnabled(p, sizes) && Blank(p, q)
    ensures var e := Rounds(p, sizes); e.follower.self in e.leader.peers && !Repaired(e)
    decreases |sizes|
  {
    if sizes != [] {
      RoundKeepsReady(p, sizes[0]);
      if Refused(p, sizes[0]) {
        RefusalKeepsBlanks(p, sizes[0], q);
        BlankNeverRepaired(Round(p, sizes[0]), sizes[1..], q);
      } else {
        AcceptedAtBlank(p, sizes[0], q);
        BlankStalls(p, sizes[0]);
        BlankNeverRepaired(Round(p, sizes[0]), sizes[1..], p.Next() - 1);
      }
    }
  }

  lemma {:induction false} NoBlankConverges(p: Pair, sizes: seq<nat>)
    requires Ready(p) && AllEnabled(p, sizes) && NoBlank(p)
    requires |sizes| >= p.Next() + |p.leader.log|
    ensures var e := Rounds(p, sizes);
      e.leader.log == p.leader.log && e.follower.self in e.leader.peers && Repaired(e)
    decreases |sizes|
  {
    assert sizes != [];
    RoundKeepsReady(p, sizes[0]);
    var p1 := Round(p, sizes[0]);
    assert !Blank(p, p.Next() - 1);
    if Refused(p, sizes[0]) {
      RefusalLowersNext(p, sizes[0]);
      forall q
        ensures !Blank(p1, q)
      {
        RefusalKeepsBlanks(p, sizes[0], q);
      }
      NoBlankConverges(p1, sizes[1..]);
    } else {
      SuccessPutsInStep(p, sizes[0]);
      InStepConverges(p1, sizes[1..]);
    }
  }

  /** Repair converges: for any starting next_index, follower log and batch limits, after
      next_index + |leader log| rounds the follower's log is the leader's and stays so, if and only
      if the follower has no entry of term 0 past the end of the leader's log and before next_index. */
  lemma RepairConverges(p: Pair, sizes: seq<nat>)
    requires Ready(p) && AllEnabled(p, sizes)
    requires |sizes| >= p.Next() + |p.leader.log|
    ensures var e := Rounds(p, sizes);
      e.follower.self in e.leader.peers && (Repaired(e) <==> NoBlank(p))
    ensures NoBlank(p) ==> Rounds(p, sizes).leader.log == p.leader.log
  {
    if NoBlank(p) {
      NoBlankConverges(p, sizes);
    } else {
      var q :| Blank(p, q);
      BlankNeverRepaired(p, sizes, q);
    }
  }

  /** So repair always converges on a follower whose entries are of positive terms. */
  lemma PositiveMeansNoBlank(p: Pair)
    requires p.follower.self in p.leader.peers && PositiveTerms(p.follower.log)
    ensures NoBlank(p)
  {
  }

  // ---------------------------------------------------------------- the commit index follows

  /** The leader has committed, and heard of, no more than it has. */
  ghost predicate Bounded(p: Pair) {
    && p.leader.commitIndex <= |p.leader.log|
    && forall q :: q in p.leader.peers ==> p.leader.peers[q].matchIndex <= |p.leader.log|
  }

  lemma QuorumWithin(peers: map<Addr, Peer>, bound: nat)
    requires |peers| >= 1 && forall q :: q in peers ==> peers[q].matchIndex <= bound
    ensures Quorum.QuorumIndex(peers) <= bound
  {
    forall j: nat | j > bound
      ensures !Quorum.HeldByMajority(peers, j)
    {
      assert Quorum.Holders(peers, j) == {};
    }
    assert Quorum.HeldByMajority(peers, Quorum.QuorumIndex(peers));
  }

  lemma RefusalKeepsBounded(p: Pair, k: nat)
    requires Enabled(p, k) && Bounded(p) && Refused(p, k)
    ensures Bounded(Round(p, k))
  {
    RoundKeepsReady(p, k);
    ReplyMovesPeer(p.leader, p.follower.self, BuildAppendRequest(p.leader, p.follower.self, k),
                   ReplyAppendEntries(p.follower, BuildAppendRequest(p.leader, p.follower.self, k), true).1);
  }

  lemma SuccessKeepsBounded(p: Pair, k: nat)
    requires Enabled(p, k) && Bounded(p) && !Refused(p, k) && !Blank(p, p.Next() - 1)
    ensures Bounded(Round(p, k))
  {
    SuccessFillsFollower(p, k);
    RoundKeepsReady(p, k);
    var reached := p.Next() - 1 + k;
    var matched := p.leader.peers[p.follower.self := p.leader.peers[p.follower.self].(matchIndex := reached)];
    assert matched.Keys == p.leader.peers.Keys && |matched| == |matched.Keys| == |p.leader.peers|;
    QuorumWithin(matched, |p.leader.log|);
  }

  lemma RoundKeepsBounded(p: Pair, k: nat)
    requires Enabled(p, k) && Bounded(p) && NoBlank(p)
    ensures Bounded(Round(p, k)) && Round(p, k).follower.self in Round(p, k).leader.peers && NoBlank(Round(p, k))
  {
    RoundKeepsReady(p, k);
    assert !Blank(p, p.Next() - 1);
    if Refused(p, k) {
      RefusalKeepsBounded(p, k);
      forall q
        ensures !Blank(Round(p, k), q)
      {
        RefusalKeepsBlanks(p, k, q);
      }
    } else {
      SuccessKeepsBounded(p, k);
      SuccessPutsInStep(p, k);
    }
  }

  /** One more exchange with a repaired follower makes its commit index the leader's, up or down. */
  lemma CommitFollows(p: Pair, k: nat)
    requires Enabled(p, k) && Repaired(p) && p.leader.commitIndex <= |p.leader.log|
    ensures var r := Round(p, k);
      && r.follower.self in r.leader.peers && Repaired(r) && r.leader.log == p.leader.log
      && r.follower.commitIndex == r.leader.commitIndex == p.leader.commitIndex
  {
    var log := p.leader.log;
    assert log[..|log|] == log;
    assert TermAt(p.follower.log, |log|) == TermAt(log, |log|);
  }

  lemma {:induction false} LastRound(p: Pair, sizes: seq<nat>, last: nat)
    requires AllEnabled(p, sizes + [last])
    ensures AllEnabled(p, sizes) && Enabled(Rounds(p, sizes), last)
    ensures Rounds(p, sizes + [last]) == Round(Rounds(p, sizes), last)
    decreases |sizes|
  {
    if sizes == [] {
      assert [] + [last] == [last] && [last][1..] == [];
    } else {
      assert (sizes + [last])[1..] == sizes[1..] + [last];
      LastRound(Round(p, sizes[0]), sizes[1..], last);
    }
  }

  lemma {:induction false} RoundsKeepBounded(p: Pair, sizes: seq<nat>)
    requires Ready(p) && AllEnabled(p, sizes) && Bounded(p) && NoBlank(p)
    ensures Bounded(Rounds(p, sizes))
    decreases |sizes|
  {
    if sizes != [] {
      RoundKeepsReady(p, sizes[0]);
      RoundKeepsBounded(p, sizes[0]);
      RoundsKeepBounded(Round(p, sizes[0]), sizes[1..]);
    }
  }

  /** So the loop ends with both the logs and the commit indices agreeing, and everything that the
      leader has committed can be applied by the follower. */
  lemma RepairCommits(p: Pair, sizes: seq<nat>)
    requires Ready(p) && AllEnabled(p, sizes) && Bounded(p) && NoBlank(p)
    requires |sizes| > p.Next() + |p.leader.log|
    ensures var e := Rounds(p, sizes);
      && e.leader.log == p.leader.log == e.follower.log
      && e.follower.commitIndex == e.leader.commitIndex <= |e.follower.log|
  {
    var front, last := sizes[..|sizes| - 1], sizes[|sizes| - 1];
    SplitLast(sizes);
    LastRound(p, front, last);
    RepairedAndBounded(p, front);
    CommitFollows(Rounds(p, front), last);
  }

  lemma SplitLast(sizes: seq<nat>)
    requires sizes != []
    ensures sizes == sizes[..|sizes| - 1] + [sizes[|sizes| - 1]]
  {
  }

  lemma RepairedAndBounded(p: Pair, sizes: seq<nat>)
    requires Ready(p) && AllEnabled(p, sizes) && Bounded(p) && NoBlank(p)
    requires |sizes| >= p.Next() + |p.leader.log|
    ensures var e := Rounds(p, sizes);
      && e.leader.log == p.leader.log && e.follower.self in e.leader.peers && Repaired(e)
      && e.leader.commitIndex <= |e.leader.log|
  {
    RepairConverges(p, sizes);
    RoundsKeepBounded(p, sizes);
  }
}
