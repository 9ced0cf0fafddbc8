/** What each critical section of the Raft core does to one node, as functions of the node
    and the message. FloydNode.dfy has the methods that change a node in place and are proved
    equal to these; the protocol theorems are about these.
 */
module Handlers {
  import opened RaftTypes
  import opened Quorum

  /** What holds of a node between critical sections: every next index is at least 1. */
  ghost predicate NodeValid(n: Node) {
    |n.peers| >= 1 && NextPositive(n)
  }

  ghost predicate NextPositive(n: Node) {
    forall p :: p in n.peers ==> n.peers[p].nextIndex >= 1
  }

  // ---------------------------------------------------------------- context changes

  function BecomeFollower(n: Node, newTerm: nat, leader: Addr): Node {
    n.(votedFor := leader, currentTerm := newTerm, leader := leader, role := Follower)
  }

  function BecomeCandidate(n: Node): Node {
    n.(currentTerm := n.currentTerm + 1, role := Candidate, leader := NOBODY, votedFor := n.self, voteQuorum := 1)
  }

  /** Taking leadership also restarts the bookkeeping about every peer. */
  function BecomeLeader(n: Node): Node {
    n.(role := Leader, leader := n.self, peers := FreshPeers(n.peers, |n.log|))
  }

  function FreshPeers(peers: map<Addr, Peer>, lastLogIndex: nat): map<Addr, Peer> {
    map p | p in peers :: Peer(lastLogIndex + 1, 0)
  }

  /** IsLeader(), which clients are answered by: the recorded leader is this node. */
  predicate IsLeader(n: Node) {
    n.leader.ip != "" && n.leader.port != 0 && n.leader == n.self
  }

  /** A check-leader tick that found the last contact too old. */
  function CheckLeader(n: Node): Node {
    if n.role != Leader then BecomeCandidate(n) else n
  }

  // ---------------------------------------------------------------- elections

  function BuildVoteRequest(n: Node): VoteRequest {
    VoteRequest(n.self, n.currentTerm, LastTerm(n.log), |n.log|)
  }

  /** The voter's test that a candidate's log is behind its own. */
  predicate Behind(lastTerm: nat, lastIndex: nat, log: seq<Entry>) {
    lastTerm < LastTerm(log) || (lastTerm == LastTerm(log) && lastIndex < |log|)
  }

  function ReplyRequestVote(n: Node, req: VoteRequest): (Node, VoteReply) {
    var n1 := if req.term > n.currentTerm then BecomeFollower(n, req.term, NOBODY) else n;
    if req.term < n1.currentTerm || Behind(req.lastLogTerm, req.lastLogIndex, n1.log)
       || (req.term in n1.voteFor && n1.voteFor[req.term] != req.from) then
      (n1, VoteReply(n1.currentTerm, false))
    else
      var n2 := BecomeFollower(n1.(voteFor := n1.voteFor[req.term := req.from]), req.term, NOBODY);
      var n3 := n2.(votedFor := req.from);
      (n3, VoteReply(n3.currentTerm, true))
  }

  /** The candidate's side: a grant of the current term adds one to the count, and the count
      passing half of the members makes a leader; a denial sends the candidate back. */
  function HandleVoteReply(n: Node, res: VoteReply, memberCount: nat): Node {
    if res.term > n.currentTerm then
      BecomeFollower(n, res.term, NOBODY)
    else if n.role == Candidate then
      if !res.granted then BecomeFollower(n, res.term, NOBODY)
      else if n.currentTerm != res.term then n
      else
        var n1 := n.(voteQuorum := n.voteQuorum + 1);
        if n1.voteQuorum > memberCount / 2 then BecomeLeader(n1) else n1
    else n
  }

  // ---------------------------------------------------------------- log replication

  /** How many entries a request may carry: as many as the limits allow, but at least one
      whenever there is something to send. */
  predicate BatchSize(log: seq<Entry>, nextIndex: nat, k: nat) {
    if 1 <= nextIndex <= |log| then 1 <= k <= |log| - (nextIndex - 1) else k == 0
  }

  function BuildAppendRequest(n: Node, peer: Addr, k: nat): AppendRequest
    requires peer in n.peers && n.peers[peer].nextIndex >= 1
    requires BatchSize(n.log, n.peers[peer].nextIndex, k)
  {
    var prev := n.peers[peer].nextIndex - 1;
    AppendRequest(n.self, n.currentTerm, prev, TermAt(n.log, prev), n.commitIndex,
                  if k == 0 then [] else n.log[prev..prev + k])
  }

  /** The follower refuses, in this order: a gap before the previous entry, or a different
      term at it. It cuts its log back to the previous entry before looking at the term, and
      cuts the previous entry too when the terms differ. */
  function AcceptEntries(log: seq<Entry>, prev: nat, prevTerm: nat, entries: seq<Entry>, writeOk: bool)
    : (seq<Entry>, bool)
    requires prev == 0 ==> prevTerm == 0
  {
    if prev > |log| then (log, false)
    else if prevTerm != TermAt(log, prev) then (log[..prev - 1], false)
    else if entries == [] || !writeOk then
      // a failed write reports the unchanged last index, which only an empty log gives away
      (log[..prev], entries == [] || prev > 0)
    else (log[..prev] + entries, true)
  }

  function ReplyAppendEntries(n: Node, req: AppendRequest, writeOk: bool): (Node, AppendReply)
    requires req.prevLogIndex == 0 ==> req.prevLogTerm == 0
  {
    if req.term < n.currentTerm then (n, AppendReply(false, n.currentTerm, |n.log|))
    else
      var n1 :=
        if req.term > n.currentTerm || n.role == Candidate || (n.role == Follower && n.leader.ip == "") then
          BecomeFollower(n, req.term, req.from)
        else n;
      var (log, ok) := AcceptEntries(n1.log, req.prevLogIndex, req.prevLogTerm, req.entries, writeOk);
      var commit :=
        if ok && req.leaderCommit != n1.commitIndex then Min(req.leaderCommit, |log|) else n1.commitIndex;
      (n1.(log := log, commitIndex := commit), AppendReply(ok, n1.currentTerm, |log|))
  }

  /** Where to try next after a refusal; 0 means there is nothing earlier to try. */
  function AdjustIndex(nextIndex: nat, lastLogIndex: nat): nat
    requires nextIndex >= 1
  {
    Min(lastLogIndex + 1, nextIndex - 1)
  }

  ghost function HandleAppendReply(n: Node, peer: Addr, req: AppendRequest, res: AppendReply): Node
    requires NodeValid(n) && peer in n.peers
  {
    if n.role != Leader then n
    else if res.term > n.currentTerm then BecomeFollower(n, res.term, NOBODY)
    else if res.success then
      if req.entries == [] then n
      else
        var reached := req.prevLogIndex + |req.entries|;
        var matched := n.peers[peer := n.peers[peer].(matchIndex := reached)];
        var commit :=
          if LastTerm(req.entries) == n.currentTerm then Max(n.commitIndex, QuorumIndex(matched)) else n.commitIndex;
        n.(commitIndex := commit, peers := matched[peer := Peer(reached + 1, reached)])
    else
      var adjust := AdjustIndex(n.peers[peer].nextIndex, res.lastLogIndex);
      if adjust > 0 then n.(peers := n.peers[peer := n.peers[peer].(nextIndex := adjust)]) else n
  }

  /** A client command on the node that believes it leads. */
  function AppendCommand(n: Node, cmd: Command): Node {
    if IsLeader(n) then n.(log := n.log + [Entry(n.currentTerm, cmd)]) else n
  }

  // ---------------------------------------------------------------- what the handlers promise

  /** A vote is granted exactly when the request is not of an older term, its log is
      lexicographically at least the voter's by (last term, last index), and the voter gave
      this term to nobody else; and a grant is recorded and always leaves a follower of the
      request's term. */
  lemma GrantExactly(n: Node, req: VoteRequest)
    ensures var (n', res) := ReplyRequestVote(n, req);
      && (res.granted <==>
            && req.term >= n.currentTerm
            && (req.lastLogTerm > LastTerm(n.log) || (req.lastLogTerm == LastTerm(n.log) && req.lastLogIndex >= |n.log|))
            && (req.term in n.voteFor ==> n.voteFor[req.term] == req.from))
      && (res.granted ==> n'.role == Follower && n'.currentTerm == req.term == res.term)
      && n'.voteFor == (if res.granted then n.voteFor[req.term := req.from] else n.voteFor)
      && n'.log == n.log
      && n'.currentTerm == Max(n.currentTerm, req.term)
      && (!res.granted ==> res.term == n'.currentTerm >= req.term)
  {
  }

  /** A vote reply makes a leader exactly when it is a grant of the candidate's current term that
      lifts the count above half of the members; a leader starts with every peer's next index just
      past its log and nothing matched. Only a newer term, or a denial, changes the term. */
  lemma ElectedExactly(n: Node, res: VoteReply, memberCount: nat)
    requires n.role != Leader
    ensures var n' := HandleVoteReply(n, res, memberCount);
      && (n'.role == Leader <==>
            n.role == Candidate && res.granted && res.term == n.currentTerm && 2 * (n.voteQuorum + 1) > memberCount)
      && (n'.role == Leader ==>
            && IsLeader(n') == n.self.IsSet() && n'.peers.Keys == n.peers.Keys
            && forall p :: p in n'.peers ==> n'.peers[p] == Peer(|n.log| + 1, 0))
      && (n'.currentTerm != n.currentTerm ==> n'.currentTerm == res.term && n'.role == Follower && n'.leader == NOBODY)
      && n'.log == n.log && n'.voteFor == n.voteFor && n'.commitIndex == n.commitIndex
  {
    assert memberCount == 2 * (memberCount / 2) + memberCount % 2;
  }

  /** What a follower answers to entries. It refuses exactly an older term, a gap before the
      previous entry, another term at it, or a write that failed on an empty prefix. An accepted
      request leaves the common prefix with the entries after it, or the bare prefix if the write
      failed; a refused one of this term cuts the log just before the previous entry, or leaves it.
      Hearing from an older term changes nothing at all. */
  lemma AnswerAppendExactly(n: Node, req: AppendRequest, writeOk: bool)
    requires req.prevLogIndex == 0 ==> req.prevLogTerm == 0
    ensures var (n', res) := ReplyAppendEntries(n, req, writeOk);
      var prev := req.prevLogIndex;
      && (res.success <==>
            && req.term >= n.currentTerm && prev <= |n.log| && req.prevLogTerm == TermAt(n.log, prev)
            && (req.entries == [] || writeOk || prev > 0))
      && (res.success ==> n'.log[..prev] == n.log[..prev] && n'.log[prev..] == if writeOk then req.entries else [])
      && (!res.success ==> n'.log == n.log || n'.log == [] || (1 <= prev <= |n.log| && n'.log == n.log[..prev - 1]))
      && res.lastLogIndex == |n'.log| && res.term == n'.currentTerm == Max(n.currentTerm, req.term)
      && (req.term < n.currentTerm ==> n' == n)
      && (req.term >= n.currentTerm ==>
            n'.role == Follower || (n.role == Leader && req.term == n.currentTerm && n'.role == Leader))
      && (req.term > n.currentTerm || (req.term == n.currentTerm && n.role == Candidate) ==>
            n'.role == Follower && n'.leader == req.from)
  {
  }

  /** The request is accepted, read off the node and the request. */
  predicate Accepted(n: Node, req: AppendRequest, writeOk: bool) {
    && req.term >= n.currentTerm && req.prevLogIndex <= |n.log| && req.prevLogTerm == TermAt(n.log, req.prevLogIndex)
    && (req.entries == [] || writeOk || req.prevLogIndex > 0)
  }

  /** The smaller of the leader's commit index and the last index that an accepted request leaves. */
  function OfferedCommit(req: AppendRequest, writeOk: bool): nat {
    Min(req.leaderCommit, req.prevLogIndex + (if writeOk then |req.entries| else 0))
  }

  /** A follower's commit index moves on accepted requests only, and then to what they offer, up or
      down, unless they name the index it has; it falls exactly when the offer is lower, and rises
      exactly when the offer is higher. */
  lemma FollowerCommitMovesExactly(n: Node, req: AppendRequest, writeOk: bool)
    requires req.prevLogIndex == 0 ==> req.prevLogTerm == 0
    ensures var n' := ReplyAppendEntries(n, req, writeOk).0;
      var offer := OfferedCommit(req, writeOk);
      && (n'.commitIndex < n.commitIndex <==>
            Accepted(n, req, writeOk) && req.leaderCommit != n.commitIndex && offer < n.commitIndex)
      && (n'.commitIndex > n.commitIndex <==> Accepted(n, req, writeOk) && offer > n.commitIndex)
      && (n'.commitIndex != n.commitIndex ==> n'.commitIndex == offer <= |n'.log|)
  {
  }

  /** It does fall: a leader whose own commit index lags, as a newly elected one's may, sends a
      heartbeat, and a follower with the same log takes the lower index over. */
  lemma LaggingLeaderLowersCommit(n: Node, leader: Node)
    requires n.self in leader.peers && leader.peers[n.self].nextIndex == |leader.log| + 1
    requires leader.log == n.log && leader.currentTerm >= n.currentTerm
    requires leader.commitIndex < n.commitIndex <= |n.log|
    ensures var req := BuildAppendRequest(leader, n.self, 0);
      && (req.prevLogIndex == 0 ==> req.prevLogTerm == 0)
      && var (n', res) := ReplyAppendEntries(n, req, true);
      && res.success && n'.commitIndex == leader.commitIndex < n.commitIndex && n'.log == n.log
  {
    assert n.log[..|n.log|] == n.log;
  }

  /** The requests that nodes build name no term before the first entry. */
  lemma BuiltRequestWellFormed(n: Node, peer: Addr, k: nat)
    requires peer in n.peers && n.peers[peer].nextIndex >= 1
    requires BatchSize(n.log, n.peers[peer].nextIndex, k)
    ensures var req := BuildAppendRequest(n, peer, k);
      && (req.prevLogIndex == 0 ==> req.prevLogTerm == 0)
      && (req.prevLogIndex <= |n.log| ==>
            n.log[..req.prevLogIndex] + req.entries == n.log[..req.prevLogIndex + |req.entries|])
      && (req.prevLogIndex > |n.log| ==> req.entries == [])
  {
  }

  /** A leader's commit index never goes down when a reply advances it, and when it moves it
      moves to the largest index held by a strict majority. */
  lemma CommitAdvances(n: Node, peer: Addr, req: AppendRequest, res: AppendReply)
    requires NodeValid(n) && peer in n.peers
    ensures var n' := HandleAppendReply(n, peer, req, res);
      && n'.commitIndex >= n.commitIndex
      && (n'.commitIndex > n.commitIndex ==> IsQuorumIndex(n'.peers, n'.commitIndex))
  {
    var n' := HandleAppendReply(n, peer, req, res);
    if n'.commitIndex > n.commitIndex {
      var reached := req.prevLogIndex + |req.entries|;
      var matched := n.peers[peer := n.peers[peer].(matchIndex := reached)];
      SameMatchSameQuorum(matched, n'.peers, n'.commitIndex);
    }
  }

  /** And it goes up exactly when a success with entries, the last of them of the leader's own
      term, leaves a majority past it. */
  lemma CommitExactly(n: Node, peer: Addr, req: AppendRequest, res: AppendReply)
    requires NodeValid(n) && peer in n.peers
    ensures var n' := HandleAppendReply(n, peer, req, res);
      && |n'.peers| >= 1
      && (n'.commitIndex > n.commitIndex <==>
            && n.role == Leader && res.term <= n.currentTerm && res.success
            && req.entries != [] && LastTerm(req.entries) == n.currentTerm
            && QuorumIndex(n'.peers) > n.commitIndex)
  {
    var n' := HandleAppendReply(n, peer, req, res);
    assert n'.peers.Keys == n.peers.Keys && |n'.peers| == |n'.peers.Keys| == |n.peers|;
    if n.role == Leader && res.term <= n.currentTerm && res.success && req.entries != [] {
      var reached := req.prevLogIndex + |req.entries|;
      var matched := n.peers[peer := n.peers[peer].(matchIndex := reached)];
      SameMatchSameQuorum(matched, n'.peers, QuorumIndex(matched));
      QuorumIndexUnique(n'.peers, QuorumIndex(matched));
    }
  }

  /** What a reply does to the leader's bookkeeping: a success with entries moves both indices of
      that peer to the last entry sent; a refusal moves its next index only; nothing else moves,
      and a node that does not lead ignores replies. */
  lemma ReplyMovesPeer(n: Node, peer: Addr, req: AppendRequest, res: AppendReply)
    requires NodeValid(n) && peer in n.peers
    ensures var n' := HandleAppendReply(n, peer, req, res);
      && n'.peers.Keys == n.peers.Keys && n'.log == n.log
      && (forall p :: p in n.peers && p != peer ==> n'.peers[p] == n.peers[p])
      && (n'.peers[peer].matchIndex != n.peers[peer].matchIndex ==> n.role == Leader && res.success && res.term <= n.currentTerm)
      && (n.role == Leader && res.success && res.term <= n.currentTerm && req.entries != [] ==>
            n'.peers[peer] == Peer(req.prevLogIndex + |req.entries| + 1, req.prevLogIndex + |req.entries|))
      && (n.role == Leader && !res.success && res.term <= n.currentTerm && n.peers[peer].nextIndex > 1 ==>
            n'.peers[peer].nextIndex == Min(res.lastLogIndex + 1, n.peers[peer].nextIndex - 1))
      && (n.role != Leader ==> n' == n)
  {
  }

  lemma SameMatchSameQuorum(a: map<Addr, Peer>, b: map<Addr, Peer>, k: nat)
    requires a.Keys == b.Keys && forall p :: p in a ==> a[p].matchIndex == b[p].matchIndex
    requires IsQuorumIndex(a, k)
    ensures IsQuorumIndex(b, k)
  {
    assert |a.Keys| == |a| && |b.Keys| == |b|;
    forall j: nat
      ensures HeldByMajority(a, j) == HeldByMajority(b, j)
    {
      assert Holders(a, j) == Holders(b, j);
    }
  }

  /** A success report with entries means the follower's log is now exactly the sender's log up
      to the last entry sent, if and only if the write went through; a failed write is reported
      as a success all the same whenever there is a previous entry. */
  lemma MatchIsTruthful(n: Node, req: AppendRequest, senderLog: seq<Entry>, writeOk: bool)
    requires LogMatch(senderLog, n.log)
    requires FromLog(req, senderLog)
    requires ReplyAppendEntries(n, req, writeOk).1.success && req.entries != []
    ensures ReplyAppendEntries(n, req, writeOk).0.log == senderLog[..req.prevLogIndex + |req.entries|] <==> writeOk
  {
    var prev := req.prevLogIndex;
    var log := ReplyAppendEntries(n, req, writeOk).0.log;
    AgreeUpTo(senderLog, n.log, prev);
    if writeOk {
      assert senderLog[..prev + |req.entries|] == senderLog[..prev] + req.entries;
    } else {
      assert |log| == prev;
    }
  }

  /** The request was built from this log. */
  ghost predicate FromLog(req: AppendRequest, log: seq<Entry>) {
    var prev := req.prevLogIndex;
    && req.prevLogTerm == TermAt(log, prev)
    && (prev > |log| ==> req.entries == [])
    && (prev <= |log| ==> prev + |req.entries| <= |log| && req.entries == log[prev..prev + |req.entries|])
  }

  lemma BuiltFromLog(n: Node, peer: Addr, k: nat)
    requires peer in n.peers && n.peers[peer].nextIndex >= 1
    requires BatchSize(n.log, n.peers[peer].nextIndex, k)
    ensures FromLog(BuildAppendRequest(n, peer, k), n.log)
  {
  }

  /** Whatever is delivered, the follower is left with a prefix of its own log or of the
      sender's. */
  lemma AcceptedIsPrefix(log: seq<Entry>, req: AppendRequest, senderLog: seq<Entry>, writeOk: bool)
    requires LogMatch(senderLog, log) && FromLog(req, senderLog)
    ensures var l := AcceptEntries(log, req.prevLogIndex, req.prevLogTerm, req.entries, writeOk).0;
      (|l| <= |log| && l == log[..|l|]) || (|l| <= |senderLog| && l == senderLog[..|l|])
  {
    var prev := req.prevLogIndex;
    if prev <= |log| && req.prevLogTerm == TermAt(log, prev) && req.entries != [] && writeOk {
      AgreeUpTo(senderLog, log, prev);
      assert senderLog[..prev + |req.entries|] == senderLog[..prev] + req.entries;
    }
  }
}
