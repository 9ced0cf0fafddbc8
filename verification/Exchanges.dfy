/** What one whole exchange between two nodes, request and reply, comes to on both sides. */
module Exchanges {
  import opened RaftTypes
  import opened Handlers
  import opened VotedLogs

  /** The sender asks, the receiver answers, the sender takes the answer. */
  ghost function AppendExchange(sender: Node, receiver: Node, k: nat, writeOk: bool): (Node, Node)
    requires NodeValid(sender) && receiver.self in sender.peers
    requires BatchSize(sender.log, sender.peers[receiver.self].nextIndex, k)
  {
    var req := BuildAppendRequest(sender, receiver.self, k);
    var (receiver', res) := ReplyAppendEntries(receiver, req, writeOk);
    (HandleAppendReply(sender, receiver.self, req, res), receiver')
  }

  function VoteExchange(candidate: Node, voter: Node, memberCount: nat): (Node, Node) {
    var (voter', res) := ReplyRequestVote(voter, BuildVoteRequest(candidate));
    (HandleVoteReply(candidate, res, memberCount), voter')
  }

  /** A leader steps down if and only if it hears from a newer term; it is then a follower of that
      term that knows no leader, and the other side is as it was. Otherwise both are of the leader's
      term afterwards. */
  lemma StepsDownExactly(sender: Node, receiver: Node, k: nat, writeOk: bool)
    requires NodeValid(sender) && receiver.self in sender.peers && sender.role == Leader
    requires BatchSize(sender.log, sender.peers[receiver.self].nextIndex, k)
    ensures var (s', r') := AppendExchange(sender, receiver, k, writeOk);
      && (s'.role != Leader <==> receiver.currentTerm > sender.currentTerm)
      && (s'.role != Leader ==>
            && s'.role == Follower && s'.currentTerm == receiver.currentTerm && s'.leader == s'.votedFor == NOBODY && !IsLeader(s')
            && r' == receiver)
      && (s'.role == Leader ==> s'.currentTerm == r'.currentTerm == sender.currentTerm && s'.leader == sender.leader)
      && s'.log == sender.log && s'.peers.Keys == sender.peers.Keys
  {
    ReplyMovesPeer(sender, receiver.self, BuildAppendRequest(sender, receiver.self, k),
                   ReplyAppendEntries(receiver, BuildAppendRequest(sender, receiver.self, k), writeOk).1);
  }

  /** Whoever is behind in term, campaigns in the sender's term or knows no leader follows the sender
      afterwards; any other receiver of that term keeps its role and its leader. */
  lemma FollowsExactly(sender: Node, receiver: Node, k: nat, writeOk: bool)
    requires NodeValid(sender) && receiver.self in sender.peers && receiver.currentTerm <= sender.currentTerm
    requires BatchSize(sender.log, sender.peers[receiver.self].nextIndex, k)
    ensures var r' := AppendExchange(sender, receiver, k, writeOk).1;
      if receiver.currentTerm < sender.currentTerm || receiver.role == Candidate
         || (receiver.role == Follower && receiver.leader.ip == "")
      then r'.role == Follower && r'.leader == r'.votedFor == sender.self && r'.currentTerm == sender.currentTerm
      else r'.role == receiver.role && r'.leader == receiver.leader && r'.votedFor == receiver.votedFor
  {
  }

  /** A vote exchange. From a voter ahead in term anybody comes back as its follower, of nobody. A
      candidate whose term is not behind either counts the vote, which makes it lead exactly at a
      strict majority, or is denied, and then gives its candidacy up; which of the two is decided by
      the two logs and by the voter's vote of that term. Nobody else minds the answer. */
  lemma VoteExchangeExactly(candidate: Node, voter: Node, memberCount: nat)
    ensures var (c', v') := VoteExchange(candidate, voter, memberCount);
      var t := candidate.currentTerm;
      var granted := NotAhead(voter.log, candidate.log) && (t in voter.voteFor ==> voter.voteFor[t] == candidate.self);
      if voter.currentTerm > t then
        && v' == voter
        && c'.role == Follower && c'.currentTerm == voter.currentTerm && c'.leader == c'.votedFor == NOBODY && !IsLeader(c')
      else
        && v'.currentTerm == t
        && (granted ==> v'.role == Follower && v'.leader == NOBODY && v'.votedFor == candidate.self
                        && v'.voteFor == voter.voteFor[t := candidate.self])
        && (!granted ==> v'.voteFor == voter.voteFor)
        && (candidate.role != Candidate ==> c' == candidate)
        && (candidate.role == Candidate && granted ==>
              && c'.currentTerm == t && c'.voteQuorum == candidate.voteQuorum + 1
              && (c'.role == Leader <==> 2 * c'.voteQuorum > memberCount) && (c'.role != Leader ==> c'.role == Candidate))
        && (candidate.role == Candidate && !granted ==>
              c'.role == Follower && c'.currentTerm == t && c'.leader == c'.votedFor == NOBODY)
  {
    GrantedBetween(candidate, voter);
    assert memberCount == 2 * (memberCount / 2) + memberCount % 2;
  }

  /** A candidacy is of the very next term, with the candidate's own vote counted. */
  lemma CandidacyIsNextTerm(n: Node)
    ensures var c := CheckLeader(n);
      if n.role == Leader then c == n
      else c.role == Candidate && c.currentTerm == n.currentTerm + 1 && c.voteQuorum == 1 && c.votedFor == n.self
           && c.leader == NOBODY && c.log == n.log && c.voteFor == n.voteFor
  {
  }
}
