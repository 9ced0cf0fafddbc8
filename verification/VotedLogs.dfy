/** Votes go to logs that are not behind the voter's, so a new leader's log is not behind the logs
    that a majority held when they voted for it.
 */
module VotedLogs {
  import opened RaftTypes
  import opened Handlers
  import opened Protocol
  import ElectionSafety

  /** The voter's log is not ahead of the candidate's: by the terms of their own last entries, and
      by length where those are equal. */
  ghost predicate NotAhead(voter: seq<Entry>, candidate: seq<Entry>) {
    voter == [] ||
    (candidate != [] &&
     var v, c := voter[|voter| - 1].term, candidate[|candidate| - 1].term;
     v < c || (v == c && |voter| <= |candidate|))
  }

  /** Between any two nodes: the request that one builds is granted by the other if and only if the
      voter's term and log are not ahead and its vote of that term is not somebody else's. */
  lemma GrantedBetween(candidate: Node, voter: Node)
    ensures ReplyRequestVote(voter, BuildVoteRequest(candidate)).1.granted <==>
      && voter.currentTerm <= candidate.currentTerm && NotAhead(voter.log, candidate.log)
      && (candidate.currentTerm in voter.voteFor ==> voter.voteFor[candidate.currentTerm] == candidate.self)
  {
    GrantExactly(voter, BuildVoteRequest(candidate));
  }

  // ---------------------------------------------------------------- what every run keeps

  /** A request states the log it was built from; and while its sender campaigns in the request's
      term, that is the sender's log still. */
  ghost predicate AskInv(s: System, ask: VoteRequest, log: seq<Entry>) {
    && ask.from in s.nodes && ask.lastLogTerm == LastTerm(log) && ask.lastLogIndex == |log|
    && ask.term <= s.nodes[ask.from].currentTerm
    && (s.nodes[ask.from].role == Candidate && ask.term == s.nodes[ask.from].currentTerm ==> log == s.nodes[ask.from].log)
  }

  ghost predicate VoteMessageInv(s: System, m: Message) {
    match m
    case VoteAsk(_, ask, log) => AskInv(s, ask, log)
    case VoteAnswer(to, _, ask, vote, log, voterLog) =>
      AskInv(s, ask, log) && to == ask.from && (vote.granted ==> vote.term == ask.term && NotAhead(voterLog, log))
    case _ => true
  }

  /** The message by which v granted this term to i. */
  ghost predicate GrantFrom(s: System, m: Message, v: Addr, i: Addr, term: nat) {
    m in s.net && m.VoteAnswer? && m.to == i && m.from == v && m.vote.granted && m.vote.term == term
  }

  ghost predicate VotersGranted(s: System, i: Addr)
    requires i in s.nodes && i in s.voters
  {
    s.nodes[i].role != Follower ==>
      forall v :: v in s.voters[i] && v != i ==> exists m :: GrantFrom(s, m, v, i, s.nodes[i].currentTerm)
  }

  ghost predicate VotedInv(s: System) {
    && s.voters.Keys == s.nodes.Keys
    && (forall m :: m in s.net ==> VoteMessageInv(s, m))
    && (forall i :: i in s.nodes ==> VotersGranted(s, i))
  }

  /** A candidate keeps its log as long as it campaigns in one term. */
  ghost predicate CampaignKept(o: Node, n: Node) {
    && n.currentTerm >= o.currentTerm
    && (n.role == Candidate ==> n.currentTerm > o.currentTerm || (o.role == Candidate && n.log == o.log))
  }

  lemma AskKept(s: System, s': System, i: Addr, n: Node, ask: VoteRequest, log: seq<Entry>)
    requires AskInv(s, ask, log) && i in s.nodes && s'.nodes == s.nodes[i := n] && CampaignKept(s.nodes[i], n)
    ensures AskInv(s', ask, log)
  {
  }

  lemma MessageKept(s: System, s': System, i: Addr, n: Node, m: Message)
    requires VoteMessageInv(s, m) && i in s.nodes && s'.nodes == s.nodes[i := n] && CampaignKept(s.nodes[i], n)
    ensures VoteMessageInv(s', m)
  {
    match m
    case VoteAsk(_, ask, log) => AskKept(s, s', i, n, ask, log);
    case VoteAnswer(_, _, ask, _, log, _) => AskKept(s, s', i, n, ask, log);
    case _ =>
  }

  lemma VotersKept(s: System, s': System, i: Addr)
    requires i in s.nodes && i in s.voters && i in s'.nodes && i in s'.voters && VotersGranted(s, i)
    requires s.net <= s'.net && s'.voters[i] == s.voters[i]
    requires s'.nodes[i].role != Follower ==> s.nodes[i].role != Follower && s'.nodes[i].currentTerm == s.nodes[i].currentTerm
    ensures VotersGranted(s', i)
  {
    if s'.nodes[i].role != Follower {
      forall v | v in s'.voters[i] && v != i
        ensures exists m :: GrantFrom(s', m, v, i, s'.nodes[i].currentTerm)
      {
        var m :| GrantFrom(s, m, v, i, s.nodes[i].currentTerm);
        assert GrantFrom(s', m, v, i, s'.nodes[i].currentTerm);
      }
    }
  }

  /** The proof of every step but for the node that took it and what it sent. */
  lemma VotedStep(s: System, s': System, i: Addr, n: Node, sent: set<Message>)
    requires VotedInv(s) && i in s.nodes
    requires s'.nodes == s.nodes[i := n] && s'.net == s.net + sent && CampaignKept(s.nodes[i], n)
    requires s'.voters.Keys == s.voters.Keys && forall j :: j in s.voters && j != i ==> s'.voters[j] == s.voters[j]
    requires VotersGranted(s', i)
    requires forall m :: m in sent ==> VoteMessageInv(s', m)
    ensures VotedInv(s')
  {
    forall m | m in s'.net
      ensures VoteMessageInv(s', m)
    {
      if m in s.net { MessageKept(s, s', i, n, m); }
    }
    forall j | j in s'.nodes
      ensures VotersGranted(s', j)
    {
      if j != i { VotersKept(s, s', j); }
    }
  }

  /** A step that counts no vote and starts no candidacy. */
  lemma SameVotersStep(s: System, s': System, i: Addr, n: Node, sent: set<Message>)
    requires VotedInv(s) && i in s.nodes
    requires s'.nodes == s.nodes[i := n] && s'.net == s.net + sent && s'.voters == s.voters && CampaignKept(s.nodes[i], n)
    requires n.role != Follower ==> s.nodes[i].role != Follower && n.currentTerm == s.nodes[i].currentTerm
    requires forall m :: m in sent ==> VoteMessageInv(s', m)
    ensures VotedInv(s')
  {
    VotersKept(s, s', i);
    VotedStep(s, s', i, n, sent);
  }

  lemma TickVoted(s: System, i: Addr)
    requires VotedInv(s) && Enabled(s, CheckLeaderTick(i))
    ensures VotedInv(Step(s, CheckLeaderTick(i)))
  {
    var s', n := Step(s, CheckLeaderTick(i)), CheckLeader(s.nodes[i]);
    assert s'.net == s.net + {};
    if s.nodes[i].role == Leader {
      SameVotersStep(s, s', i, n, {});
    } else {
      VotedStep(s, s', i, n, {});
    }
  }

  lemma AskVoted(s: System, i: Addr, j: Addr)
    requires VotedInv(s) && Enabled(s, AskVote(i, j)) && s.nodes[i].self == i
    ensures VotedInv(Step(s, AskVote(i, j)))
  {
    var n := s.nodes[i];
    SameVotersStep(s, Step(s, AskVote(i, j)), i, n, {VoteAsk(j, BuildVoteRequest(n), n.log)});
  }

  lemma AnswerVoted(s: System, m: Message)
    requires VotedInv(s) && Enabled(s, AnswerVote(m))
    ensures VotedInv(Step(s, AnswerVote(m)))
  {
    var o, s' := s.nodes[m.to], Step(s, AnswerVote(m));
    var (n, vote) := ReplyRequestVote(o, m.ask);
    AnswerKeepsCampaign(o, m.ask);
    assert VoteMessageInv(s, m);
    var answer := VoteAnswer(m.ask.from, m.to, m.ask, vote, m.candidateLog, o.log);
    AnswerTold(s, s', m, n, answer);
    SameVotersStep(s, s', m.to, n, {answer});
  }

  lemma AnswerKeepsCampaign(o: Node, ask: VoteRequest)
    ensures var n := ReplyRequestVote(o, ask).0;
      CampaignKept(o, n) && (n.role != Follower ==> o.role != Follower && n.currentTerm == o.currentTerm)
  {
  }

  /** The answer tells of logs that compare as the voter found them to. */
  lemma AnswerTold(s: System, s': System, m: Message, n: Node, answer: Message)
    requires m.VoteAsk? && VoteMessageInv(s, m) && m.to in s.nodes && s'.nodes == s.nodes[m.to := n]
    requires answer.VoteAnswer? && (n, answer.vote) == ReplyRequestVote(s.nodes[m.to], m.ask) && CampaignKept(s.nodes[m.to], n)
    requires answer == VoteAnswer(m.ask.from, m.to, m.ask, answer.vote, m.candidateLog, s.nodes[m.to].log)
    ensures VoteMessageInv(s', answer)
  {
    AskKept(s, s', m.to, n, m.ask, m.candidateLog);
    GrantExactly(s.nodes[m.to], m.ask);
  }

  lemma TakeVoted(s: System, m: Message)
    requires VotedInv(s) && Enabled(s, TakeVote(m)) && Premises(s, TakeVote(m))
    ensures VotedInv(Step(s, TakeVote(m)))
  {
    var i, o, s' := m.to, s.nodes[m.to], Step(s, TakeVote(m));
    var n := HandleVoteReply(o, m.vote, |s.nodes|);
    CountingKeepsCampaign(o, m.vote, |s.nodes|);
    assert s'.net == s.net + {};
    if n.voteQuorum > o.voteQuorum {
      CountedVoters(s, s', m, n);
      VotedStep(s, s', i, n, {});
    } else {
      SameVotersStep(s, s', i, n, {});
    }
  }

  lemma CountingKeepsCampaign(o: Node, vote: VoteReply, memberCount: nat)
    requires o.role == Candidate && vote.term <= o.currentTerm && !vote.granted ==> vote.term == o.currentTerm
    ensures var n := HandleVoteReply(o, vote, memberCount);
      && CampaignKept(o, n) && (n.role != Follower ==> o.role != Follower && n.currentTerm == o.currentTerm)
      && (n.voteQuorum > o.voteQuorum ==> vote.granted && vote.term == o.currentTerm == n.currentTerm && o.role == Candidate)
  {
  }

  lemma CountedVoters(s: System, s': System, m: Message, n: Node)
    requires m in s.net && m.VoteAnswer? && m.to in s.nodes && m.to in s.voters && VotersGranted(s, m.to)
    requires s'.nodes == s.nodes[m.to := n] && s'.net == s.net
    requires s'.voters == s.voters[m.to := s.voters[m.to] + {m.from}]
    requires m.vote.granted && m.vote.term == n.currentTerm == s.nodes[m.to].currentTerm && s.nodes[m.to].role == Candidate
    ensures VotersGranted(s', m.to)
  {
    forall v | v in s'.voters[m.to] && v != m.to
      ensures exists g :: GrantFrom(s', g, v, m.to, n.currentTerm)
    {
      if v == m.from {
        assert GrantFrom(s', m, v, m.to, n.currentTerm);
      } else {
        var g :| GrantFrom(s, g, v, m.to, n.currentTerm);
        assert GrantFrom(s', g, v, m.to, n.currentTerm);
      }
    }
  }

  /** What a step that is not about votes does to its node. */
  ghost predicate VotesUntouched(o: Node, n: Node) {
    CampaignKept(o, n) && (n.role != Follower ==> o.role != Follower && n.currentTerm == o.currentTerm)
  }

  lemma SendVoted(s: System, i: Addr, j: Addr, k: nat)
    requires VotedInv(s) && Enabled(s, SendAppend(i, j, k))
    ensures VotedInv(Step(s, SendAppend(i, j, k)))
  {
    var n := s.nodes[i];
    SameVotersStep(s, Step(s, SendAppend(i, j, k)), i, n, {AppendAsk(j, BuildAppendRequest(n, j, k), n.log)});
  }

  lemma DeliveryUntouched(o: Node, req: AppendRequest, writeOk: bool)
    requires req.prevLogIndex == 0 ==> req.prevLogTerm == 0
    ensures VotesUntouched(o, ReplyAppendEntries(o, req, writeOk).0)
  {
  }

  lemma DeliveryVoted(s: System, m: Message, writeOk: bool)
    requires VotedInv(s) && Enabled(s, AnswerAppend(m, writeOk))
    ensures VotedInv(Step(s, AnswerAppend(m, writeOk)))
  {
    var (n, answer) := ReplyAppendEntries(s.nodes[m.to], m.append, writeOk);
    DeliveryUntouched(s.nodes[m.to], m.append, writeOk);
    SameVotersStep(s, Step(s, AnswerAppend(m, writeOk)), m.to, n,
                   {AppendAnswer(m.append.from, m.to, m.append, m.senderLog, answer, n.log, writeOk)});
  }

  lemma ReplyUntouched(o: Node, peer: Addr, req: AppendRequest, res: AppendReply)
    requires NodeValid(o) && peer in o.peers
    ensures VotesUntouched(o, HandleAppendReply(o, peer, req, res))
  {
  }

  lemma ReplyVoted(s: System, m: Message)
    requires VotedInv(s) && Enabled(s, TakeAppend(m))
    ensures VotedInv(Step(s, TakeAppend(m)))
  {
    var n := HandleAppendReply(s.nodes[m.to], m.from, m.append, m.answer);
    ReplyUntouched(s.nodes[m.to], m.from, m.append, m.answer);
    var s' := Step(s, TakeAppend(m));
    assert s'.net == s.net + {};
    SameVotersStep(s, s', m.to, n, {});
  }

  lemma CommandVoted(s: System, i: Addr, cmd: Command)
    requires VotedInv(s) && Enabled(s, ClientCommand(i, cmd)) && (IsLeader(s.nodes[i]) ==> s.nodes[i].role == Leader)
    ensures VotedInv(Step(s, ClientCommand(i, cmd)))
  {
    var s' := Step(s, ClientCommand(i, cmd));
    assert s'.net == s.net + {};
    SameVotersStep(s, s', i, AppendCommand(s.nodes[i], cmd), {});
  }

  lemma StepKeepsVoted(s: System, a: Action)
    requires ElectionSafety.Inv(s) && VotedInv(s) && Enabled(s, a) && Premises(s, a)
    ensures VotedInv(Step(s, a))
  {
    match a
    case CheckLeaderTick(i) => TickVoted(s, i);
    case AskVote(i, j) =>
      LeaderByFlag(s, i);
      AskVoted(s, i, j);
    case AnswerVote(m) => AnswerVoted(s, m);
    case TakeVote(m) => TakeVoted(s, m);
    case SendAppend(i, j, k) => SendVoted(s, i, j, k);
    case AnswerAppend(m, writeOk) => DeliveryVoted(s, m, writeOk);
    case TakeAppend(m) => ReplyVoted(s, m);
    case ClientCommand(i, cmd) =>
      LeaderByFlag(s, i);
      CommandVoted(s, i, cmd);
  }

  lemma LeaderByFlag(s: System, i: Addr)
    requires ElectionSafety.Inv(s) && i in s.nodes
    ensures s.nodes[i].self == i && (IsLeader(s.nodes[i]) ==> s.nodes[i].role == Leader)
  {
    assert ElectionSafety.NodeShape(s, i) && ElectionSafety.NodeInv(s, i);
  }

  lemma {:induction false} RunKeepsVoted(s: System, actions: seq<Action>)
    requires ElectionSafety.Inv(s) && VotedInv(s) && Allowed(s, actions)
    ensures ElectionSafety.Inv(Run(s, actions)) && VotedInv(Run(s, actions))
    decreases |actions|
  {
    if actions != [] {
      ElectionSafety.StepKeeps(s, actions[0]);
      StepKeepsVoted(s, actions[0]);
      RunKeepsVoted(Step(s, actions[0]), actions[1..]);
    }
  }

  lemma InitVoted(s: System)
    requires Init(s)
    ensures ElectionSafety.Inv(s) && VotedInv(s)
  {
    ElectionSafety.InitInv(s);
    forall i | i in s.nodes
      ensures VotersGranted(s, i)
    {
      assert InitNode(s, i);
    }
  }

  /** Over any run, every grant was given by a voter whose log, when it answered, was not ahead of
      the log that the candidate asked with. */
  lemma GrantsToLogsNotBehind(s: System, actions: seq<Action>, m: Message)
    requires Init(s) && Allowed(s, actions)
    requires m in Run(s, actions).net && m.VoteAnswer? && m.vote.granted
    ensures NotAhead(m.voterLog, m.candidateLog) && m.vote.term == m.ask.term && m.to == m.ask.from
  {
    InitVoted(s);
    RunKeepsVoted(s, actions);
    assert VoteMessageInv(Run(s, actions), m);
  }

  /** This grant went to i in this term, from a log that was not ahead of the given one. */
  ghost predicate GrantTo(s: System, m: Message, v: Addr, i: Addr, term: nat, log: seq<Entry>) {
    GrantFrom(s, m, v, i, term) && m.candidateLog == log && NotAhead(m.voterLog, log)
  }

  lemma CandidateGrants(s: System, i: Addr, v: Addr) returns (m: Message)
    requires VotedInv(s) && i in s.nodes && s.nodes[i].role == Candidate && v in s.voters[i] && v != i
    ensures GrantTo(s, m, v, i, s.nodes[i].currentTerm, s.nodes[i].log)
  {
    assert VotersGranted(s, i);
    m :| GrantFrom(s, m, v, i, s.nodes[i].currentTerm);
    assert VoteMessageInv(s, m);
  }

  /** Over any run, whenever a node is elected, its log is not behind the logs that a strict majority,
      itself included, held when they voted for it. */
  lemma ElectedOverMajority(s: System, actions: seq<Action>, m: Message) returns (q: set<Addr>)
    requires Init(s) && Allowed(s, actions)
    requires var e := Run(s, actions);
      && Enabled(e, TakeVote(m)) && Premises(e, TakeVote(m)) && e.nodes[m.to].role == Candidate
      && HandleVoteReply(e.nodes[m.to], m.vote, |e.nodes|).role == Leader
    ensures var e := Run(s, actions);
      && q <= e.nodes.Keys && 2 * |q| > |e.nodes.Keys| && m.to in q
      && forall v :: v in q && v != m.to ==> exists g :: GrantTo(e, g, v, m.to, e.nodes[m.to].currentTerm, e.nodes[m.to].log)
  {
    InitVoted(s);
    RunKeepsVoted(s, actions);
    q := ElectedNow(Run(s, actions), m);
  }

  lemma ElectedNow(e: System, m: Message) returns (q: set<Addr>)
    requires ElectionSafety.Inv(e) && VotedInv(e) && Enabled(e, TakeVote(m)) && Premises(e, TakeVote(m))
    requires e.nodes[m.to].role == Candidate && HandleVoteReply(e.nodes[m.to], m.vote, |e.nodes|).role == Leader
    ensures q <= e.nodes.Keys && 2 * |q| > |e.nodes.Keys| && m.to in q
    ensures forall v :: v in q && v != m.to ==> exists g :: GrantTo(e, g, v, m.to, e.nodes[m.to].currentTerm, e.nodes[m.to].log)
  {
    var i, o := m.to, e.nodes[m.to];
    q := e.voters[i] + {m.from};
    CountedMajority(e, m);
    forall v | v in q && v != i
      ensures exists g :: GrantTo(e, g, v, i, o.currentTerm, o.log)
    {
      if v == m.from {
        assert VoteMessageInv(e, m);
        assert GrantTo(e, m, v, i, o.currentTerm, o.log);
      } else {
        var g := CandidateGrants(e, i, v);
      }
    }
  }

  lemma CountedMajority(e: System, m: Message)
    requires ElectionSafety.Inv(e) && Enabled(e, TakeVote(m)) && Premises(e, TakeVote(m))
    requires e.nodes[m.to].role == Candidate && HandleVoteReply(e.nodes[m.to], m.vote, |e.nodes|).role == Leader
    ensures m.vote.granted && m.vote.term == e.nodes[m.to].currentTerm
    ensures m.to in e.voters[m.to] && e.voters[m.to] <= e.nodes.Keys && m.from in e.nodes
    ensures 2 * |e.voters[m.to] + {m.from}| > |e.nodes.Keys|
  {
    ElectedExactly(e.nodes[m.to], m.vote, |e.nodes|);
    CandidateBacked(e, m.to);
    assert ElectionSafety.MessageInv(e, m);
    assert m.from !in e.voters[m.to];
    assert |e.nodes| == |e.nodes.Keys|;
    assert |e.voters[m.to] + {m.from}| == |e.voters[m.to]| + 1;
  }

  lemma CandidateBacked(e: System, i: Addr)
    requires ElectionSafety.Inv(e) && i in e.nodes && e.nodes[i].role == Candidate
    ensures i in e.voters && i in e.voters[i] && e.voters[i] <= e.nodes.Keys && |e.voters[i]| == e.nodes[i].voteQuorum
  {
    assert ElectionSafety.NodeInv(e, i) && ElectionSafety.Backed(e, i);
  }
}
