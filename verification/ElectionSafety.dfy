/** At no instant do two nodes lead in the same term. Self-votes are not recorded in vote_for_,
    so what carries the proof is that granting a vote always demotes the voter: a node that is
    Candidate or Leader of a term has granted nobody in it.
 */
module ElectionSafety {
  import opened RaftTypes
  import opened Handlers
  import opened Protocol

  ghost predicate Shape(s: System) {
    && |s.nodes| >= 2 && s.voters.Keys == s.nodes.Keys
    && forall i :: i in s.nodes ==> NodeShape(s, i)
  }

  ghost predicate NodeShape(s: System, i: Addr)
    requires i in s.nodes
  {
    var n := s.nodes[i];
    i.IsSet() && n.self == i && NextPositive(n) && n.peers.Keys == s.nodes.Keys - {i}
  }

  /** Node g's recorded vote in this term is for c. */
  ghost predicate Voted(s: System, g: Addr, term: nat, c: Addr) {
    g in s.nodes && term in s.nodes[g].voteFor && s.nodes[g].voteFor[term] == c
  }

  ghost predicate VotesBelowTerm(n: Node) {
    forall t :: t in n.voteFor ==> t <= n.currentTerm
  }

  /** The votes behind a candidate or leader: itself, and peers that recorded their vote. */
  ghost predicate Backed(s: System, i: Addr)
    requires i in s.nodes && i in s.voters
  {
    var n := s.nodes[i];
    && n.currentTerm !in n.voteFor
    && i in s.voters[i] && s.voters[i] <= s.nodes.Keys
    && |s.voters[i]| == n.voteQuorum
    && (forall v :: v in s.voters[i] && v != i ==> Voted(s, v, n.currentTerm, i))
    && (n.role == Leader ==> n.voteQuorum > |s.nodes| / 2)
  }

  ghost predicate NodeInv(s: System, i: Addr)
    requires i in s.nodes && i in s.voters
  {
    && VotesBelowTerm(s.nodes[i])
    && (s.nodes[i].role != Follower ==> Backed(s, i))
    && (s.nodes[i].leader == i <==> s.nodes[i].role == Leader)
  }

  ghost predicate MessageInv(s: System, m: Message) {
    match m
    case VoteAsk(to, ask, _) => to in s.nodes && ask.from in s.nodes && ask.from != to
    case VoteAnswer(to, from, ask, vote, _, _) =>
      && to in s.nodes && from in s.nodes && from != to
      && (vote.granted ==> Voted(s, from, vote.term, to))
    case AppendAsk(to, append, _) => to in s.nodes && append.from in s.nodes && append.from != to
    case AppendAnswer(to, from, _, _, _, _, _) => to in s.nodes && from in s.nodes && from != to
  }

  ghost predicate Inv(s: System) {
    && Shape(s)
    && (forall i :: i in s.nodes ==> NodeInv(s, i))
    && (forall m :: m in s.net ==> MessageInv(s, m))
  }

  lemma InitInv(s: System)
    requires Init(s)
    ensures Inv(s)
  {
    forall i | i in s.nodes
      ensures NodeShape(s, i) && NodeInv(s, i)
    {
      assert InitNode(s, i);
    }
  }

  /** Terms go up and recorded votes stay. */
  ghost predicate Grows(n: Node, n': Node) {
    && n'.self == n.self && n'.peers.Keys == n.peers.Keys && NextPositive(n')
    && n'.currentTerm >= n.currentTerm
    && forall t :: t in n.voteFor ==> t in n'.voteFor && n'.voteFor[t] == n.voteFor[t]
  }

  ghost predicate AllGrow(s: System, s': System) {
    forall j :: j in s.nodes ==> j in s'.nodes && Grows(s.nodes[j], s'.nodes[j])
  }

  /** The part of every step's proof that is about the other nodes and the old messages. */
  lemma StepFrame(s: System, s': System, i: Addr, n: Node, sent: set<Message>)
    requires Inv(s) && i in s.nodes
    requires Grows(s.nodes[i], n)
    requires s'.nodes == s.nodes[i := n] && s'.net == s.net + sent
    requires s'.voters.Keys == s.voters.Keys && forall j :: j in s.voters && j != i ==> s'.voters[j] == s.voters[j]
    requires NodeInv(s', i)
    requires forall m :: m in sent ==> MessageInv(s', m)
    ensures Inv(s') && AllGrow(s, s')
  {
    assert s'.nodes.Keys == s.nodes.Keys;
    assert |s'.nodes| == |s'.nodes.Keys|;
    forall g, t, c | Voted(s, g, t, c)
      ensures Voted(s', g, t, c)
    {
    }
    forall j | j in s'.nodes
      ensures NodeShape(s', j) && NodeInv(s', j)
    {
      assert NodeShape(s, j);
      if j != i {
        assert NodeInv(s, j);
      }
    }
    forall m | m in s'.net
      ensures MessageInv(s', m)
    {
      if m in s.net {
        assert MessageInv(s, m);
      }
    }
    forall j | j in s.nodes
      ensures j in s'.nodes && Grows(s.nodes[j], s'.nodes[j])
    {
      assert NodeShape(s, j);
    }
  }

  lemma TickKeeps(s: System, i: Addr)
    requires Inv(s) && Enabled(s, CheckLeaderTick(i))
    ensures Inv(Step(s, CheckLeaderTick(i))) && AllGrow(s, Step(s, CheckLeaderTick(i)))
  {
    var s' := Step(s, CheckLeaderTick(i));
    var n := CheckLeader(s.nodes[i]);
    assert NodeShape(s, i) && NodeInv(s, i);
    if s.nodes[i].role == Leader {
      QuietStep(s, s', i, n, {});
    } else {
      TickNode(s, s', i, n);
      VotersStep(s, s', i, n, {i});
    }
  }

  lemma TickNode(s: System, s': System, i: Addr, n: Node)
    requires i in s.nodes && s.voters.Keys == s.nodes.Keys
    requires VotesBelowTerm(s.nodes[i]) && s.nodes[i].self == i && i.IsSet()
    requires n == BecomeCandidate(s.nodes[i])
    requires s'.nodes == s.nodes[i := n] && s'.voters == s.voters[i := {i}]
    ensures NodeInv(s', i)
  {
    assert n.currentTerm !in n.voteFor;
  }

  /** A step that leaves the node's election state as it was. */
  lemma QuietStep(s: System, s': System, i: Addr, n: Node, sent: set<Message>)
    requires Inv(s) && i in s.nodes
    requires s'.nodes == s.nodes[i := n] && s'.net == s.net + sent && s'.voters == s.voters
    requires SameElection(s.nodes[i], n)
    requires Grows(s.nodes[i], n)
    requires forall m :: m in sent ==> MessageInv(s', m)
    ensures Inv(s') && AllGrow(s, s')
  {
    assert NodeShape(s, i) && NodeInv(s, i);
    assert s'.nodes.Keys == s.nodes.Keys;
    assert |s'.nodes| == |s'.nodes.Keys| == |s.nodes.Keys| == |s.nodes|;
    if n.role != Follower {
      forall v | v in s.voters[i] && v != i
        ensures Voted(s', v, n.currentTerm, i)
      {
        assert Voted(s, v, n.currentTerm, i);
      }
    }
    StepFrame(s, s', i, n, sent);
  }

  /** A step that leaves the node a follower of somebody else or of nobody. */
  lemma FollowerStep(s: System, s': System, i: Addr, n: Node, sent: set<Message>)
    requires Inv(s) && i in s.nodes
    requires s'.nodes == s.nodes[i := n] && s'.net == s.net + sent && s'.voters == s.voters
    requires Grows(s.nodes[i], n) && n.role == Follower && n.leader != i && VotesBelowTerm(n)
    requires forall m :: m in sent ==> MessageInv(s', m)
    ensures Inv(s') && AllGrow(s, s')
  {
    StepFrame(s, s', i, n, sent);
  }

  lemma AskVoteKeeps(s: System, i: Addr, j: Addr)
    requires Inv(s) && Enabled(s, AskVote(i, j))
    ensures Inv(Step(s, AskVote(i, j))) && AllGrow(s, Step(s, AskVote(i, j)))
  {
    assert NodeShape(s, i);
    QuietStep(s, Step(s, AskVote(i, j)), i, s.nodes[i], {VoteAsk(j, BuildVoteRequest(s.nodes[i]), s.nodes[i].log)});
  }

  lemma AnswerVoteNode(o: Node, ask: VoteRequest)
    requires NextPositive(o) && VotesBelowTerm(o)
    ensures var (n, vote) := ReplyRequestVote(o, ask);
      && Grows(o, n) && VotesBelowTerm(n)
      && (n == o || (n.role == Follower && n.leader == NOBODY))
      && (vote.granted ==> vote.term in n.voteFor && n.voteFor[vote.term] == ask.from)
  {
  }

  lemma AnswerVoteKeeps(s: System, m: Message)
    requires Inv(s) && Enabled(s, AnswerVote(m))
    ensures Inv(Step(s, AnswerVote(m))) && AllGrow(s, Step(s, AnswerVote(m)))
  {
    assert MessageInv(s, m) && NodeShape(s, m.to) && NodeInv(s, m.to);
    AnswerVoteNode(s.nodes[m.to], m.ask);
    var (n, vote) := ReplyRequestVote(s.nodes[m.to], m.ask);
    VotedStep(s, Step(s, AnswerVote(m)), m.to, n, VoteAnswer(m.ask.from, m.to, m.ask, vote, m.candidateLog, s.nodes[m.to].log));
  }

  lemma VotedStep(s: System, s': System, i: Addr, n: Node, answer: Message)
    requires Inv(s) && i in s.nodes && answer.VoteAnswer? && answer.to in s.nodes && answer.to != i && answer.from == i
    requires s' == Update(s, i, n, {answer})
    requires Grows(s.nodes[i], n) && VotesBelowTerm(n)
    requires n == s.nodes[i] || (n.role == Follower && n.leader == NOBODY)
    requires answer.vote.granted ==> answer.vote.term in n.voteFor && n.voteFor[answer.vote.term] == answer.to
    ensures Inv(s') && AllGrow(s, s')
  {
    assert NodeShape(s, i);
    assert MessageInv(s', answer);
    SettledStep(s, s', i, n, {answer});
  }

  /** A step that changes nothing about the election or leaves a follower. */
  lemma SettledStep(s: System, s': System, i: Addr, n: Node, sent: set<Message>)
    requires Inv(s) && i in s.nodes
    requires s'.nodes == s.nodes[i := n] && s'.net == s.net + sent && s'.voters == s.voters
    requires Grows(s.nodes[i], n) && VotesBelowTerm(n)
    requires SameElection(s.nodes[i], n) || (n.role == Follower && n.leader != i)
    requires forall m :: m in sent ==> MessageInv(s', m)
    ensures Inv(s') && AllGrow(s, s')
  {
    if SameElection(s.nodes[i], n) {
      QuietStep(s, s', i, n, sent);
    } else {
      FollowerStep(s, s', i, n, sent);
    }
  }

  ghost predicate SameElection(o: Node, n: Node) {
    n == o.(log := n.log, commitIndex := n.commitIndex, peers := n.peers)
  }

  lemma TakeVoteNode(o: Node, vote: VoteReply, memberCount: nat)
    requires NextPositive(o) && VotesBelowTerm(o) && o.self.IsSet()
    requires o.role == Candidate && vote.term <= o.currentTerm && !vote.granted ==> vote.term == o.currentTerm
    ensures var n := HandleVoteReply(o, vote, memberCount);
      && Grows(o, n) && VotesBelowTerm(n)
      && (n == o || (n.role == Follower && n.leader == NOBODY && n.voteQuorum == o.voteQuorum) || Counted(o, n, vote, memberCount))
  {
    var n := HandleVoteReply(o, vote, memberCount);
    assert n.peers.Keys == o.peers.Keys;
  }

  /** The candidate counted this grant, and leads if that made a majority. */
  ghost predicate Counted(o: Node, n: Node, vote: VoteReply, memberCount: nat) {
    && o.role == Candidate && vote.granted && vote.term == o.currentTerm == n.currentTerm
    && n.voteQuorum == o.voteQuorum + 1 && n.voteFor == o.voteFor && n.self == o.self
    && (n.role == Leader ==> n.voteQuorum > memberCount / 2)
    && ((n.role == Leader && n.leader == n.self) || (n.role == Candidate && n.leader == o.leader))
  }

  lemma VotersStep(s: System, s': System, i: Addr, n: Node, voters: set<Addr>)
    requires Inv(s) && i in s.nodes && Grows(s.nodes[i], n)
    requires s'.nodes == s.nodes[i := n] && s'.net == s.net && s'.voters == s.voters[i := voters]
    requires NodeInv(s', i)
    ensures Inv(s') && AllGrow(s, s')
  {
    assert i in s.voters;
    assert s'.voters.Keys == s.voters.Keys;
    assert s'.net == s.net + {};
    StepFrame(s, s', i, n, {});
  }

  lemma TakeVoteKeeps(s: System, m: Message)
    requires Inv(s) && Enabled(s, TakeVote(m)) && Premises(s, TakeVote(m))
    ensures Inv(Step(s, TakeVote(m))) && AllGrow(s, Step(s, TakeVote(m)))
  {
    var s' := Step(s, TakeVote(m));
    var o := s.nodes[m.to];
    assert MessageInv(s, m) && NodeShape(s, m.to) && NodeInv(s, m.to);
    TakeVoteNode(o, m.vote, |s.nodes|);
    var n := HandleVoteReply(o, m.vote, |s.nodes|);
    if Counted(o, n, m.vote, |s.nodes|) {
      CountedIsBacked(s, s', m.to, m.from, m.vote, n);
      VotersStep(s, s', m.to, n, s.voters[m.to] + {m.from});
    } else {
      SettledStep(s, s', m.to, n, {});
    }
  }

  /** Counting a grant from a new voter keeps the candidate backed. */
  lemma CountedIsBacked(s: System, s': System, i: Addr, from: Addr, vote: VoteReply, n: Node)
    requires i in s.nodes && s.voters.Keys == s.nodes.Keys && from in s.nodes && from != i
    requires Counted(s.nodes[i], n, vote, |s.nodes|)
    requires NodeInv(s, i) && s.nodes[i].self == i
    requires Voted(s, from, vote.term, i) && from !in s.voters[i]
    requires s'.nodes == s.nodes[i := n]
    requires s'.voters == s.voters[i := s.voters[i] + {from}]
    ensures NodeInv(s', i)
  {
    assert Backed(s, i);
    assert s'.nodes.Keys == s.nodes.Keys && |s'.nodes| == |s'.nodes.Keys| == |s.nodes.Keys| == |s.nodes|;
    forall v | v in s'.voters[i] && v != i
      ensures Voted(s', v, n.currentTerm, i)
    {
      assert v == from || Voted(s, v, n.currentTerm, i);
    }
  }

  lemma SendAppendKeeps(s: System, i: Addr, j: Addr, k: nat)
    requires Inv(s) && Enabled(s, SendAppend(i, j, k))
    ensures Inv(Step(s, SendAppend(i, j, k))) && AllGrow(s, Step(s, SendAppend(i, j, k)))
  {
    var n := s.nodes[i];
    assert NodeShape(s, i);
    QuietStep(s, Step(s, SendAppend(i, j, k)), i, n, {AppendAsk(j, BuildAppendRequest(n, j, k), n.log)});
  }

  lemma AnswerAppendNode(o: Node, append: AppendRequest, writeOk: bool)
    requires NextPositive(o) && VotesBelowTerm(o)
    requires append.prevLogIndex == 0 ==> append.prevLogTerm == 0
    ensures var n := ReplyAppendEntries(o, append, writeOk).0;
      && Grows(o, n) && VotesBelowTerm(n)
      && (SameElection(o, n) || (n.role == Follower && n.leader == append.from))
  {
  }

  lemma AnswerAppendKeeps(s: System, m: Message, writeOk: bool)
    requires Inv(s) && Enabled(s, AnswerAppend(m, writeOk))
    ensures Inv(Step(s, AnswerAppend(m, writeOk))) && AllGrow(s, Step(s, AnswerAppend(m, writeOk)))
  {
    assert MessageInv(s, m) && NodeShape(s, m.to) && NodeInv(s, m.to);
    AnswerAppendNode(s.nodes[m.to], m.append, writeOk);
    var s' := Step(s, AnswerAppend(m, writeOk));
    var (n, answer) := ReplyAppendEntries(s.nodes[m.to], m.append, writeOk);
    var reply := AppendAnswer(m.append.from, m.to, m.append, m.senderLog, answer, n.log, writeOk);
    assert s' == Update(s, m.to, n, {reply});
    AnsweredStep(s, s', m, n, reply);
  }

  lemma AnsweredStep(s: System, s': System, m: Message, n: Node, reply: Message)
    requires Inv(s) && m.AppendAsk? && m in s.net && m.to in s.nodes
    requires s' == Update(s, m.to, n, {reply})
    requires reply.AppendAnswer? && reply.to == m.append.from && reply.from == m.to
    requires Grows(s.nodes[m.to], n) && VotesBelowTerm(n)
    requires SameElection(s.nodes[m.to], n) || (n.role == Follower && n.leader == m.append.from)
    ensures Inv(s') && AllGrow(s, s')
  {
    assert MessageInv(s, m);
    assert m.append.from in s.nodes && m.append.from != m.to;
    assert MessageInv(s', reply);
    SettledStep(s, s', m.to, n, {reply});
  }

  lemma TakeAppendNode(o: Node, peer: Addr, append: AppendRequest, answer: AppendReply)
    requires NodeValid(o) && VotesBelowTerm(o) && peer in o.peers
    ensures var n := HandleAppendReply(o, peer, append, answer);
      && Grows(o, n) && VotesBelowTerm(n)
      && (SameElection(o, n) || (n.role == Follower && n.leader == NOBODY))
  {
    var n := HandleAppendReply(o, peer, append, answer);
    assert n.peers.Keys == o.peers.Keys;
  }

  lemma TakeAppendKeeps(s: System, m: Message)
    requires Inv(s) && Enabled(s, TakeAppend(m))
    ensures Inv(Step(s, TakeAppend(m))) && AllGrow(s, Step(s, TakeAppend(m)))
  {
    assert MessageInv(s, m) && NodeShape(s, m.to) && NodeInv(s, m.to);
    TakeAppendNode(s.nodes[m.to], m.from, m.append, m.answer);
    var n := HandleAppendReply(s.nodes[m.to], m.from, m.append, m.answer);
    SettledStep(s, Step(s, TakeAppend(m)), m.to, n, {});
  }

  lemma ClientCommandKeeps(s: System, i: Addr, cmd: Command)
    requires Inv(s) && Enabled(s, ClientCommand(i, cmd))
    ensures Inv(Step(s, ClientCommand(i, cmd))) && AllGrow(s, Step(s, ClientCommand(i, cmd)))
  {
    assert NodeShape(s, i);
    QuietStep(s, Step(s, ClientCommand(i, cmd)), i, AppendCommand(s.nodes[i], cmd), {});
  }

  lemma StepKeeps(s: System, a: Action)
    requires Inv(s) && Enabled(s, a) && Premises(s, a)
    ensures Inv(Step(s, a)) && AllGrow(s, Step(s, a))
  {
    match a
    case CheckLeaderTick(i) => TickKeeps(s, i);
    case AskVote(i, j) => AskVoteKeeps(s, i, j);
    case AnswerVote(m) => AnswerVoteKeeps(s, m);
    case TakeVote(m) => TakeVoteKeeps(s, m);
    case SendAppend(i, j, k) => SendAppendKeeps(s, i, j, k);
    case AnswerAppend(m, writeOk) => AnswerAppendKeeps(s, m, writeOk);
    case TakeAppend(m) => TakeAppendKeeps(s, m);
    case ClientCommand(i, cmd) => ClientCommandKeeps(s, i, cmd);
  }

  lemma {:induction false} RunKeeps(s: System, actions: seq<Action>)
    requires Inv(s) && Allowed(s, actions)
    ensures Inv(Run(s, actions))
    decreases |actions|
  {
    if actions != [] {
      StepKeeps(s, actions[0]);
      RunKeeps(Step(s, actions[0]), actions[1..]);
    }
  }

  /** Two sets that each hold more than half of the members meet. */
  lemma MajoritiesMeet(a: set<Addr>, b: set<Addr>, members: set<Addr>)
    requires a <= members && b <= members
    requires |a| > |members| / 2 && |b| > |members| / 2
    ensures exists v :: v in a && v in b
  {
    if a !! b {
      assert |a + b| == |a| + |b|;
      SubsetSize(a + b, members);
      assert false;
    }
  }

  lemma {:induction false} SubsetSize(a: set<Addr>, b: set<Addr>)
    requires a <= b
    ensures |a| <= |b|
    decreases a
  {
    if a != {} {
      var x :| x in a;
      SubsetSize(a - {x}, b - {x});
    }
  }

  /** Nobody is behind two leaders of the same term. */
  lemma NoCommonVoter(s: System, a: Addr, b: Addr, v: Addr)
    requires Inv(s) && a in s.nodes && b in s.nodes && a != b
    requires s.nodes[a].role == Leader && s.nodes[b].role == Leader
    requires s.nodes[a].currentTerm == s.nodes[b].currentTerm
    ensures v !in s.voters[a] || v !in s.voters[b]
  {
    assert NodeInv(s, a) && NodeInv(s, b);
    var t := s.nodes[a].currentTerm;
    assert v in s.voters[a] && v != a ==> Voted(s, v, t, a);
    assert v in s.voters[b] && v != b ==> Voted(s, v, t, b);
  }

  lemma OneLeader(s: System, a: Addr, b: Addr)
    requires Inv(s) && a in s.nodes && b in s.nodes
    requires s.nodes[a].role == Leader && s.nodes[b].role == Leader
    requires s.nodes[a].currentTerm == s.nodes[b].currentTerm
    ensures a == b
  {
    assert NodeInv(s, a) && NodeInv(s, b);
    assert |s.nodes| == |s.nodes.Keys|;
    MajoritiesMeet(s.voters[a], s.voters[b], s.nodes.Keys);
    var v :| v in s.voters[a] && v in s.voters[b];
    if a != b {
      NoCommonVoter(s, a, b, v);
    }
  }

  /** Election safety: in every reachable state no two nodes lead in the same term. */
  lemma SafeElections(s: System, actions: seq<Action>, a: Addr, b: Addr)
    requires Init(s) && Allowed(s, actions)
    requires var e := Run(s, actions);
      && a in e.nodes && b in e.nodes
      && e.nodes[a].role == Leader && e.nodes[b].role == Leader
      && e.nodes[a].currentTerm == e.nodes[b].currentTerm
    ensures a == b
  {
    InitInv(s);
    RunKeeps(s, actions);
    OneLeader(Run(s, actions), a, b);
  }

  /** IsLeader() answers for the role: in every reachable state a node reports itself as the
      leader exactly when its role is Leader. */
  lemma LeaderFlagIsRole(s: System, actions: seq<Action>, i: Addr)
    requires Init(s) && Allowed(s, actions) && i in Run(s, actions).nodes
    ensures var n := Run(s, actions).nodes[i];
      IsLeader(n) <==> n.role == Leader
  {
    InitInv(s);
    RunKeeps(s, actions);
    var e := Run(s, actions);
    assert NodeShape(e, i) && NodeInv(e, i);
  }

  /** One vote per term: over a whole run, two grants by the same node in the same term are to
      the same candidate. */
  lemma OneVotePerTerm(s: System, actions: seq<Action>, m1: Message, m2: Message)
    requires Init(s) && Allowed(s, actions)
    requires m1 in Run(s, actions).net && m1.VoteAnswer? && m1.vote.granted
    requires m2 in Run(s, actions).net && m2.VoteAnswer? && m2.vote.granted
    requires m1.from == m2.from && m1.vote.term == m2.vote.term
    ensures m1.to == m2.to
  {
    InitInv(s);
    RunKeeps(s, actions);
    var e := Run(s, actions);
    assert MessageInv(e, m1) && MessageInv(e, m2);
  }

  /** A vote reply lowers a node's term exactly when a candidate handles a denial of an older
      term, which is the denial that the premises on runs rule out. */
  lemma TermFallsExactly(n: Node, vote: VoteReply, memberCount: nat)
    ensures HandleVoteReply(n, vote, memberCount).currentTerm < n.currentTerm
      <==> n.role == Candidate && !vote.granted && vote.term < n.currentTerm
  {
  }

  ghost function CountTimes(n: Node, vote: VoteReply, memberCount: nat, times: nat): Node
    decreases times
  {
    if times == 0 then n else CountTimes(HandleVoteReply(n, vote, memberCount), vote, memberCount, times - 1)
  }

  /** Why a candidacy must count one grant per peer: the code does not look at who granted, so the
      grant of one peer, handled again and again, makes a leader exactly when the repeats lift the
      count above half of the members. */
  lemma {:induction false} RepeatedGrantElects(n: Node, vote: VoteReply, memberCount: nat, times: nat)
    requires n.role == Candidate && vote.granted && vote.term == n.currentTerm && n.voteQuorum <= memberCount / 2
    ensures CountTimes(n, vote, memberCount, times).role == Leader <==> n.voteQuorum + times > memberCount / 2
    decreases times
  {
    if times > 0 {
      var n1 := HandleVoteReply(n, vote, memberCount);
      if n1.role == Leader {
        LeaderStays(n1, vote, memberCount, times - 1);
      } else {
        RepeatedGrantElects(n1, vote, memberCount, times - 1);
      }
    }
  }

  lemma {:induction false} LeaderStays(n: Node, vote: VoteReply, memberCount: nat, times: nat)
    requires n.role == Leader && vote.term <= n.currentTerm
    ensures CountTimes(n, vote, memberCount, times) == n
    decreases times
  {
    if times > 0 { LeaderStays(n, vote, memberCount, times - 1); }
  }

  /** Over a run a node's term never falls and a recorded vote is never changed. */
  lemma {:induction false} RunGrows(s: System, actions: seq<Action>, i: Addr)
    requires Inv(s) && Allowed(s, actions) && i in s.nodes
    ensures i in Run(s, actions).nodes && Grows(s.nodes[i], Run(s, actions).nodes[i])
    decreases |actions|
  {
    if actions == [] {
      assert NodeShape(s, i);
    } else {
      StepKeeps(s, actions[0]);
      RunGrows(Step(s, actions[0]), actions[1..], i);
    }
  }
}
