/** Elections are not only safe: from any start, a node that no other is ahead of can be elected.
    So the safety theorems speak of runs that do have leaders.
 */
module Electable {
  import opened RaftTypes
  import opened Handlers
  import opened Protocol
  import ElectionSafety

  /** Node j would vote for i: its term is not ahead of the candidacy, it has not voted in it, and
      its log is not ahead of the candidate's. */
  ghost predicate Willing(s: System, i: Addr, term: nat, j: Addr) {
    && i in s.nodes && j in s.nodes
    && s.nodes[j].currentTerm <= term && term !in s.nodes[j].voteFor
    && !Behind(LastTerm(s.nodes[i].log), |s.nodes[i].log|, s.nodes[j].log)
  }

  /** A candidate short of a majority, with everybody who has not voted for it yet willing to. */
  ghost predicate Campaign(s: System, i: Addr) {
    && i in s.nodes && i in s.voters && s.nodes[i].role == Candidate
    && i in s.voters[i] && s.voters[i] <= s.nodes.Keys && 2 * |s.voters[i]| <= |s.nodes|
    && forall j :: j in s.nodes && j !in s.voters[i] ==> Willing(s, i, s.nodes[i].currentTerm, j)
  }

  /** The three steps of one vote. */
  ghost function VoteActions(s: System, i: Addr, j: Addr): seq<Action>
    requires i in s.nodes && j in s.nodes
  {
    var ask, log := BuildVoteRequest(s.nodes[i]), s.nodes[i].log;
    [AskVote(i, j), AnswerVote(VoteAsk(j, ask, log)),
     TakeVote(VoteAnswer(i, j, ask, ReplyRequestVote(s.nodes[j], ask).1, log, s.nodes[j].log))]
  }

  /** The message that brings j's grant to i. */
  ghost function GrantOf(s: System, i: Addr, j: Addr): Message
    requires i in s.nodes && j in s.nodes
  {
    VoteAnswer(i, j, BuildVoteRequest(s.nodes[i]), VoteReply(s.nodes[i].currentTerm, true), s.nodes[i].log, s.nodes[j].log)
  }

  ghost predicate CanStep(s: System, a: Action, s': System) {
    Enabled(s, a) && Premises(s, a) && s' == Step(s, a)
  }

  /** The request reaches the voter. */
  lemma Asked(s: System, i: Addr, j: Addr) returns (s': System)
    requires ElectionSafety.Inv(s) && i in s.nodes && j in s.nodes && i != j
    ensures CanStep(s, AskVote(i, j), s') && ElectionSafety.Inv(s')
    ensures s'.nodes == s.nodes && s'.voters == s.voters && s.net <= s'.net
    ensures VoteAsk(j, BuildVoteRequest(s.nodes[i]), s.nodes[i].log) in s'.net
  {
    s' := Step(s, AskVote(i, j));
    AskShape(s, i, j);
    ElectionSafety.AskVoteKeeps(s, i, j);
  }

  lemma AskShape(s: System, i: Addr, j: Addr)
    requires i in s.nodes && j in s.nodes && i != j
    ensures CanStep(s, AskVote(i, j), Step(s, AskVote(i, j)))
    ensures var s' := Step(s, AskVote(i, j));
      && s'.nodes == s.nodes && s'.voters == s.voters && s'.net == s.net + {VoteAsk(j, BuildVoteRequest(s.nodes[i]), s.nodes[i].log)}
  {
    assert s.nodes[i := s.nodes[i]] == s.nodes;
  }

  /** A willing voter grants. */
  lemma Granted(s: System, i: Addr, j: Addr) returns (s': System)
    requires ElectionSafety.Inv(s) && i in s.nodes && i != j && Willing(s, i, s.nodes[i].currentTerm, j)
    requires VoteAsk(j, BuildVoteRequest(s.nodes[i]), s.nodes[i].log) in s.net
    ensures CanStep(s, AnswerVote(VoteAsk(j, BuildVoteRequest(s.nodes[i]), s.nodes[i].log)), s')
    ensures ElectionSafety.Inv(s') && s'.voters == s.voters && s.net <= s'.net
    ensures s'.nodes == s.nodes[j := ReplyRequestVote(s.nodes[j], BuildVoteRequest(s.nodes[i])).0]
    ensures ReplyRequestVote(s.nodes[j], BuildVoteRequest(s.nodes[i])).1 == VoteReply(s.nodes[i].currentTerm, true)
    ensures GrantOf(s, i, j) in s'.net
  {
    var ask := BuildVoteRequest(s.nodes[i]);
    var a := AnswerVote(VoteAsk(j, ask, s.nodes[i].log));
    s' := Step(s, a);
    ElectionSafety.AnswerVoteKeeps(s, a.m);
    assert ElectionSafety.NodeShape(s, i);
    GrantExactly(s.nodes[j], ask);
  }

  /** The candidate has become the leader of its term. */
  ghost predicate Crowned(o: Node, n: Node) {
    n == BecomeLeader(o.(voteQuorum := o.voteQuorum + 1))
  }

  lemma CountGrant(o: Node, memberCount: nat)
    requires o.role == Candidate
    ensures var n := HandleVoteReply(o, VoteReply(o.currentTerm, true), memberCount);
      && n.log == o.log && n.currentTerm == o.currentTerm && n.voteQuorum == o.voteQuorum + 1
      && (Crowned(o, n) || (n.role == Candidate && 2 * n.voteQuorum <= memberCount))
  {
  }

  /** What the candidate's counting of a new voter comes to. */
  ghost predicate CountedFor(s: System, s': System, i: Addr, j: Addr)
    requires i in s.nodes && i in s.voters
  {
    && s'.nodes.Keys == s.nodes.Keys && (forall q :: q in s.nodes && q != i ==> s'.nodes[q] == s.nodes[q])
    && s'.nodes[i].log == s.nodes[i].log && s'.nodes[i].currentTerm == s.nodes[i].currentTerm
    && s'.voters == s.voters[i := s.voters[i] + {j}] && s.net <= s'.net
    && (Crowned(s.nodes[i], s'.nodes[i]) || (s'.nodes[i].role == Candidate && 2 * s'.nodes[i].voteQuorum <= |s.nodes|))
  }

  lemma CountStep(s: System, i: Addr, m: Message)
    requires i in s.nodes && i in s.voters && s.nodes[i].role == Candidate
    requires m in s.net && m.VoteAnswer? && m.to == i
    requires m.vote == VoteReply(s.nodes[i].currentTerm, true)
    ensures Enabled(s, TakeVote(m)) && CountedFor(s, Step(s, TakeVote(m)), i, m.from)
  {
    CountGrant(s.nodes[i], |s.nodes|);
  }

  /** The candidate counts the grant of a new voter. */
  lemma Taken(s: System, i: Addr, m: Message) returns (s': System)
    requires ElectionSafety.Inv(s) && i in s.nodes && i in s.voters && s.nodes[i].role == Candidate
    requires m in s.net && m.VoteAnswer? && m.to == i && m.from !in s.voters[i]
    requires m.vote == VoteReply(s.nodes[i].currentTerm, true)
    ensures CanStep(s, TakeVote(m), s') && ElectionSafety.Inv(s') && CountedFor(s, s', i, m.from)
  {
    CountStep(s, i, m);
    s' := Step(s, TakeVote(m));
    assert Premises(s, TakeVote(m));
    ElectionSafety.TakeVoteKeeps(s, m);
  }

  lemma AskedAndGranted(s: System, i: Addr, j: Addr) returns (s1: System, s2: System)
    requires ElectionSafety.Inv(s) && i in s.nodes && i != j && Willing(s, i, s.nodes[i].currentTerm, j)
    ensures |VoteActions(s, i, j)| == 3
    ensures CanStep(s, VoteActions(s, i, j)[0], s1) && CanStep(s1, VoteActions(s, i, j)[1], s2)
    ensures ElectionSafety.Inv(s2) && s2.nodes.Keys == s.nodes.Keys && s2.voters == s.voters && s.net <= s2.net
    ensures forall q :: q in s.nodes && q != j ==> s2.nodes[q] == s.nodes[q]
    ensures GrantOf(s, i, j) in s2.net && VoteActions(s, i, j)[2] == TakeVote(GrantOf(s, i, j))
  {
    s1 := Asked(s, i, j);
    SameWilling(s, s1, i, s.nodes[i].currentTerm, j);
    s2 := Granted(s1, i, j);
  }

  lemma SameWilling(s: System, s': System, i: Addr, term: nat, j: Addr)
    requires Willing(s, i, term, j) && s'.nodes == s.nodes
    ensures Willing(s', i, term, j)
  {
  }

  /** The vote happens: asked, granted and counted. */
  lemma VoteHappens(s: System, i: Addr, j: Addr) returns (s2: System, s': System)
    requires ElectionSafety.Inv(s) && i in s.nodes && i in s.voters && s.nodes[i].role == Candidate
    requires i != j && j !in s.voters[i] && Willing(s, i, s.nodes[i].currentTerm, j)
    ensures Allowed(s, VoteActions(s, i, j)) && s' == Run(s, VoteActions(s, i, j)) && ElectionSafety.Inv(s')
    ensures s2.nodes.Keys == s.nodes.Keys && s2.voters == s.voters
    ensures forall q :: q in s.nodes && q != j ==> s2.nodes[q] == s.nodes[q]
    ensures CountedFor(s2, s', i, j) && s.net <= s2.net && GrantOf(s, i, j) in s'.net
  {
    var s1;
    s1, s2 := AskedAndGranted(s, i, j);
    s' := Taken(s2, i, GrantOf(s, i, j));
    ThreeSteps(s, s1, s2, s', VoteActions(s, i, j));
  }

  lemma SameSize(a: map<Addr, Node>, b: map<Addr, Node>)
    requires a.Keys == b.Keys
    ensures |a| == |b|
  {
    assert |a| == |a.Keys| && |b| == |b.Keys|;
  }

  /** A candidate's count is the number of its voters. */
  lemma CountIsVoters(s: System, i: Addr)
    requires ElectionSafety.Inv(s) && i in s.nodes && s.nodes[i].role == Candidate
    ensures i in s.voters && |s.voters[i]| == s.nodes[i].voteQuorum
  {
    assert ElectionSafety.NodeInv(s, i) && ElectionSafety.Backed(s, i);
  }

  /** After the count the candidate leads, or the campaign goes on with one voter more. */
  lemma CampaignGoesOn(s: System, s2: System, s': System, i: Addr, j: Addr)
    requires Campaign(s, i) && j in s.nodes && j !in s.voters[i]
    requires s2.nodes.Keys == s.nodes.Keys && s2.voters == s.voters
    requires forall q :: q in s.nodes && q != j ==> s2.nodes[q] == s.nodes[q]
    requires CountedFor(s2, s', i, j)
    requires s'.nodes[i].role == Candidate ==> |s'.voters[i]| == s'.nodes[i].voteQuorum
    ensures s'.nodes.Keys == s.nodes.Keys && s'.voters[i] == s.voters[i] + {j}
    ensures s'.nodes[i].role == Leader || Campaign(s', i)
  {
    SameSize(s.nodes, s2.nodes);
    SameSize(s.nodes, s'.nodes);
    forall q | q in s'.nodes && q !in s'.voters[i]
      ensures Willing(s', i, s'.nodes[i].currentTerm, q)
    {
      assert q != j && Willing(s, i, s.nodes[i].currentTerm, q);
    }
  }

  lemma CountKept(s: System, i: Addr)
    requires ElectionSafety.Inv(s) && i in s.nodes && i in s.voters
    ensures s.nodes[i].role == Candidate ==> |s.voters[i]| == s.nodes[i].voteQuorum
  {
    if s.nodes[i].role == Candidate { CountIsVoters(s, i); }
  }

  /** One more vote: the candidate wins, or campaigns on with one voter more. */
  lemma OneMoreVote(s: System, i: Addr, j: Addr) returns (s': System)
    requires ElectionSafety.Inv(s) && Campaign(s, i) && j in s.nodes && j !in s.voters[i]
    ensures Allowed(s, VoteActions(s, i, j)) && s' == Run(s, VoteActions(s, i, j)) && ElectionSafety.Inv(s')
    ensures i in s'.nodes && s'.nodes.Keys == s.nodes.Keys
    ensures s'.nodes[i].role == Leader || (Campaign(s', i) && s'.voters[i] == s.voters[i] + {j})
  {
    assert Willing(s, i, s.nodes[i].currentTerm, j);
    var s2;
    s2, s' := VoteHappens(s, i, j);
    CountKept(s', i);
    CampaignGoesOn(s, s2, s', i, j);
  }

  lemma ThreeSteps(s: System, s1: System, s2: System, s3: System, a: seq<Action>)
    requires |a| == 3 && CanStep(s, a[0], s1) && CanStep(s1, a[1], s2) && CanStep(s2, a[2], s3)
    ensures Allowed(s, a) && Run(s, a) == s3
  {
    assert a[1..][1..][1..] == [];
    assert Allowed(s3, []) && Run(s3, []) == s3;
    assert Allowed(s2, a[1..][1..]) && Run(s2, a[1..][1..]) == s3;
    assert Allowed(s1, a[1..]) && Run(s1, a[1..]) == s3;
  }

  lemma TwoSteps(s: System, s1: System, s2: System, a: Action, b: Action)
    requires CanStep(s, a, s1) && CanStep(s1, b, s2)
    ensures Allowed(s, [a, b]) && Run(s, [a, b]) == s2
  {
    assert [a, b][1..] == [b] && [b][1..] == [];
    assert Allowed(s2, []) && Run(s2, []) == s2;
    assert Allowed(s1, [b]) && Run(s1, [b]) == s2;
  }

  lemma StepThenRun(s: System, a: Action, s': System, more: seq<Action>)
    requires CanStep(s, a, s') && Allowed(s', more)
    ensures Allowed(s, [a] + more) && Run(s, [a] + more) == Run(s', more)
  {
    assert ([a] + more)[1..] == more;
  }

  lemma {:induction false} RunsCompose(s: System, a: seq<Action>, b: seq<Action>)
    requires Allowed(s, a) && Allowed(Run(s, a), b)
    ensures Allowed(s, a + b) && Run(s, a + b) == Run(Run(s, a), b)
    decreases |a|
  {
    if a == [] {
      assert a + b == b;
    } else {
      assert (a + b)[1..] == a[1..] + b;
      RunsCompose(Step(s, a[0]), a[1..], b);
    }
  }

  lemma SomebodyLeft(s: System, i: Addr) returns (j: Addr)
    requires Campaign(s, i)
    ensures j in s.nodes && j !in s.voters[i]
  {
    assert |s.nodes| == |s.nodes.Keys| == |s.voters[i]| + |s.nodes.Keys - s.voters[i]|;
    assert |s.voters[i]| >= 1 by { assert i in s.voters[i]; }
    j :| j in s.nodes.Keys - s.voters[i];
  }

  /** So every campaign can be won. */
  lemma {:induction false} CampaignWins(s: System, i: Addr) returns (actions: seq<Action>)
    requires ElectionSafety.Inv(s) && Campaign(s, i)
    ensures Allowed(s, actions) && i in Run(s, actions).nodes && Run(s, actions).nodes[i].role == Leader
    decreases |s.nodes.Keys - s.voters[i]|
  {
    var j := SomebodyLeft(s, i);
    var s' := OneMoreVote(s, i, j);
    actions := VoteActions(s, i, j);
    if s'.nodes[i].role != Leader {
      FewerLeft(s.nodes.Keys, s.voters[i], j);
      var more := CampaignWins(s', i);
      RunsCompose(s, actions, more);
      actions := actions + more;
    }
  }

  lemma FewerLeft(members: set<Addr>, voters: set<Addr>, j: Addr)
    requires j in members && j !in voters
    ensures |members - (voters + {j})| < |members - voters|
  {
    assert members - (voters + {j}) == members - voters - {j};
  }

  /** Whom every other node could vote for. */
  ghost predicate Ahead(s: System, i: Addr)
    requires i in s.nodes
  {
    forall j :: j in s.nodes ==>
      && s.nodes[j].currentTerm <= s.nodes[i].currentTerm + 1
      && !Behind(LastTerm(s.nodes[i].log), |s.nodes[i].log|, s.nodes[j].log)
  }

  lemma StartsCampaign(s: System, i: Addr) returns (s': System)
    requires Init(s) && i in s.nodes && Ahead(s, i)
    ensures CanStep(s, CheckLeaderTick(i), s')
    ensures ElectionSafety.Inv(s') && Campaign(s', i)
  {
    ElectionSafety.InitInv(s);
    s' := Step(s, CheckLeaderTick(i));
    ElectionSafety.StepKeeps(s, CheckLeaderTick(i));
    assert InitNode(s, i);
    FirstCampaign(s, s', i);
  }

  lemma FirstCampaign(s: System, s': System, i: Addr)
    requires i in s.nodes && i in s.voters && Ahead(s, i) && |s.nodes| >= 2
    requires s'.nodes == s.nodes[i := BecomeCandidate(s.nodes[i])] && s'.voters == s.voters[i := {i}]
    requires forall j :: j in s.nodes ==> InitNode(s, j)
    ensures Campaign(s', i)
  {
    SameSize(s.nodes, s'.nodes);
    forall j | j in s'.nodes && j !in s'.voters[i]
      ensures Willing(s', i, s'.nodes[i].currentTerm, j)
    {
      assert InitNode(s, j);
    }
  }

  /** From any start, a node that is at most one term behind every other, and whose log is behind
      no other's, is the leader after some run that meets the premises. */
  lemma CanBeElected(s: System, i: Addr) returns (actions: seq<Action>)
    requires Init(s) && i in s.nodes && Ahead(s, i)
    ensures Allowed(s, actions) && i in Run(s, actions).nodes && Run(s, actions).nodes[i].role == Leader
  {
    var s' := StartsCampaign(s, i);
    var more := CampaignWins(s', i);
    actions := [CheckLeaderTick(i)] + more;
    StepThenRun(s, CheckLeaderTick(i), s', more);
  }
}
