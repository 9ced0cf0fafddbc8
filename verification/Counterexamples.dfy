/** Runs that show the premises of the safety theorems to be needed. Each starts from any cluster of
    the stated size whose nodes have equal terms and logs.
 */
module Counterexamples {
  import opened RaftTypes
  import opened Handlers
  import opened Protocol
  import opened Electable
  import ElectionSafety
  import LeaderHistory
  import TermOwners

  /** A start at which no node is ahead of another. */
  ghost predicate EvenStart(s: System) {
    Init(s) && Even(s)
  }

  ghost predicate Even(s: System) {
    forall i, j :: i in s.nodes && j in s.nodes ==>
      s.nodes[i].currentTerm == s.nodes[j].currentTerm && s.nodes[i].log == s.nodes[j].log
  }

  /** A candidate with no vote but its own. */
  ghost predicate FreshCandidate(s: System, i: Addr) {
    i in s.nodes && i in s.voters && s.nodes[i].role == Candidate && s.voters[i] == {i}
  }

  /** Two candidates of one term, each with its own vote only, and nobody else has voted in it. */
  ghost predicate Rivals(s: System, a: Addr, b: Addr) {
    && a != b && FreshCandidate(s, a) && FreshCandidate(s, b)
    && s.nodes[a].currentTerm == s.nodes[b].currentTerm
    && forall j :: j in s.nodes ==> Unspent(s.nodes[j], s.nodes[a].currentTerm, s.nodes[a].log)
  }

  /** A node with this log whose vote of this term is still to be had. */
  ghost predicate Unspent(n: Node, term: nat, log: seq<Entry>) {
    n.currentTerm <= term && term !in n.voteFor && n.log == log
  }

  lemma UnspentIsWilling(s: System, i: Addr, j: Addr)
    requires i in s.nodes && j in s.nodes && Unspent(s.nodes[j], s.nodes[i].currentTerm, s.nodes[i].log)
    ensures Willing(s, i, s.nodes[i].currentTerm, j)
  {
  }

  lemma Ticked(s: System, i: Addr) returns (s': System)
    requires ElectionSafety.Inv(s) && i in s.nodes && s.nodes[i].role == Follower
    ensures CanStep(s, CheckLeaderTick(i), s') && ElectionSafety.Inv(s')
    ensures s'.nodes == s.nodes[i := BecomeCandidate(s.nodes[i])] && s'.voters == s.voters[i := {i}]
  {
    s' := Step(s, CheckLeaderTick(i));
    ElectionSafety.TickKeeps(s, i);
  }

  lemma BothTicked(s: System, a: Addr, b: Addr) returns (s1: System, s': System)
    requires ElectionSafety.Inv(s) && a in s.nodes && b in s.nodes && a != b
    requires s.nodes[a].role == Follower && s.nodes[b].role == Follower
    ensures CanStep(s, CheckLeaderTick(a), s1) && CanStep(s1, CheckLeaderTick(b), s') && ElectionSafety.Inv(s')
    ensures s'.nodes == s.nodes[a := BecomeCandidate(s.nodes[a])][b := BecomeCandidate(s.nodes[b])]
    ensures s'.voters == s.voters[a := {a}][b := {b}]
  {
    s1 := Ticked(s, a);
    s' := Ticked(s1, b);
  }

  lemma TwoTicks(s: System, a: Addr, b: Addr) returns (s': System)
    requires EvenStart(s) && a in s.nodes && b in s.nodes && a != b
    ensures Allowed(s, [CheckLeaderTick(a), CheckLeaderTick(b)]) && s' == Run(s, [CheckLeaderTick(a), CheckLeaderTick(b)])
    ensures ElectionSafety.Inv(s') && Rivals(s', a, b) && s'.nodes.Keys == s.nodes.Keys
  {
    ElectionSafety.InitInv(s);
    assert InitNode(s, a) && InitNode(s, b);
    var s1;
    s1, s' := BothTicked(s, a, b);
    TwoSteps(s, s1, s', CheckLeaderTick(a), CheckLeaderTick(b));
    NowRivals(s, s', a, b);
  }

  lemma NowRivals(s: System, s': System, a: Addr, b: Addr)
    requires Even(s) && (forall i :: i in s.nodes ==> InitNode(s, i)) && a in s.nodes && b in s.nodes && a != b
    requires s'.nodes == s.nodes[a := BecomeCandidate(s.nodes[a])][b := BecomeCandidate(s.nodes[b])]
    requires s'.voters == s.voters[a := {a}][b := {b}]
    ensures Rivals(s', a, b)
  {
    assert InitNode(s, a) && InitNode(s, b);
    forall j | j in s'.nodes
      ensures Unspent(s'.nodes[j], s'.nodes[a].currentTerm, s'.nodes[a].log)
    {
      assert InitNode(s, j) && s.nodes[j].currentTerm == s.nodes[a].currentTerm && s.nodes[j].log == s.nodes[a].log;
    }
  }

  // ---------------------------------------------------------------- two leaders of one term, one after the other

  /** In a cluster of three the second vote decides. */
  lemma SecondVoteWins(s: System, i: Addr, j: Addr) returns (s': System)
    requires ElectionSafety.Inv(s) && |s.nodes.Keys| == 3 && FreshCandidate(s, i)
    requires i != j && Willing(s, i, s.nodes[i].currentTerm, j)
    ensures Allowed(s, VoteActions(s, i, j)) && s' == Run(s, VoteActions(s, i, j)) && ElectionSafety.Inv(s')
    ensures s'.nodes.Keys == s.nodes.Keys && Crowned(s.nodes[i], s'.nodes[i]) && s.net <= s'.net
    ensures s'.voters == s.voters[i := {i, j}]
    ensures forall q :: q in s.nodes && q != i && q != j ==> s'.nodes[q] == s.nodes[q]
  {
    var s2;
    s2, s' := VoteHappens(s, i, j);
    CountKept(s', i);
    SecondVoteDecides(s2, s', i, j);
  }

  lemma SecondVoteDecides(s: System, s': System, i: Addr, j: Addr)
    requires i in s.nodes && i in s.voters && i != j && |s.nodes.Keys| == 3 && s.voters[i] == {i}
    requires CountedFor(s, s', i, j) && (s'.nodes[i].role == Candidate ==> |s'.voters[i]| == s'.nodes[i].voteQuorum)
    ensures Crowned(s.nodes[i], s'.nodes[i]) && s'.voters == s.voters[i := {i, j}]
  {
    assert s'.voters[i] == {i, j} && |{i, j}| == 2;
    assert |s.nodes| == |s.nodes.Keys|;
  }

  /** A leader votes for its rival of the same term, whose log is no shorter. */
  lemma LeaderIsWilling(s: System, i: Addr, j: Addr)
    requires ElectionSafety.Inv(s) && i in s.nodes && j in s.nodes && s.nodes[j].role == Leader
    requires s.nodes[i].currentTerm == s.nodes[j].currentTerm && s.nodes[i].log == s.nodes[j].log
    ensures Willing(s, i, s.nodes[i].currentTerm, j)
  {
    LeaderHistory.LeaderUnvoted(s, j);
  }

  /** The first rival wins, and the second is left where it was. */
  lemma FirstRivalWins(s: System, a: Addr, b: Addr, c: Addr) returns (s': System)
    requires ElectionSafety.Inv(s) && Rivals(s, a, b) && |s.nodes.Keys| == 3 && c in s.nodes && c != a && c != b
    ensures Allowed(s, VoteActions(s, a, c)) && s' == Run(s, VoteActions(s, a, c)) && ElectionSafety.Inv(s')
    ensures s'.nodes.Keys == s.nodes.Keys && Crowned(s.nodes[a], s'.nodes[a]) && s'.nodes[b] == s.nodes[b]
    ensures FreshCandidate(s', b)
  {
    UnspentIsWilling(s, a, c);
    s' := SecondVoteWins(s, a, c);
  }

  /** And then the second wins too, by the vote of the first. */
  lemma SecondRivalWins(s: System, a: Addr, b: Addr) returns (s': System)
    requires ElectionSafety.Inv(s) && |s.nodes.Keys| == 3 && a in s.nodes && b in s.nodes && a != b
    requires s.nodes[a].role == Leader && FreshCandidate(s, b)
    requires s.nodes[a].currentTerm == s.nodes[b].currentTerm && s.nodes[a].log == s.nodes[b].log
    ensures Allowed(s, VoteActions(s, b, a)) && s' == Run(s, VoteActions(s, b, a)) && ElectionSafety.Inv(s')
    ensures s'.nodes.Keys == s.nodes.Keys && Crowned(s.nodes[b], s'.nodes[b]) && s.net <= s'.net
  {
    LeaderIsWilling(s, b, a);
    s' := SecondVoteWins(s, b, a);
  }

  lemma CrownedLeads(o: Node, n: Node)
    requires Crowned(o, n)
    ensures n.role == Leader && n.currentTerm == o.currentTerm && n.log == o.log && n.leader == n.self == o.self
    ensures n.peers == FreshPeers(o.peers, |o.log|)
  {
  }

  lemma ThreeMembers(a: Addr, b: Addr, c: Addr)
    requires a != b && a != c && b != c
    ensures |{a, b, c}| == 3
  {
  }

  /** In a cluster of three, a leads and then b leads the same term, by a's vote; over a run that
      meets every premise of `SafeElections`. */
  lemma TwoLeadersOfOneTerm(s: System, a: Addr, b: Addr, c: Addr) returns (first: seq<Action>, second: seq<Action>)
    requires EvenStart(s) && s.nodes.Keys == {a, b, c} && a != b && a != c && b != c
    ensures Allowed(s, first) && Allowed(Run(s, first), second)
    ensures var e1 := Run(s, first);
      var e2 := Run(e1, second);
      && a in e1.nodes && b in e2.nodes && e1.nodes[a].role == Leader && e2.nodes[b].role == Leader
      && e1.nodes[a].currentTerm == e2.nodes[b].currentTerm
  {
    var s2 := TwoTicks(s, a, b);
    ThreeMembers(a, b, c);
    var s3 := FirstRivalWins(s2, a, b, c);
    CrownedLeads(s2.nodes[a], s3.nodes[a]);
    var s4 := SecondRivalWins(s3, a, b);
    CrownedLeads(s3.nodes[b], s4.nodes[b]);
    first := [CheckLeaderTick(a), CheckLeaderTick(b)] + VoteActions(s2, a, c);
    second := VoteActions(s3, b, a);
    RunsCompose(s, [CheckLeaderTick(a), CheckLeaderTick(b)], VoteActions(s2, a, c));
  }

  // ---------------------------------------------------------------- two leaders of one term at once

  /** The second voter leaves a candidate of four one vote short, with that voter's grant at hand. */
  lemma SecondVoteFallsShort(s: System, i: Addr, j: Addr) returns (s': System)
    requires ElectionSafety.Inv(s) && |s.nodes.Keys| == 4 && FreshCandidate(s, i)
    requires i != j && Willing(s, i, s.nodes[i].currentTerm, j)
    ensures Allowed(s, VoteActions(s, i, j)) && s' == Run(s, VoteActions(s, i, j)) && ElectionSafety.Inv(s')
    ensures s'.nodes.Keys == s.nodes.Keys && s.net <= s'.net && s'.voters == s.voters[i := {i, j}]
    ensures Ripe(s', GrantOf(s, i, j), s.nodes[i].currentTerm)
    ensures forall q :: q in s.nodes && q != i && q != j ==> s'.nodes[q] == s.nodes[q]
  {
    var s2;
    s2, s' := VoteHappens(s, i, j);
    VotersCounted(s', i);
    TwoOfFour(s2, s', i, j);
  }

  /** A candidate whose next counted grant makes it a leader of a cluster of four. */
  ghost predicate ShortOfOne(s: System, i: Addr, term: nat) {
    i in s.nodes && s.nodes[i].role == Candidate && s.nodes[i].voteQuorum == 2 && s.nodes[i].currentTerm == term
  }

  lemma VotersCounted(s: System, i: Addr)
    requires ElectionSafety.Inv(s) && i in s.nodes && i in s.voters
    ensures s.nodes[i].role != Follower ==> |s.voters[i]| == s.nodes[i].voteQuorum
    ensures s.nodes[i].role == Leader ==> 2 * s.nodes[i].voteQuorum > |s.nodes|
  {
    assert ElectionSafety.NodeInv(s, i);
    if s.nodes[i].role != Follower { assert ElectionSafety.Backed(s, i); }
  }

  lemma TwoOfFour(s: System, s': System, i: Addr, j: Addr)
    requires i in s.nodes && i in s.voters && i != j && |s.nodes.Keys| == 4 && s.voters[i] == {i}
    requires CountedFor(s, s', i, j) && (s'.nodes[i].role != Follower ==> |s'.voters[i]| == s'.nodes[i].voteQuorum)
    requires s'.nodes[i].role == Leader ==> 2 * s'.nodes[i].voteQuorum > |s'.nodes|
    ensures ShortOfOne(s', i, s.nodes[i].currentTerm) && s'.voters == s.voters[i := {i, j}]
  {
    assert s'.voters[i] == {i, j} && |{i, j}| == 2;
    assert |s.nodes| == |s.nodes.Keys| == |s'.nodes.Keys| == |s'.nodes|;
  }

  lemma FourMembers(a: Addr, b: Addr, c: Addr, d: Addr)
    requires a != b && a != c && a != d && b != c && b != d && c != d
    ensures |{a, b, c, d}| == 4
  {
  }

  /** A grant that was counted and is all that its candidate is short of. */
  ghost predicate Ripe(s: System, m: Message, term: nat) {
    && m in s.net && m.VoteAnswer? && m.vote == VoteReply(term, true) && ShortOfOne(s, m.to, term)
    && m.to in s.voters && m.from in s.voters[m.to]
  }

  lemma RivalsWanted(s: System, a: Addr, b: Addr, j: Addr)
    requires Rivals(s, a, b) && j in s.nodes
    ensures Willing(s, a, s.nodes[a].currentTerm, j) && Willing(s, b, s.nodes[b].currentTerm, j)
  {
    assert Unspent(s.nodes[b], s.nodes[a].currentTerm, s.nodes[a].log);
  }

  /** The first candidate gets its vote, and a second is left where it was, its voter willing. */
  lemma FirstFallsShort(s: System, a: Addr, b: Addr, c: Addr, d: Addr) returns (s': System)
    requires ElectionSafety.Inv(s) && |s.nodes.Keys| == 4 && FreshCandidate(s, a) && FreshCandidate(s, b) && a != b
    requires Willing(s, a, s.nodes[a].currentTerm, c) && Willing(s, b, s.nodes[b].currentTerm, d)
    requires c != a && c != b && d != a && d != b && c != d
    ensures Allowed(s, VoteActions(s, a, c)) && s' == Run(s, VoteActions(s, a, c)) && ElectionSafety.Inv(s')
    ensures s'.nodes.Keys == s.nodes.Keys && Ripe(s', GrantOf(s, a, c), s.nodes[a].currentTerm)
    ensures FreshCandidate(s', b) && s'.nodes[b] == s.nodes[b] && Willing(s', b, s'.nodes[b].currentTerm, d)
  {
    s' := SecondVoteFallsShort(s, a, c);
    LeftAlone(s, s', a, c, b, d);
  }

  /** A vote between a and c is nothing to b and d. */
  lemma LeftAlone(s: System, s': System, a: Addr, c: Addr, b: Addr, d: Addr)
    requires FreshCandidate(s, b) && Willing(s, b, s.nodes[b].currentTerm, d) && a in s.voters
    requires b != a && b != c && d != a && d != c
    requires s'.nodes.Keys == s.nodes.Keys && s'.voters == s.voters[a := {a, c}]
    requires forall q :: q in s.nodes && q != a && q != c ==> s'.nodes[q] == s.nodes[q]
    ensures FreshCandidate(s', b) && s'.nodes[b] == s.nodes[b] && Willing(s', b, s'.nodes[b].currentTerm, d)
  {
  }

  /** Two rivals with one vote each from the others. */
  lemma RivalsFallShort(s: System, a: Addr, b: Addr, c: Addr, d: Addr) returns (s3: System, s4: System)
    requires ElectionSafety.Inv(s) && Rivals(s, a, b) && |s.nodes.Keys| == 4 && c in s.nodes && d in s.nodes
    requires c != a && c != b && d != a && d != b && c != d
    ensures Allowed(s, VoteActions(s, a, c)) && s3 == Run(s, VoteActions(s, a, c)) && b in s3.nodes && d in s3.nodes
    ensures Allowed(s3, VoteActions(s3, b, d)) && s4 == Run(s3, VoteActions(s3, b, d))
    ensures s3.nodes[b] == s.nodes[b] && s4.nodes.Keys == s.nodes.Keys
    ensures Ripe(s4, GrantOf(s, a, c), s.nodes[a].currentTerm) && Ripe(s4, GrantOf(s3, b, d), s.nodes[a].currentTerm)
  {
    RivalsWanted(s, a, b, c);
    RivalsWanted(s, a, b, d);
    s3 := FirstFallsShort(s, a, b, c, d);
    s4 := SecondVoteFallsShort(s3, b, d);
    RipeStays(s3, s4, GrantOf(s, a, c), b, d, s.nodes[a].currentTerm);
  }

  lemma RipeStays(s: System, s': System, m: Message, i: Addr, j: Addr, term: nat)
    requires Ripe(s, m, term) && s.net <= s'.net && m.to != i && m.to != j
    requires s'.nodes.Keys == s.nodes.Keys && forall q :: q in s.nodes && q != i && q != j ==> s'.nodes[q] == s.nodes[q]
    requires s'.voters == s.voters[i := {i, j}]
    ensures Ripe(s', m, term)
  {
  }

  /** The grant is counted although its voter has been counted before. */
  ghost predicate CountsAgain(s: System, m: Message, s': System) {
    && Enabled(s, TakeVote(m)) && s' == Step(s, TakeVote(m))
    && m.vote.granted && m.vote.term == s.nodes[m.to].currentTerm && m.from in s.voters[m.to]
  }

  ghost predicate BothLead(s: System, a: Addr, b: Addr) {
    && a in s.nodes && b in s.nodes && a != b && s.nodes[a].role == Leader && s.nodes[b].role == Leader
    && s.nodes[a].currentTerm == s.nodes[b].currentTerm
  }

  /** Counting the same grant once more elects the candidate. */
  lemma CountedTwice(s: System, m: Message, term: nat) returns (s': System)
    requires |s.nodes| == 4 && Ripe(s, m, term)
    ensures CountsAgain(s, m, s') && s.net <= s'.net
    ensures m.to in s'.nodes && s'.nodes == s.nodes[m.to := s'.nodes[m.to]]
    ensures s'.voters.Keys == s.voters.Keys && forall j :: j in s.voters && j != m.to ==> s'.voters[j] == s.voters[j]
    ensures s'.nodes[m.to].role == Leader && s'.nodes[m.to].currentTerm == term
  {
    s' := Step(s, TakeVote(m));
  }

  lemma BothCountedTwice(s: System, ma: Message, mb: Message, term: nat) returns (s1: System, s2: System)
    requires |s.nodes.Keys| == 4 && Ripe(s, ma, term) && Ripe(s, mb, term) && ma.to != mb.to
    ensures CountsAgain(s, ma, s1) && CountsAgain(s1, mb, s2) && BothLead(s2, ma.to, mb.to)
  {
    assert |s.nodes| == |s.nodes.Keys|;
    s1 := CountedTwice(s, ma, term);
    SameSize(s.nodes, s1.nodes);
    s2 := CountedTwice(s1, mb, term);
  }

  /** In a cluster of four, a and b have each counted one grant. Counting the same two messages
      again makes both of them leaders of one term at the same instant: the grants are of the
      current term and no denial is handled, so only the premise of one counted grant per peer
      is not met. */
  lemma TwoLeadersAtOnce(s: System, a: Addr, b: Addr, c: Addr, d: Addr)
    returns (actions: seq<Action>, ma: Message, mb: Message, s1: System, s2: System)
    requires EvenStart(s) && s.nodes.Keys == {a, b, c, d}
    requires a != b && a != c && a != d && b != c && b != d && c != d
    ensures Allowed(s, actions) && CountsAgain(Run(s, actions), ma, s1) && CountsAgain(s1, mb, s2)
    ensures BothLead(s2, a, b)
  {
    var start := TwoTicks(s, a, b);
    FourMembers(a, b, c, d);
    var s3, s4 := RivalsFallShort(start, a, b, c, d);
    var ticks := [CheckLeaderTick(a), CheckLeaderTick(b)];
    RunsCompose(s, ticks, VoteActions(start, a, c));
    RunsCompose(s, ticks + VoteActions(start, a, c), VoteActions(s3, b, d));
    actions := ticks + VoteActions(start, a, c) + VoteActions(s3, b, d);
    ma, mb := GrantOf(start, a, c), GrantOf(s3, b, d);
    s1, s2 := BothCountedTwice(s4, ma, mb, start.nodes[a].currentTerm);
  }

  // ---------------------------------------------------------------- logs that diverge

  /** A run in which votes are counted as they should be and only leaders send entries. */
  ghost predicate Path(s: System, actions: seq<Action>, s': System) {
    TermOwners.CarefulRun(s, actions) && TermOwners.Reach(s, actions) == s'
  }

  lemma {:induction false} PathsCompose(s: System, a: seq<Action>, s1: System, b: seq<Action>, s2: System)
    requires Path(s, a, s1) && Path(s1, b, s2)
    ensures Path(s, a + b, s2)
    decreases |a|
  {
    if a == [] {
      assert a + b == b;
    } else {
      assert (a + b)[1..] == a[1..] + b;
      PathsCompose(Step(s, a[0]), a[1..], s1, b, s2);
    }
  }

  lemma PathOfOne(s: System, a: Action, s': System)
    requires Enabled(s, a) && TermOwners.Careful(s, a) && s' == Step(s, a)
    ensures Path(s, [a], s')
  {
    assert [a][1..] == [];
    assert Path(s', [], s');
  }

  ghost predicate NothingSent(actions: seq<Action>) {
    forall k :: 0 <= k < |actions| ==> !actions[k].SendAppend?
  }

  lemma {:induction false} PathOfRun(s: System, actions: seq<Action>)
    requires Allowed(s, actions) && NothingSent(actions)
    ensures Path(s, actions, Run(s, actions))
    decreases |actions|
  {
    if actions != [] { PathOfRun(Step(s, actions[0]), actions[1..]); }
  }

  lemma PathOfTicks(s: System, a: Addr, b: Addr)
    requires Allowed(s, [CheckLeaderTick(a), CheckLeaderTick(b)])
    ensures Path(s, [CheckLeaderTick(a), CheckLeaderTick(b)], Run(s, [CheckLeaderTick(a), CheckLeaderTick(b)]))
  {
    PathOfRun(s, [CheckLeaderTick(a), CheckLeaderTick(b)]);
  }

  lemma PathOfVote(s: System, i: Addr, j: Addr)
    requires i in s.nodes && j in s.nodes && Allowed(s, VoteActions(s, i, j))
    ensures Path(s, VoteActions(s, i, j), Run(s, VoteActions(s, i, j)))
  {
    VoteSendsNothing(s, i, j);
    PathOfRun(s, VoteActions(s, i, j));
  }

  lemma VoteSendsNothing(s: System, i: Addr, j: Addr)
    requires i in s.nodes && j in s.nodes
    ensures NothingSent(VoteActions(s, i, j))
  {
  }

  /** A leader's empty AppendEntries, sent just after its election. */
  ghost function Heartbeat(n: Node, i: Addr): Message {
    AppendAsk(i, AppendRequest(n.self, n.currentTerm, |n.log|, TermAt(n.log, |n.log|), n.commitIndex, []), n.log)
  }

  lemma HeartbeatSent(s: System, f: Addr, i: Addr) returns (s': System)
    requires ElectionSafety.Inv(s) && f in s.nodes && i in s.nodes && f != i && s.nodes[f].role == Leader
    requires s.nodes[f].peers == FreshPeers(s.nodes[f].peers, |s.nodes[f].log|)
    ensures Path(s, [SendAppend(f, i, 0)], s') && ElectionSafety.Inv(s')
    ensures s'.nodes == s.nodes && s'.voters == s.voters && Heartbeat(s.nodes[f], i) in s'.net
  {
    assert ElectionSafety.NodeShape(s, f);
    HeartbeatShape(s, f, i);
    s' := Step(s, SendAppend(f, i, 0));
    ElectionSafety.SendAppendKeeps(s, f, i, 0);
    PathOfOne(s, SendAppend(f, i, 0), s');
  }

  lemma HeartbeatShape(s: System, f: Addr, i: Addr)
    requires f in s.nodes && i in s.nodes && f != i && i in s.nodes[f].peers
    requires s.nodes[f].peers == FreshPeers(s.nodes[f].peers, |s.nodes[f].log|)
    ensures Enabled(s, SendAppend(f, i, 0))
    ensures var s' := Step(s, SendAppend(f, i, 0));
      s'.nodes == s.nodes && s'.voters == s.voters && s'.net == s.net + {Heartbeat(s.nodes[f], i)}
  {
    assert s.nodes[f].peers[i] == Peer(|s.nodes[f].log| + 1, 0);
    assert s.nodes[f := s.nodes[f]] == s.nodes;
  }

  /** The next leader of the term appends x, then the heartbeat arrives and cuts x off, for the
      receiver does not look whether it leads the term itself; then it appends y in its place. */
  lemma Overwritten(s: System, i: Addr, m: Message, x: Command, y: Command) returns (s': System)
    requires Threatened(s, i, m)
    ensures Path(s, [ClientCommand(i, x), AnswerAppend(m, true), ClientCommand(i, y)], s')
    ensures var n := s.nodes[i];
      n.log + [Entry(n.currentTerm, x)] in s'.history && n.log + [Entry(n.currentTerm, y)] in s'.history
  {
    var n := s.nodes[i];
    var s1 := Step(s, ClientCommand(i, x));
    assert s1.nodes[i] == n.(log := n.log + [Entry(n.currentTerm, x)]);
    var s2 := Step(s1, AnswerAppend(m, true));
    CutOff(n, Entry(n.currentTerm, x), m.append);
    assert s2.nodes[i].log == n.log && IsLeader(s2.nodes[i]) && s2.nodes[i].currentTerm == n.currentTerm;
    s' := Step(s2, ClientCommand(i, y));
    PathOfOne(s, ClientCommand(i, x), s1);
    PathOfOne(s1, AnswerAppend(m, true), s2);
    PathOfOne(s2, ClientCommand(i, y), s');
    PathsCompose(s, [ClientCommand(i, x)], s1, [AnswerAppend(m, true)], s2);
    PathsCompose(s, [ClientCommand(i, x)] + [AnswerAppend(m, true)], s2, [ClientCommand(i, y)], s');
    assert [ClientCommand(i, x)] + [AnswerAppend(m, true)] + [ClientCommand(i, y)]
        == [ClientCommand(i, x), AnswerAppend(m, true), ClientCommand(i, y)];
  }

  lemma CutOff(n: Node, e: Entry, req: AppendRequest)
    requires n.role == Leader && req.term == n.currentTerm && req.entries == []
    requires req.prevLogIndex == |n.log| && req.prevLogTerm == TermAt(n.log, |n.log|)
    ensures var n' := ReplyAppendEntries(n.(log := n.log + [e]), req, true).0;
      n'.log == n.log && n'.leader == n.leader && n'.self == n.self && n'.currentTerm == n.currentTerm
  {
    assert (n.log + [e])[..|n.log|] == n.log;
  }

  lemma Diverge(log: seq<Entry>, t: nat, x: Command, y: Command)
    requires x != y
    ensures !LogMatch(log + [Entry(t, x)], log + [Entry(t, y)])
  {
    var a, b, k := log + [Entry(t, x)], log + [Entry(t, y)], |log|;
    assert a[k].term == b[k].term && a[..k + 1][k] != b[..k + 1][k];
  }

  /** The leader of a term with another leader's heartbeat of the same term under way to it. */
  ghost predicate Threatened(s: System, i: Addr, m: Message) {
    && i in s.nodes && s.nodes[i].role == Leader && IsLeader(s.nodes[i])
    && m in s.net && m.AppendAsk? && m.to == i
    && m.append.term == s.nodes[i].currentTerm && m.append.prevLogIndex == |s.nodes[i].log|
    && m.append.entries == [] && m.append.prevLogTerm == TermAt(s.nodes[i].log, |s.nodes[i].log|)
  }

  lemma NowThreatened(s: System, s': System, f: Addr, i: Addr)
    requires ElectionSafety.Inv(s') && f in s.nodes && i in s.nodes && i in s'.nodes && Crowned(s.nodes[i], s'.nodes[i])
    requires s.nodes[i].log == s.nodes[f].log && s.nodes[i].currentTerm == s.nodes[f].currentTerm
    requires Heartbeat(s.nodes[f], i) in s'.net
    ensures Threatened(s', i, Heartbeat(s.nodes[f], i))
  {
    CrownedLeads(s.nodes[i], s'.nodes[i]);
    assert ElectionSafety.NodeShape(s', i);
  }

  /** The leader f sends its heartbeat and then votes i into its place. */
  lemma RivalTakesOver(s: System, f: Addr, i: Addr) returns (s': System)
    requires ElectionSafety.Inv(s) && |s.nodes.Keys| == 3 && f in s.nodes && i in s.nodes && f != i
    requires s.nodes[f].role == Leader && s.nodes[f].peers == FreshPeers(s.nodes[f].peers, |s.nodes[f].log|)
    requires FreshCandidate(s, i)
    requires s.nodes[i].log == s.nodes[f].log && s.nodes[i].currentTerm == s.nodes[f].currentTerm
    ensures Path(s, [SendAppend(f, i, 0)] + VoteActions(s, i, f), s')
    ensures Threatened(s', i, Heartbeat(s.nodes[f], i))
  {
    var s1 := HeartbeatSent(s, f, i);
    s' := SecondRivalWins(s1, f, i);
    NowThreatened(s1, s', f, i);
    PathOfVote(s1, i, f);
    PathsCompose(s, [SendAppend(f, i, 0)], s1, VoteActions(s1, i, f), s');
  }

  lemma CrownedIsFresh(o: Node, n: Node)
    requires Crowned(o, n)
    ensures n.peers == FreshPeers(n.peers, |n.log|)
  {
  }

  /** The first rival leads and is replaced by the second, a heartbeat left behind. */
  lemma LeadersChange(s: System, f: Addr, i: Addr, c: Addr) returns (actions: seq<Action>, s': System, m: Message)
    requires ElectionSafety.Inv(s) && Rivals(s, f, i) && |s.nodes.Keys| == 3 && c in s.nodes && c != f && c != i
    ensures Path(s, actions, s') && Threatened(s', i, m)
  {
    var s1 := FirstRivalWins(s, f, i, c);
    CrownedLeads(s.nodes[f], s1.nodes[f]);
    CrownedIsFresh(s.nodes[f], s1.nodes[f]);
    assert Unspent(s.nodes[i], s.nodes[f].currentTerm, s.nodes[f].log);
    s' := RivalTakesOver(s1, f, i);
    m := Heartbeat(s1.nodes[f], i);
    PathOfVote(s, f, c);
    var more := [SendAppend(f, i, 0)] + VoteActions(s1, i, f);
    PathsCompose(s, VoteActions(s, f, c), s1, more, s');
    actions := VoteActions(s, f, c) + more;
  }

  /** Without the guard log matching fails: in a cluster of three f leads, sends a heartbeat to i,
      and votes for i, which leads the same term; the heartbeat then makes i put two different
      entries into one (index, term) slot. */
  lemma LogsDiverge(s: System, f: Addr, i: Addr, c: Addr, x: Command, y: Command)
    returns (actions: seq<Action>, a: seq<Entry>, b: seq<Entry>)
    requires EvenStart(s) && s.nodes.Keys == {f, i, c} && f != i && f != c && i != c && x != y
    ensures TermOwners.CarefulRun(s, actions)
    ensures a in TermOwners.Reach(s, actions).history && b in TermOwners.Reach(s, actions).history && !LogMatch(a, b)
  {
    var s1 := TwoTicks(s, f, i);
    ThreeMembers(f, i, c);
    var change, s2, m := LeadersChange(s1, f, i, c);
    var s3 := Overwritten(s2, i, m, x, y);
    var ticks := [CheckLeaderTick(f), CheckLeaderTick(i)];
    var last := [ClientCommand(i, x), AnswerAppend(m, true), ClientCommand(i, y)];
    PathOfTicks(s, f, i);
    PathsCompose(s, ticks, s1, change, s2);
    PathsCompose(s, ticks + change, s2, last, s3);
    actions := ticks + change + last;
    var n := s2.nodes[i];
    a, b := n.log + [Entry(n.currentTerm, x)], n.log + [Entry(n.currentTerm, y)];
    Diverge(n.log, n.currentTerm, x, y);
  }
}
