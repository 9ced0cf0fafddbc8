/** Where the fresh slots come from. If only leaders send AppendEntries, and no voter grants a term that
    it has led itself, a term has one leader ever; so a leader never meets an (index, term)
    slot that was used before, and log matching needs no premise about slots.
 */
module TermOwners {
  import opened RaftTypes
  import opened Handlers
  import opened Protocol
  import ElectionSafety
  import LogMatching
  import LeaderHistory

  /** Who has led in which term so far. */
  type Owners = LeaderHistory.Leaders

  /** The premises here: votes are counted and denied as before, and only leaders send entries.
      Nothing is asked of client commands. */
  ghost predicate Careful(s: System, a: Action)
    requires Enabled(s, a)
  {
    match a
    case TakeVote(m) => Premises(s, a)
    case SendAppend(i, _, _) => s.nodes[i].role == Leader
    case _ => true
  }

  /** An entry of this term at this 0-based position is of the start, or its term has an owner,
      who has it too while leading. */
  ghost predicate Owned(s: System, owners: Owners, base: nat, k: nat, term: nat) {
    term <= base || exists j :: (term, j) in owners && j in s.nodes && StillHas(s.nodes[j], k, term)
  }

  ghost predicate StillHas(n: Node, k: nat, term: nat) {
    n.role == Leader && n.currentTerm == term ==> k < |n.log|
  }

  ghost predicate NodeOwned(s: System, owners: Owners, base: nat, i: Addr)
    requires i in s.nodes
  {
    var n := s.nodes[i];
    && base <= n.currentTerm && (n.role != Follower ==> base < n.currentTerm)
    && (n.role == Leader ==> (n.currentTerm, i) in owners)
    && (n.role == Candidate ==> (n.currentTerm, i) !in owners)
    && (forall t :: (t, i) in owners ==> t <= n.currentTerm)
  }

  ghost predicate LogOwned(s: System, owners: Owners, base: nat, log: seq<Entry>) {
    forall k :: 0 <= k < |log| ==> Owned(s, owners, base, k, log[k].term)
  }

  ghost predicate OwnerInv(s: System, owners: Owners, base: nat) {
    && (forall i :: i in s.nodes ==> NodeOwned(s, owners, base, i))
    && (forall t, i, j :: (t, i) in owners && (t, j) in owners ==> i == j)
    && (forall log: seq<Entry> :: log in s.history ==> LogOwned(s, owners, base, log))
    && (forall m :: m in s.net && m.AppendAsk? ==> (m.append.term, m.append.from) in owners)
  }

  ghost predicate FullInv(s: System, owners: Owners, base: nat) {
    ElectionSafety.Inv(s) && LogMatching.LogInv(s) && OwnerInv(s, owners, base)
  }

  /** A vote that elects m.to elects the first leader of the term. */
  ghost predicate FirstOfTerm(s: System, a: Action, owners: Owners)
    requires Enabled(s, a)
  {
    a.TakeVote? && Step(s, a).nodes[a.m.to].role == Leader ==>
      forall j :: (Step(s, a).nodes[a.m.to].currentTerm, j) in owners ==> j == a.m.to
  }

  /** A leader's next slot is unused. */
  lemma NextSlotUnused(s: System, owners: Owners, base: nat, i: Addr)
    requires FullInv(s, owners, base) && i in s.nodes && IsLeader(s.nodes[i])
    ensures Unused(s, |s.nodes[i].log| + 1, s.nodes[i].currentTerm)
  {
    var n := s.nodes[i];
    assert ElectionSafety.NodeShape(s, i) && ElectionSafety.NodeInv(s, i) && NodeOwned(s, owners, base, i);
    forall log: seq<Entry> | log in s.history && 1 <= |n.log| + 1 <= |log|
      ensures log[|n.log|].term != n.currentTerm
    {
      assert LogOwned(s, owners, base, log) && Owned(s, owners, base, |n.log|, log[|n.log|].term);
    }
  }

  /** So every action that is allowed here meets the premises of the other theorems. */
  lemma PremisesFollow(s: System, a: Action, owners: Owners, base: nat)
    requires FullInv(s, owners, base) && Enabled(s, a) && Careful(s, a)
    ensures Premises(s, a)
  {
    if a.ClientCommand? && IsLeader(s.nodes[a.i]) {
      NextSlotUnused(s, owners, base, a.i);
    }
  }

  /** What a step may do to a node: a leader afterwards led the same term before, with a log no
      longer; a candidate afterwards is new to its term or was its candidate before. */
  ghost predicate Quiet(o: Node, n: Node) {
    && n.currentTerm >= o.currentTerm
    && (n.role == Leader ==> o.role == Leader && n.currentTerm == o.currentTerm && |n.log| >= |o.log|)
    && (n.role == Candidate ==> n.currentTerm > o.currentTerm || (o.role == Candidate && n.currentTerm == o.currentTerm))
  }

  /** Or it wins an election in a term that has no owner. */
  ghost predicate Elected(o: Node, n: Node, owners: Owners) {
    && o.role == Candidate && n.role == Leader && n.currentTerm == o.currentTerm
    && forall j :: (n.currentTerm, j) !in owners
  }

  /** Slots that were owned stay owned. */
  lemma OwnedCarries(s: System, s': System, owners: Owners, owners': Owners, base: nat, i: Addr, n: Node, k: nat, term: nat)
    requires Owned(s, owners, base, k, term)
    requires i in s.nodes && s'.nodes == s.nodes[i := n] && owners <= owners'
    requires Quiet(s.nodes[i], n) || Elected(s.nodes[i], n, owners)
    requires forall t, p, q :: (t, p) in owners && (t, q) in owners ==> p == q
    ensures Owned(s', owners', base, k, term)
  {
    if term > base {
      var j :| (term, j) in owners && j in s.nodes && StillHas(s.nodes[j], k, term);
      assert (term, j) in owners' && j in s'.nodes && StillHas(s'.nodes[j], k, term);
    }
  }

  lemma HeldCarries(s: System, s': System, owners: Owners, owners': Owners, base: nat, i: Addr, n: Node, log: seq<Entry>, held: seq<Entry>)
    requires LogOwned(s, owners, base, held) && |log| <= |held| && log == held[..|log|]
    requires i in s.nodes && s'.nodes == s.nodes[i := n] && owners <= owners'
    requires Quiet(s.nodes[i], n) || Elected(s.nodes[i], n, owners)
    requires forall t, p, q :: (t, p) in owners && (t, q) in owners ==> p == q
    ensures LogOwned(s', owners', base, log)
  {
    forall k: nat | k < |log|
      ensures Owned(s', owners', base, k, log[k].term)
    {
      assert Owned(s, owners, base, k, held[k].term);
      OwnedCarries(s, s', owners, owners', base, i, n, k, held[k].term);
    }
  }

  /** Only the node that took the step can become a new owner. */
  lemma RecordOne(s: System, s': System, owners: Owners, base: nat, i: Addr, n: Node)
    requires forall j :: j in s.nodes ==> NodeOwned(s, owners, base, j)
    requires i in s.nodes && s'.nodes == s.nodes[i := n]
    ensures LeaderHistory.Record(s', owners) == if n.role == Leader then owners + {(n.currentTerm, i)} else owners
  {
    forall j | j in s'.nodes && j != i && s'.nodes[j].role == Leader
      ensures (s'.nodes[j].currentTerm, j) in owners
    {
      assert NodeOwned(s, owners, base, j);
    }
    assert i in s'.nodes && s'.nodes[i] == n;
  }

  lemma NodesOwned(s: System, s': System, owners: Owners, base: nat, i: Addr, n: Node)
    requires forall j :: j in s.nodes ==> NodeOwned(s, owners, base, j)
    requires i in s.nodes && s'.nodes == s.nodes[i := n]
    requires Quiet(s.nodes[i], n) || Elected(s.nodes[i], n, owners)
    ensures forall j :: j in s'.nodes ==> NodeOwned(s', LeaderHistory.Record(s', owners), base, j)
  {
    RecordOne(s, s', owners, base, i, n);
    forall j | j in s'.nodes
      ensures NodeOwned(s', LeaderHistory.Record(s', owners), base, j)
    {
      assert NodeOwned(s, owners, base, j);
    }
  }

  lemma StillOneOwner(s: System, s': System, owners: Owners, base: nat, i: Addr, n: Node)
    requires forall j :: j in s.nodes ==> NodeOwned(s, owners, base, j)
    requires forall t, p, q :: (t, p) in owners && (t, q) in owners ==> p == q
    requires i in s.nodes && s'.nodes == s.nodes[i := n]
    requires Quiet(s.nodes[i], n) || Elected(s.nodes[i], n, owners)
    ensures forall t, p, q :: (t, p) in LeaderHistory.Record(s', owners) && (t, q) in LeaderHistory.Record(s', owners) ==> p == q
  {
    RecordOne(s, s', owners, base, i, n);
    assert NodeOwned(s, owners, base, i);
  }

  /** The proof of every step, up to the new log of the node that took it. */
  lemma OwnerStep(s: System, s': System, owners: Owners, base: nat, i: Addr, n: Node, sent: set<Message>)
    requires OwnerInv(s, owners, base) && i in s.nodes
    requires s'.nodes == s.nodes[i := n] && s'.net == s.net + sent && s'.history == s.history + {n.log}
    requires Quiet(s.nodes[i], n) || Elected(s.nodes[i], n, owners)
    requires LogOwned(s', LeaderHistory.Record(s', owners), base, n.log)
    requires forall m :: m in sent && m.AppendAsk? ==> (m.append.term, m.append.from) in owners
    ensures OwnerInv(s', LeaderHistory.Record(s', owners), base)
  {
    NodesOwned(s, s', owners, base, i, n);
    StillOneOwner(s, s', owners, base, i, n);
    forall log: seq<Entry> | log in s'.history
      ensures LogOwned(s', LeaderHistory.Record(s', owners), base, log)
    {
      if log in s.history {
        HeldCarries(s, s', owners, LeaderHistory.Record(s', owners), base, i, n, log, log);
      }
    }
  }

  /** A step after which the node's log starts a log that was held before. */
  lemma HeldStep(s: System, s': System, owners: Owners, base: nat, i: Addr, n: Node, sent: set<Message>, held: seq<Entry>)
    requires OwnerInv(s, owners, base) && i in s.nodes
    requires s'.nodes == s.nodes[i := n] && s'.net == s.net + sent && s'.history == s.history + {n.log}
    requires Quiet(s.nodes[i], n) || Elected(s.nodes[i], n, owners)
    requires held in s.history && |n.log| <= |held| && n.log == held[..|n.log|]
    requires forall m :: m in sent && m.AppendAsk? ==> (m.append.term, m.append.from) in owners
    ensures OwnerInv(s', LeaderHistory.Record(s', owners), base)
  {
    HeldCarries(s, s', owners, LeaderHistory.Record(s', owners), base, i, n, n.log, held);
    OwnerStep(s, s', owners, base, i, n, sent);
  }

  /** A step after which the node's log is as it was. */
  lemma SameLogStep(s: System, s': System, owners: Owners, base: nat, i: Addr, n: Node, sent: set<Message>)
    requires OwnerInv(s, owners, base) && i in s.nodes && s.nodes[i].log in s.history && n.log == s.nodes[i].log
    requires s'.nodes == s.nodes[i := n] && s'.net == s.net + sent && s'.history == s.history + {n.log}
    requires Quiet(s.nodes[i], n) || Elected(s.nodes[i], n, owners)
    requires forall m :: m in sent && m.AppendAsk? ==> (m.append.term, m.append.from) in owners
    ensures OwnerInv(s', LeaderHistory.Record(s', owners), base)
  {
    assert n.log == n.log[..|n.log|];
    HeldStep(s, s', owners, base, i, n, sent, n.log);
  }

  lemma TickOwner(s: System, i: Addr, owners: Owners, base: nat)
    requires FullInv(s, owners, base) && Enabled(s, CheckLeaderTick(i))
    ensures var s' := Step(s, CheckLeaderTick(i)); OwnerInv(s', LeaderHistory.Record(s', owners), base)
  {
    var n := CheckLeader(s.nodes[i]);
    TickQuiet(s.nodes[i]);
    SameLogStep(s, Step(s, CheckLeaderTick(i)), owners, base, i, n, {});
  }

  lemma TickQuiet(o: Node)
    ensures Quiet(o, CheckLeader(o)) && CheckLeader(o).log == o.log
  {
  }

  lemma AskVoteOwner(s: System, i: Addr, j: Addr, owners: Owners, base: nat)
    requires FullInv(s, owners, base) && Enabled(s, AskVote(i, j))
    ensures var s' := Step(s, AskVote(i, j)); OwnerInv(s', LeaderHistory.Record(s', owners), base)
  {
    var n := s.nodes[i];
    SameLogStep(s, Step(s, AskVote(i, j)), owners, base, i, n, {VoteAsk(j, BuildVoteRequest(n), n.log)});
  }

  lemma AnswerVoteOwner(s: System, m: Message, owners: Owners, base: nat)
    requires FullInv(s, owners, base) && Enabled(s, AnswerVote(m))
    ensures var s' := Step(s, AnswerVote(m)); OwnerInv(s', LeaderHistory.Record(s', owners), base)
  {
    var (n, vote) := ReplyRequestVote(s.nodes[m.to], m.ask);
    AnswerVoteQuiet(s.nodes[m.to], m.ask);
    SameLogStep(s, Step(s, AnswerVote(m)), owners, base, m.to, n,
                {VoteAnswer(m.ask.from, m.to, m.ask, vote, m.candidateLog, s.nodes[m.to].log)});
  }

  lemma AnswerVoteQuiet(o: Node, ask: VoteRequest)
    ensures Quiet(o, ReplyRequestVote(o, ask).0) && ReplyRequestVote(o, ask).0.log == o.log
  {
  }

  lemma TakeVoteOwner(s: System, m: Message, owners: Owners, base: nat)
    requires FullInv(s, owners, base) && Enabled(s, TakeVote(m)) && Careful(s, TakeVote(m)) && FirstOfTerm(s, TakeVote(m), owners)
    ensures var s' := Step(s, TakeVote(m)); OwnerInv(s', LeaderHistory.Record(s', owners), base)
  {
    var o, n := s.nodes[m.to], HandleVoteReply(s.nodes[m.to], m.vote, |s.nodes|);
    assert NodeOwned(s, owners, base, m.to);
    TakeVoteQuiet(o, m.vote, |s.nodes|);
    SameLogStep(s, Step(s, TakeVote(m)), owners, base, m.to, n, {});
  }

  lemma TakeVoteQuiet(o: Node, vote: VoteReply, memberCount: nat)
    requires o.role == Candidate && vote.term <= o.currentTerm && !vote.granted ==> vote.term == o.currentTerm
    ensures var n := HandleVoteReply(o, vote, memberCount);
      n.log == o.log && (Quiet(o, n) || (o.role == Candidate && n.role == Leader && n.currentTerm == o.currentTerm))
  {
  }

  lemma SendAppendOwner(s: System, i: Addr, j: Addr, k: nat, owners: Owners, base: nat)
    requires FullInv(s, owners, base) && Enabled(s, SendAppend(i, j, k)) && s.nodes[i].role == Leader
    ensures var s' := Step(s, SendAppend(i, j, k)); OwnerInv(s', LeaderHistory.Record(s', owners), base)
  {
    var n := s.nodes[i];
    assert NodeOwned(s, owners, base, i) && ElectionSafety.NodeShape(s, i);
    SameLogStep(s, Step(s, SendAppend(i, j, k)), owners, base, i, n,
                {AppendAsk(j, BuildAppendRequest(n, j, k), n.log)});
  }

  /** A node leads no term of which somebody else sent it entries. */
  lemma LeaderIsNotSentTo(s: System, m: Message, owners: Owners, base: nat)
    requires FullInv(s, owners, base) && m.AppendAsk? && m in s.net && m.to in s.nodes
    ensures s.nodes[m.to].role == Leader ==> m.append.term != s.nodes[m.to].currentTerm
  {
    assert ElectionSafety.MessageInv(s, m) && NodeOwned(s, owners, base, m.to);
  }

  lemma AnswerAppendQuiet(o: Node, req: AppendRequest, senderLog: seq<Entry>, writeOk: bool)
    requires o.role == Leader ==> req.term != o.currentTerm
    requires LogMatch(senderLog, o.log) && FromLog(req, senderLog)
    requires req.prevLogIndex == 0 ==> req.prevLogTerm == 0
    ensures var n := ReplyAppendEntries(o, req, writeOk).0;
      Quiet(o, n) && ((|n.log| <= |o.log| && n.log == o.log[..|n.log|])
                      || (|n.log| <= |senderLog| && n.log == senderLog[..|n.log|]))
  {
    AcceptedIsPrefix(o.log, req, senderLog, writeOk);
  }

  /** What the invariants say of a request that arrives: its receiver leads no term of the sender,
      and the sender's log was held before and matches the receiver's. */
  lemma RequestFacts(s: System, m: Message, owners: Owners, base: nat)
    requires FullInv(s, owners, base) && m.AppendAsk? && m in s.net && m.to in s.nodes
    ensures s.nodes[m.to].role == Leader ==> m.append.term != s.nodes[m.to].currentTerm
    ensures m.senderLog in s.history && s.nodes[m.to].log in s.history
    ensures LogMatch(m.senderLog, s.nodes[m.to].log) && FromLog(m.append, m.senderLog)
  {
    LeaderIsNotSentTo(s, m, owners, base);
    assert LogMatching.MessageLogs(s, m);
  }

  /** The log that the receiver is left with starts one of these two. */
  lemma HeldAfterAnswer(o: Node, req: AppendRequest, senderLog: seq<Entry>, writeOk: bool) returns (held: seq<Entry>)
    requires o.role == Leader ==> req.term != o.currentTerm
    requires LogMatch(senderLog, o.log) && FromLog(req, senderLog)
    requires req.prevLogIndex == 0 ==> req.prevLogTerm == 0
    ensures var n := ReplyAppendEntries(o, req, writeOk).0;
      Quiet(o, n) && |n.log| <= |held| && n.log == held[..|n.log|]
    ensures held == o.log || held == senderLog
  {
    AnswerAppendQuiet(o, req, senderLog, writeOk);
    var n := ReplyAppendEntries(o, req, writeOk).0;
    held := if |n.log| <= |o.log| && n.log == o.log[..|n.log|] then o.log else senderLog;
  }

  lemma AnswerAppendOwner(s: System, m: Message, writeOk: bool, owners: Owners, base: nat)
    requires FullInv(s, owners, base) && Enabled(s, AnswerAppend(m, writeOk))
    ensures var s' := Step(s, AnswerAppend(m, writeOk)); OwnerInv(s', LeaderHistory.Record(s', owners), base)
  {
    RequestFacts(s, m, owners, base);
    var held := HeldAfterAnswer(s.nodes[m.to], m.append, m.senderLog, writeOk);
    AnswerStep(s, Step(s, AnswerAppend(m, writeOk)), m, writeOk, owners, base, held);
  }

  lemma AnswerStep(s: System, s': System, m: Message, writeOk: bool, owners: Owners, base: nat, held: seq<Entry>)
    requires OwnerInv(s, owners, base) && Enabled(s, AnswerAppend(m, writeOk)) && s' == Step(s, AnswerAppend(m, writeOk))
    requires var n := ReplyAppendEntries(s.nodes[m.to], m.append, writeOk).0;
      Quiet(s.nodes[m.to], n) && held in s.history && |n.log| <= |held| && n.log == held[..|n.log|]
    ensures OwnerInv(s', LeaderHistory.Record(s', owners), base)
  {
    var (n, answer) := ReplyAppendEntries(s.nodes[m.to], m.append, writeOk);
    var reply := AppendAnswer(m.append.from, m.to, m.append, m.senderLog, answer, n.log, writeOk);
    HeldStep(s, s', owners, base, m.to, n, {reply}, held);
  }

  lemma TakeAppendOwner(s: System, m: Message, owners: Owners, base: nat)
    requires FullInv(s, owners, base) && Enabled(s, TakeAppend(m))
    ensures var s' := Step(s, TakeAppend(m)); OwnerInv(s', LeaderHistory.Record(s', owners), base)
  {
    var o := s.nodes[m.to];
    TakeAppendQuiet(o, m.from, m.append, m.answer);
    SameLogStep(s, Step(s, TakeAppend(m)), owners, base, m.to, HandleAppendReply(o, m.from, m.append, m.answer), {});
  }

  lemma TakeAppendQuiet(o: Node, peer: Addr, append: AppendRequest, answer: AppendReply)
    requires NodeValid(o) && peer in o.peers
    ensures var n := HandleAppendReply(o, peer, append, answer); Quiet(o, n) && n.log == o.log
  {
  }

  /** A leader's new entry is its own. */
  lemma ClientCommandOwner(s: System, i: Addr, cmd: Command, owners: Owners, base: nat)
    requires FullInv(s, owners, base) && Enabled(s, ClientCommand(i, cmd))
    ensures var s' := Step(s, ClientCommand(i, cmd)); OwnerInv(s', LeaderHistory.Record(s', owners), base)
  {
    var o, n, s' := s.nodes[i], AppendCommand(s.nodes[i], cmd), Step(s, ClientCommand(i, cmd));
    assert ElectionSafety.NodeShape(s, i) && ElectionSafety.NodeInv(s, i) && NodeOwned(s, owners, base, i);
    if IsLeader(o) {
      OneMoreStep(s, s', owners, base, i, n);
    } else {
      SameLogStep(s, s', owners, base, i, n, {});
    }
  }

  lemma OneMoreStep(s: System, s': System, owners: Owners, base: nat, i: Addr, n: Node)
    requires OwnerInv(s, owners, base) && i in s.nodes && s.nodes[i].log in s.history
    requires s'.nodes == s.nodes[i := n] && s'.net == s.net + {} && s'.history == s.history + {n.log}
    requires Quiet(s.nodes[i], n) && n.role == Leader
    requires var log := s.nodes[i].log; |n.log| == |log| + 1 && n.log[..|log|] == log && n.log[|log|].term == n.currentTerm
    ensures OwnerInv(s', LeaderHistory.Record(s', owners), base)
  {
    var log := s.nodes[i].log;
    RecordOne(s, s', owners, base, i, n);
    HeldCarries(s, s', owners, LeaderHistory.Record(s', owners), base, i, n, log, log);
    OneMoreOwned(s', LeaderHistory.Record(s', owners), base, i, log, n.log);
    OwnerStep(s, s', owners, base, i, n, {});
  }

  lemma OneMoreOwned(s: System, owners: Owners, base: nat, i: Addr, before: seq<Entry>, after: seq<Entry>)
    requires LogOwned(s, owners, base, before)
    requires |after| == |before| + 1 && after[..|before|] == before
    requires i in s.nodes && s.nodes[i].log == after && after[|before|].term == s.nodes[i].currentTerm
    requires (s.nodes[i].currentTerm, i) in owners
    ensures LogOwned(s, owners, base, after)
  {
    forall k: nat | k < |after|
      ensures Owned(s, owners, base, k, after[k].term)
    {
      if k < |before| {
        assert after[k] == before[k] && Owned(s, owners, base, k, before[k].term);
      } else {
        assert StillHas(s.nodes[i], k, after[k].term);
      }
    }
  }

  lemma StepKeepsOwners(s: System, a: Action, owners: Owners, base: nat)
    requires FullInv(s, owners, base) && Enabled(s, a) && Careful(s, a) && FirstOfTerm(s, a, owners)
    ensures OwnerInv(Step(s, a), LeaderHistory.Record(Step(s, a), owners), base)
  {
    match a
    case CheckLeaderTick(i) => TickOwner(s, i, owners, base);
    case AskVote(i, j) => AskVoteOwner(s, i, j, owners, base);
    case AnswerVote(m) => AnswerVoteOwner(s, m, owners, base);
    case TakeVote(m) => TakeVoteOwner(s, m, owners, base);
    case SendAppend(i, j, k) => SendAppendOwner(s, i, j, k, owners, base);
    case AnswerAppend(m, writeOk) => AnswerAppendOwner(s, m, writeOk, owners, base);
    case TakeAppend(m) => TakeAppendOwner(s, m, owners, base);
    case ClientCommand(i, cmd) => ClientCommandOwner(s, i, cmd, owners, base);
  }

  // ---------------------------------------------------------------- whole runs

  /** A run that meets these premises. */
  ghost predicate CarefulRun(s: System, actions: seq<Action>)
    decreases |actions|
  {
    actions == [] || (Enabled(s, actions[0]) && Careful(s, actions[0]) && CarefulRun(Step(s, actions[0]), actions[1..]))
  }

  ghost function Reach(s: System, actions: seq<Action>): System
    requires CarefulRun(s, actions)
    decreases |actions|
  {
    if actions == [] then s else Reach(Step(s, actions[0]), actions[1..])
  }

  /** And in which no voter grants a term that it has led. */
  ghost predicate UnledRun(s: System, actions: seq<Action>, owners: Owners)
    requires CarefulRun(s, actions)
    decreases |actions|
  {
    actions == [] ||
    (LeaderHistory.Unled(s, actions[0], owners)
     && UnledRun(Step(s, actions[0]), actions[1..], LeaderHistory.Record(Step(s, actions[0]), owners)))
  }

  ghost predicate WholeInv(s: System, owners: Owners, base: nat) {
    FullInv(s, owners, base) && LeaderHistory.LedWon(s, owners) && LeaderHistory.LedUnvoted(s, owners)
  }

  /** The history of leaders after a guarded step: still one per term, so an election that the step
      decides is the first of its term. */
  lemma HistoryKept(s: System, a: Action, owners: Owners)
    requires ElectionSafety.Inv(s) && Enabled(s, a) && Premises(s, a)
    requires LeaderHistory.LedWon(s, owners) && LeaderHistory.LedUnvoted(s, owners) && LeaderHistory.Unled(s, a, owners)
    ensures var s' := Step(s, a);
      ElectionSafety.Inv(s') && LeaderHistory.LedWon(s', LeaderHistory.Record(s', owners))
      && LeaderHistory.LedUnvoted(s', LeaderHistory.Record(s', owners))
  {
    ElectionSafety.StepKeeps(s, a);
    LeaderHistory.KeysStay(s, a);
    LeaderHistory.RecordKeepsWon(s, Step(s, a), owners);
    LeaderHistory.GuardKeepsUnvoted(s, a, owners);
  }

  lemma FirstByHistory(s: System, a: Action, owners: Owners)
    requires Enabled(s, a)
    requires LeaderHistory.LedWon(Step(s, a), LeaderHistory.Record(Step(s, a), owners))
    requires LeaderHistory.LedUnvoted(Step(s, a), LeaderHistory.Record(Step(s, a), owners))
    ensures FirstOfTerm(s, a, owners)
  {
    if a.TakeVote? && Step(s, a).nodes[a.m.to].role == Leader {
      var s', i := Step(s, a), a.m.to;
      var t, owners' := s'.nodes[i].currentTerm, LeaderHistory.Record(s', owners);
      assert (t, i) in owners';
      forall j | (t, j) in owners
        ensures j == i
      {
        LeaderHistory.OneLed(s', owners', t, j, i);
      }
    }
  }

  lemma StepKeepsWhole(s: System, a: Action, owners: Owners, base: nat)
    requires WholeInv(s, owners, base) && Enabled(s, a) && Careful(s, a) && LeaderHistory.Unled(s, a, owners)
    ensures Premises(s, a) && WholeInv(Step(s, a), LeaderHistory.Record(Step(s, a), owners), base)
  {
    PremisesFollow(s, a, owners, base);
    LogMatching.StepKeepsLogs(s, a);
    HistoryKept(s, a, owners);
    FirstByHistory(s, a, owners);
    StepKeepsOwners(s, a, owners, base);
  }

  lemma {:induction false} RunMeetsPremises(s: System, actions: seq<Action>, owners: Owners, base: nat)
    requires WholeInv(s, owners, base) && CarefulRun(s, actions) && UnledRun(s, actions, owners)
    ensures Allowed(s, actions) && LeaderHistory.Guarded(s, actions, owners) && Run(s, actions) == Reach(s, actions)
    decreases |actions|
  {
    if actions != [] {
      StepKeepsWhole(s, actions[0], owners, base);
      RunMeetsPremises(Step(s, actions[0]), actions[1..], LeaderHistory.Record(Step(s, actions[0]), owners), base);
    }
  }

  /** A start at which every entry is of a term that every node has reached. */
  ghost predicate Settled(s: System, base: nat) {
    && (forall i :: i in s.nodes ==> base <= s.nodes[i].currentTerm)
    && (forall i, k :: i in s.nodes && 0 <= k < |s.nodes[i].log| ==> s.nodes[i].log[k].term <= base)
  }

  /** Log matching without a premise on slots: over any run from a settled start in which only
      leaders send entries and no voter grants a term that it has led, all logs ever held agree
      pairwise up to any shared (index, term). */
  lemma LogsMatchByOwners(s: System, actions: seq<Action>, base: nat, a: seq<Entry>, b: seq<Entry>)
    requires Init(s) && Settled(s, base) && CarefulRun(s, actions) && UnledRun(s, actions, {})
    requires a in Reach(s, actions).history && b in Reach(s, actions).history
    ensures LogMatch(a, b)
  {
    GuardedIsAllowed(s, actions, base);
    LogMatching.LogsAlwaysMatch(s, actions, a, b);
  }

  /** So these runs meet the premises of every other theorem on runs, and end where they end there. */
  lemma GuardedIsAllowed(s: System, actions: seq<Action>, base: nat)
    requires Init(s) && Settled(s, base) && CarefulRun(s, actions) && UnledRun(s, actions, {})
    ensures Allowed(s, actions) && LeaderHistory.Guarded(s, actions, {})
    ensures Run(s, actions) == Reach(s, actions)
  {
    ElectionSafety.InitInv(s);
    LogMatching.InitLogInv(s);
    SettledOwners(s, base);
    RunMeetsPremises(s, actions, {}, base);
  }

  lemma SettledOwners(s: System, base: nat)
    requires Init(s) && Settled(s, base)
    ensures OwnerInv(s, {}, base)
  {
    forall i | i in s.nodes
      ensures NodeOwned(s, {}, base, i)
    {
      assert InitNode(s, i);
    }
    forall log: seq<Entry> | log in s.history
      ensures LogOwned(s, {}, base, log)
    {
      var i :| i in s.nodes && s.nodes[i].log == log;
    }
  }
}
