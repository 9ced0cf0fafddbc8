/** A cluster as a transition system: the nodes, every message ever sent, and what happens next.
    Messages are never removed, so any of them can be delivered late, twice, out of order, or
    not at all. Each action is one critical section of the code.
 */
module Protocol {
  import opened RaftTypes
  import opened Handlers

  /** A request travels with the log it was built from, and a reply with the request it answers,
      as the RPC that waits for it still has both at hand. `voterLog` is the voter's log when it
      answered, `stored` is the follower's log right
      after the request was handled and `writeOk` whether its store took the write. */
  datatype Message =
    | VoteAsk(to: Addr, ask: VoteRequest, candidateLog: seq<Entry>)
    | VoteAnswer(to: Addr, from: Addr, ask: VoteRequest, vote: VoteReply,
                 candidateLog: seq<Entry>, voterLog: seq<Entry>)
    | AppendAsk(to: Addr, append: AppendRequest, senderLog: seq<Entry>)
    | AppendAnswer(to: Addr, from: Addr, append: AppendRequest, senderLog: seq<Entry>,
                   answer: AppendReply, stored: seq<Entry>, writeOk: bool)

  /** `voters` remembers whose votes a node has counted since it last became a candidate, and
      `history` every log that any node has held. */
  datatype System = System(
    nodes: map<Addr, Node>,
    net: set<Message>,
    voters: map<Addr, set<Addr>>,
    history: set<seq<Entry>>)

  datatype Action =
    | CheckLeaderTick(i: Addr)
    | AskVote(i: Addr, j: Addr)
    | AnswerVote(m: Message)
    | TakeVote(m: Message)
    | SendAppend(i: Addr, j: Addr, k: nat)
    | AnswerAppend(m: Message, writeOk: bool)
    | TakeAppend(m: Message)
    | ClientCommand(i: Addr, cmd: Command)

  /** No entry at this 1-based index with this term has ever been in any log. */
  ghost predicate Unused(s: System, index: nat, term: nat) {
    forall log: seq<Entry> :: log in s.history && 1 <= index <= |log| ==> log[index - 1].term != term
  }

  /** The action can happen. */
  ghost predicate Enabled(s: System, a: Action) {
    match a
    case CheckLeaderTick(i) => i in s.nodes
    case AskVote(i, j) => i in s.nodes && j in s.nodes && i != j
    case AnswerVote(m) => m.VoteAsk? && m in s.net && m.to in s.nodes
    case TakeVote(m) => m.VoteAnswer? && m in s.net && m.to in s.nodes && m.to in s.voters
    case SendAppend(i, j, k) =>
      && i in s.nodes && j in s.nodes && i != j && j in s.nodes[i].peers
      && s.nodes[i].peers[j].nextIndex >= 1
      && BatchSize(s.nodes[i].log, s.nodes[i].peers[j].nextIndex, k)
    case AnswerAppend(m, _) =>
      m.AppendAsk? && m in s.net && m.to in s.nodes && (m.append.prevLogIndex == 0 ==> m.append.prevLogTerm == 0)
    case TakeAppend(m) =>
      && m.AppendAnswer? && m in s.net && m.to in s.nodes
      && NodeValid(s.nodes[m.to]) && m.from in s.nodes[m.to].peers
    case ClientCommand(i, _) => i in s.nodes
  }

  /** The premises on runs. A candidacy counts one grant per peer; a denial of an older term
      than the candidate's is not handled; and a command goes into an (index, term) slot that no
      log has used. */
  ghost predicate Premises(s: System, a: Action)
    requires Enabled(s, a)
  {
    match a
    case TakeVote(m) =>
      var n := s.nodes[m.to];
      n.role == Candidate && m.vote.term <= n.currentTerm ==>
        if m.vote.granted then m.vote.term == n.currentTerm ==> m.from !in s.voters[m.to]
        else m.vote.term == n.currentTerm
    case ClientCommand(i, _) =>
      IsLeader(s.nodes[i]) ==> Unused(s, |s.nodes[i].log| + 1, s.nodes[i].currentTerm)
    case _ => true
  }

  /** Node i becomes n and a message (or none) is sent. */
  function Update(s: System, i: Addr, n: Node, sent: set<Message>): System {
    s.(nodes := s.nodes[i := n], net := s.net + sent, history := s.history + {n.log})
  }

  ghost function Step(s: System, a: Action): System
    requires Enabled(s, a)
  {
    match a
    case CheckLeaderTick(i) =>
      var n := CheckLeader(s.nodes[i]);
      var s' := Update(s, i, n, {});
      if n.role == Candidate then s'.(voters := s.voters[i := {i}]) else s'
    case AskVote(i, j) =>
      Update(s, i, s.nodes[i], {VoteAsk(j, BuildVoteRequest(s.nodes[i]), s.nodes[i].log)})
    case AnswerVote(m) =>
      var (n, vote) := ReplyRequestVote(s.nodes[m.to], m.ask);
      Update(s, m.to, n, {VoteAnswer(m.ask.from, m.to, m.ask, vote, m.candidateLog, s.nodes[m.to].log)})
    case TakeVote(m) =>
      var o := s.nodes[m.to];
      var n := HandleVoteReply(o, m.vote, |s.nodes|);
      var s' := Update(s, m.to, n, {});
      if n.voteQuorum > o.voteQuorum then s'.(voters := s.voters[m.to := s.voters[m.to] + {m.from}]) else s'
    case SendAppend(i, j, k) =>
      var n := s.nodes[i];
      Update(s, i, n, {AppendAsk(j, BuildAppendRequest(n, j, k), n.log)})
    case AnswerAppend(m, writeOk) =>
      var (n, answer) := ReplyAppendEntries(s.nodes[m.to], m.append, writeOk);
      Update(s, m.to, n, {AppendAnswer(m.append.from, m.to, m.append, m.senderLog, answer, n.log, writeOk)})
    case TakeAppend(m) =>
      Update(s, m.to, HandleAppendReply(s.nodes[m.to], m.from, m.append, m.answer), {})
    case ClientCommand(i, cmd) =>
      Update(s, i, AppendCommand(s.nodes[i], cmd), {})
  }

  /** A freshly started cluster with fixed members: every node a follower that knows no leader
      and has voted for nobody. Terms and logs may be left from before, as long as the logs match. */
  ghost predicate Init(s: System) {
    && s.net == {} && s.voters.Keys == s.nodes.Keys
    && |s.nodes| >= 2
    && (forall i :: i in s.nodes ==> InitNode(s, i))
    && (forall log: seq<Entry> :: log in s.history <==> exists i :: i in s.nodes && s.nodes[i].log == log)
    && (forall i, j :: i in s.nodes && j in s.nodes ==> LogMatch(s.nodes[i].log, s.nodes[j].log))
  }

  ghost predicate InitNode(s: System, i: Addr)
    requires i in s.nodes
  {
    var n := s.nodes[i];
    && i.IsSet() && n.self == i && NextPositive(n) && n.peers.Keys == s.nodes.Keys - {i}
    && n.role == Follower && n.leader == NOBODY && n.voteFor == map[]
  }

  /** A run: every action can happen and meets the premises when its turn comes. */
  ghost predicate Allowed(s: System, actions: seq<Action>)
    decreases |actions|
  {
    actions == [] ||
    (Enabled(s, actions[0]) && Premises(s, actions[0]) && Allowed(Step(s, actions[0]), actions[1..]))
  }

  ghost function Run(s: System, actions: seq<Action>): System
    requires Allowed(s, actions)
    decreases |actions|
  {
    if actions == [] then s else Run(Step(s, actions[0]), actions[1..])
  }
}
