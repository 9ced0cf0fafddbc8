/** Over a whole run, any two logs that any nodes have ever held agree up to and including every
    position where they hold entries of the same term.
 */
module LogMatching {
  import opened RaftTypes
  import opened Handlers
  import opened Protocol

  ghost predicate HistoryMatches(s: System) {
    forall a: seq<Entry>, b: seq<Entry> :: a in s.history && b in s.history ==> LogMatch(a, b)
  }

  ghost predicate MessageLogs(s: System, m: Message) {
    match m
    case AppendAsk(_, append, senderLog) => senderLog in s.history && FromLog(append, senderLog)
    case AppendAnswer(_, _, append, senderLog, answer, stored, writeOk) =>
      && senderLog in s.history && FromLog(append, senderLog)
      && (answer.success && append.entries != [] ==>
            (stored == senderLog[..append.prevLogIndex + |append.entries|] <==> writeOk))
    case _ => true
  }

  ghost predicate LogInv(s: System) {
    && HistoryMatches(s)
    && (forall i :: i in s.nodes ==> s.nodes[i].log in s.history)
    && (forall m :: m in s.net ==> MessageLogs(s, m))
  }

  lemma InitLogInv(s: System)
    requires Init(s)
    ensures LogInv(s)
  {
    forall a: seq<Entry>, b: seq<Entry> | a in s.history && b in s.history
      ensures LogMatch(a, b)
    {
      var i :| i in s.nodes && s.nodes[i].log == a;
      var j :| j in s.nodes && s.nodes[j].log == b;
      assert LogMatch(s.nodes[i].log, s.nodes[j].log);
    }
  }

  /** A log that matches everything held so far can join the history. */
  lemma Join(s: System, i: Addr, n: Node, sent: set<Message>)
    requires LogInv(s) && i in s.nodes
    requires forall b: seq<Entry> :: b in s.history ==> LogMatch(n.log, b)
    requires forall m :: m in sent ==> MessageLogs(Update(s, i, n, sent), m)
    ensures LogInv(Update(s, i, n, sent))
  {
    var s' := Update(s, i, n, sent);
    forall a: seq<Entry>, b: seq<Entry> | a in s'.history && b in s'.history
      ensures LogMatch(a, b)
    {
      if a == n.log && b == n.log {
        MatchReflexive(a);
      } else if b == n.log {
        MatchSymmetric(b, a);
      }
    }
    forall m | m in s'.net
      ensures MessageLogs(s', m)
    {
      assert m in s.net ==> MessageLogs(s, m);
    }
  }

  /** A prefix of a log held so far matches everything held so far. */
  lemma PrefixJoins(s: System, log: seq<Entry>, held: seq<Entry>)
    requires LogInv(s) && held in s.history
    requires |log| <= |held| && log == held[..|log|]
    ensures forall b: seq<Entry> :: b in s.history ==> LogMatch(log, b)
  {
    forall b: seq<Entry> | b in s.history
      ensures LogMatch(log, b)
    {
      PrefixMatches(held, |log|, b);
    }
  }

  /** So does a log held so far with one more entry in an (index, term) slot nobody used. */
  lemma FreshEntryJoins(s: System, log: seq<Entry>, e: Entry)
    requires LogInv(s) && log in s.history && Unused(s, |log| + 1, e.term)
    ensures forall b: seq<Entry> :: b in s.history ==> LogMatch(log + [e], b)
  {
    forall b: seq<Entry> | b in s.history
      ensures LogMatch(log + [e], b)
    {
      assert 1 <= |log| + 1 <= |b| ==> b[(|log| + 1) - 1].term != e.term;
      forall k | 0 <= k < |log + [e]| && k < |b| && (log + [e])[k].term == b[k].term
        ensures (log + [e])[..k + 1] == b[..k + 1]
      {
        if k < |log| {
          assert LogMatch(log, b) && log[k].term == b[k].term;
          assert (log + [e])[..k + 1] == log[..k + 1];
        }
      }
    }
  }

  lemma SameLogJoins(s: System, i: Addr, n: Node, sent: set<Message>)
    requires LogInv(s) && i in s.nodes && n.log == s.nodes[i].log
    requires forall m :: m in sent ==> MessageLogs(Update(s, i, n, sent), m)
    ensures LogInv(Update(s, i, n, sent))
  {
    PrefixJoins(s, n.log, s.nodes[i].log);
    Join(s, i, n, sent);
  }

  /** Delivering any request, however late or often, to any node. */
  lemma DeliveryKeeps(s: System, m: Message, writeOk: bool)
    requires LogInv(s) && Enabled(s, AnswerAppend(m, writeOk))
    ensures LogInv(Step(s, AnswerAppend(m, writeOk)))
  {
    var o := s.nodes[m.to];
    assert MessageLogs(s, m);
    var (n, answer) := ReplyAppendEntries(o, m.append, writeOk);
    var sent := {AppendAnswer(m.append.from, m.to, m.append, m.senderLog, answer, n.log, writeOk)};
    if m.append.term < o.currentTerm {
      SameLogJoins(s, m.to, n, sent);
    } else {
      AcceptedIsPrefix(o.log, m.append, m.senderLog, writeOk);
      if answer.success && m.append.entries != [] {
        MatchIsTruthful(o, m.append, m.senderLog, writeOk);
      }
      if |n.log| <= |o.log| && n.log == o.log[..|n.log|] {
        PrefixJoins(s, n.log, o.log);
      } else {
        PrefixJoins(s, n.log, m.senderLog);
      }
      Join(s, m.to, n, sent);
    }
  }

  /** A node whose log stays as it is, sending nothing about logs. */
  lemma VoteStepKeeps(s: System, a: Action)
    requires LogInv(s) && Enabled(s, a) && !a.ClientCommand? && !a.AnswerAppend? && !a.SendAppend? && !a.TakeAppend?
    ensures LogInv(Step(s, a))
  {
    match a
    case CheckLeaderTick(i) => SameLogJoins(s, i, CheckLeader(s.nodes[i]), {});
    case AskVote(i, j) => SameLogJoins(s, i, s.nodes[i], {VoteAsk(j, BuildVoteRequest(s.nodes[i]), s.nodes[i].log)});
    case AnswerVote(m) =>
      var (n, vote) := ReplyRequestVote(s.nodes[m.to], m.ask);
      SameLogJoins(s, m.to, n, {VoteAnswer(m.ask.from, m.to, m.ask, vote, m.candidateLog, s.nodes[m.to].log)});
    case TakeVote(m) => SameLogJoins(s, m.to, HandleVoteReply(s.nodes[m.to], m.vote, |s.nodes|), {});
  }

  lemma SendKeeps(s: System, i: Addr, j: Addr, k: nat)
    requires LogInv(s) && Enabled(s, SendAppend(i, j, k))
    ensures LogInv(Step(s, SendAppend(i, j, k)))
  {
    var n := s.nodes[i];
    BuiltFromLog(n, j, k);
    var req := BuildAppendRequest(n, j, k);
    SameLogJoins(s, i, n, {AppendAsk(j, req, n.log)});
  }

  lemma TakeKeeps(s: System, m: Message)
    requires LogInv(s) && Enabled(s, TakeAppend(m))
    ensures LogInv(Step(s, TakeAppend(m)))
  {
    SameLogJoins(s, m.to, HandleAppendReply(s.nodes[m.to], m.from, m.append, m.answer), {});
  }

  lemma CommandKeeps(s: System, i: Addr, cmd: Command)
    requires LogInv(s) && Enabled(s, ClientCommand(i, cmd)) && Premises(s, ClientCommand(i, cmd))
    ensures LogInv(Step(s, ClientCommand(i, cmd)))
  {
    var n := s.nodes[i];
    if IsLeader(n) {
      FreshEntryJoins(s, n.log, Entry(n.currentTerm, cmd));
      Join(s, i, AppendCommand(n, cmd), {});
    } else {
      SameLogJoins(s, i, n, {});
    }
  }

  lemma StepKeepsLogs(s: System, a: Action)
    requires LogInv(s) && Enabled(s, a) && Premises(s, a)
    ensures LogInv(Step(s, a))
  {
    match a
    case SendAppend(i, j, k) => SendKeeps(s, i, j, k);
    case AnswerAppend(m, writeOk) => DeliveryKeeps(s, m, writeOk);
    case TakeAppend(m) => TakeKeeps(s, m);
    case ClientCommand(i, cmd) => CommandKeeps(s, i, cmd);
    case _ => VoteStepKeeps(s, a);
  }

  lemma {:induction false} RunKeepsLogs(s: System, actions: seq<Action>)
    requires LogInv(s) && Allowed(s, actions)
    ensures LogInv(Run(s, actions))
    decreases |actions|
  {
    if actions != [] {
      StepKeepsLogs(s, actions[0]);
      RunKeepsLogs(Step(s, actions[0]), actions[1..]);
    }
  }

  /** Log matching over runs: all logs ever held agree pairwise up to any shared (index, term). */
  lemma LogsAlwaysMatch(s: System, actions: seq<Action>, a: seq<Entry>, b: seq<Entry>)
    requires Init(s) && Allowed(s, actions)
    requires a in Run(s, actions).history && b in Run(s, actions).history
    ensures LogMatch(a, b)
  {
    InitLogInv(s);
    RunKeepsLogs(s, actions);
  }

  /** match_index is truthful when set: in every reachable state, a success report in flight
      with entries comes from a follower whose log was then exactly the leader's log, as it was
      when sent, up to the index that the report sets; if and only if its store took the write. */
  lemma SuccessReportsAreTruthful(s: System, actions: seq<Action>, m: Message)
    requires Init(s) && Allowed(s, actions)
    requires m in Run(s, actions).net && m.AppendAnswer? && m.answer.success && m.append.entries != []
    ensures m.append.prevLogIndex + |m.append.entries| <= |m.senderLog|
    ensures m.stored == m.senderLog[..m.append.prevLogIndex + |m.append.entries|] <==> m.writeOk
  {
    InitLogInv(s);
    RunKeepsLogs(s, actions);
    ReportTruthful(Run(s, actions), m);
  }

  /** So when a leader takes such a report, of a store that took the write, the match index it sets
      counts exactly the entries that the follower then shared with the leader's log as sent. */
  lemma MatchIndexIsTruthful(s: System, actions: seq<Action>, m: Message) returns (n: Node)
    requires Init(s) && Allowed(s, actions)
    requires var e := Run(s, actions);
      && m.AppendAnswer? && m.answer.success && m.append.entries != [] && m.writeOk && Enabled(e, TakeAppend(m))
      && e.nodes[m.to].role == Leader && m.answer.term <= e.nodes[m.to].currentTerm
    ensures n == HandleAppendReply(Run(s, actions).nodes[m.to], m.from, m.append, m.answer)
    ensures m.from in n.peers && n.peers[m.from].matchIndex == |m.stored| <= |m.senderLog|
    ensures m.stored == m.senderLog[..n.peers[m.from].matchIndex]
  {
    SuccessReportsAreTruthful(s, actions, m);
    var o := Run(s, actions).nodes[m.to];
    n := HandleAppendReply(o, m.from, m.append, m.answer);
    MatchSetBy(o, m);
  }

  lemma MatchSetBy(n: Node, m: Message)
    requires m.AppendAnswer? && m.answer.success && m.append.entries != [] && NodeValid(n) && m.from in n.peers
    requires n.role == Leader && m.answer.term <= n.currentTerm
    requires var reached := m.append.prevLogIndex + |m.append.entries|;
      reached <= |m.senderLog| && m.stored == m.senderLog[..reached]
    ensures var n' := HandleAppendReply(n, m.from, m.append, m.answer);
      && m.from in n'.peers && n'.peers[m.from].matchIndex == |m.stored| <= |m.senderLog|
      && m.stored == m.senderLog[..n'.peers[m.from].matchIndex]
  {
    ReplyMovesPeer(n, m.from, m.append, m.answer);
  }

  lemma ReportTruthful(s: System, m: Message)
    requires LogInv(s) && m in s.net && m.AppendAnswer? && m.answer.success && m.append.entries != []
    ensures m.append.prevLogIndex + |m.append.entries| <= |m.senderLog|
    ensures m.stored == m.senderLog[..m.append.prevLogIndex + |m.append.entries|] <==> m.writeOk
  {
    assert MessageLogs(s, m);
  }
}
