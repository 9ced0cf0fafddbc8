/** Leaders over the whole history of a run. Two nodes can lead one term one after the other: a
    candidate's vote for itself is not in vote_for_, so once it leads it can still grant the term to
    somebody else. A voter that remembers the terms it has led is all it takes to rule that out.
 */
module LeaderHistory {
  import opened RaftTypes
  import opened Handlers
  import opened Protocol
  import ElectionSafety

  /** Who has led in which term so far. */
  type Leaders = set<(nat, Addr)>

  ghost function Leading(s: System): Leaders {
    set i | i in s.nodes && s.nodes[i].role == Leader :: (s.nodes[i].currentTerm, i)
  }

  ghost function Record(s: System, led: Leaders): Leaders { led + Leading(s) }

  /** The guard that the voter lacks: no grant of a term that it has led itself. */
  ghost predicate Unled(s: System, a: Action, led: Leaders)
    requires Enabled(s, a)
  {
    a.AnswerVote? && ReplyRequestVote(s.nodes[a.m.to], a.m.ask).1.granted ==> (a.m.ask.term, a.m.to) !in led
  }

  // ---------------------------------------------------------------- what every run keeps

  /** A majority behind i in this term: i itself perhaps, and nodes that recorded their vote. */
  ghost predicate Majority(s: System, t: nat, i: Addr, q: set<Addr>) {
    q <= s.nodes.Keys && 2 * |q| > |s.nodes.Keys| && forall v :: v in q && v != i ==> ElectionSafety.Voted(s, v, t, i)
  }

  ghost predicate Won(s: System, t: nat, i: Addr) {
    exists q: set<Addr> :: Majority(s, t, i, q)
  }

  ghost predicate LedWon(s: System, led: Leaders) {
    forall t, i :: (t, i) in led ==> Won(s, t, i)
  }

  /** And under the guard: nobody has a recorded vote in a term that it led. */
  ghost predicate LedUnvoted(s: System, led: Leaders) {
    forall t, i :: (t, i) in led ==> i in s.nodes && t !in s.nodes[i].voteFor
  }

  lemma KeysStay(s: System, a: Action)
    requires Enabled(s, a)
    ensures Step(s, a).nodes.Keys == s.nodes.Keys
  {
  }

  /** A vote is recorded by granting it and in no other way. */
  lemma NewVote(s: System, a: Action, i: Addr, t: nat)
    requires Enabled(s, a) && i in s.nodes && t !in s.nodes[i].voteFor
    requires i in Step(s, a).nodes && t in Step(s, a).nodes[i].voteFor
    ensures a.AnswerVote? && a.m.to == i && a.m.ask.term == t && ReplyRequestVote(s.nodes[i], a.m.ask).1.granted
  {
    if a.AnswerVote? { GrantExactly(s.nodes[a.m.to], a.m.ask); }
  }

  lemma LeaderHasWon(s: System, i: Addr)
    requires ElectionSafety.Inv(s) && i in s.nodes && s.nodes[i].role == Leader
    ensures Won(s, s.nodes[i].currentTerm, i)
  {
    assert ElectionSafety.NodeInv(s, i) && ElectionSafety.Backed(s, i);
    assert |s.nodes| == |s.nodes.Keys|;
    assert Majority(s, s.nodes[i].currentTerm, i, s.voters[i]);
  }

  lemma WonStays(s: System, s': System, t: nat, i: Addr)
    requires Won(s, t, i) && s'.nodes.Keys == s.nodes.Keys && ElectionSafety.AllGrow(s, s')
    ensures Won(s', t, i)
  {
    var q :| Majority(s, t, i, q);
    forall v | v in q && v != i
      ensures ElectionSafety.Voted(s', v, t, i)
    {
      assert ElectionSafety.Voted(s, v, t, i) && ElectionSafety.Grows(s.nodes[v], s'.nodes[v]);
    }
    assert Majority(s', t, i, q);
  }

  lemma RecordKeepsWon(s: System, s': System, led: Leaders)
    requires LedWon(s, led) && ElectionSafety.Inv(s') && ElectionSafety.AllGrow(s, s')
    requires s'.nodes.Keys == s.nodes.Keys
    ensures LedWon(s', Record(s', led))
  {
    forall t, i | (t, i) in Record(s', led)
      ensures Won(s', t, i)
    {
      if (t, i) in led {
        WonStays(s, s', t, i);
      } else {
        LeaderHasWon(s', i);
      }
    }
  }

  lemma LeaderUnvoted(s: System, i: Addr)
    requires ElectionSafety.Inv(s) && i in s.nodes && s.nodes[i].role == Leader
    ensures s.nodes[i].currentTerm !in s.nodes[i].voteFor
  {
    assert ElectionSafety.NodeInv(s, i) && ElectionSafety.Backed(s, i);
  }

  lemma GuardKeepsUnvoted(s: System, a: Action, led: Leaders)
    requires Enabled(s, a) && LedUnvoted(s, led) && Unled(s, a, led) && ElectionSafety.Inv(Step(s, a))
    ensures LedUnvoted(Step(s, a), Record(Step(s, a), led))
  {
    var s' := Step(s, a);
    KeysStay(s, a);
    forall t, i | (t, i) in Record(s', led)
      ensures i in s'.nodes && t !in s'.nodes[i].voteFor
    {
      if (t, i) in led {
        if t in s'.nodes[i].voteFor { NewVote(s, a, i, t); }
      } else {
        LeaderUnvoted(s', i);
      }
    }
  }

  // ---------------------------------------------------------------- whole runs

  ghost function LedAfter(s: System, actions: seq<Action>, led: Leaders): Leaders
    requires Allowed(s, actions)
    decreases |actions|
  {
    if actions == [] then led
    else LedAfter(Step(s, actions[0]), actions[1..], Record(Step(s, actions[0]), led))
  }

  ghost predicate Guarded(s: System, actions: seq<Action>, led: Leaders)
    requires Allowed(s, actions)
    decreases |actions|
  {
    actions == [] ||
    (Unled(s, actions[0], led) && Guarded(Step(s, actions[0]), actions[1..], Record(Step(s, actions[0]), led)))
  }

  lemma {:induction false} RunKeepsHistory(s: System, actions: seq<Action>, led: Leaders)
    requires ElectionSafety.Inv(s) && Allowed(s, actions) && LedWon(s, led)
    ensures ElectionSafety.Inv(Run(s, actions)) && LedWon(Run(s, actions), LedAfter(s, actions, led))
    ensures LedUnvoted(s, led) && Guarded(s, actions, led) ==>
      LedUnvoted(Run(s, actions), LedAfter(s, actions, led))
    decreases |actions|
  {
    if actions != [] {
      var s' := Step(s, actions[0]);
      ElectionSafety.StepKeeps(s, actions[0]);
      KeysStay(s, actions[0]);
      RecordKeepsWon(s, s', led);
      if LedUnvoted(s, led) && Unled(s, actions[0], led) {
        GuardKeepsUnvoted(s, actions[0], led);
      }
      RunKeepsHistory(s', actions[1..], Record(s', led));
    }
  }

  /** Two nodes that won one term: one of them has voted for the other. */
  lemma OneVotedForTheOther(s: System, led: Leaders, t: nat, i: Addr, j: Addr)
    requires LedWon(s, led) && (t, i) in led && (t, j) in led && i != j
    ensures ElectionSafety.Voted(s, i, t, j) || ElectionSafety.Voted(s, j, t, i)
  {
    assert Won(s, t, i) && Won(s, t, j);
    var q :| Majority(s, t, i, q);
    var r :| Majority(s, t, j, r);
    ElectionSafety.MajoritiesMeet(q, r, s.nodes.Keys);
    var v :| v in q && v in r;
    assert v != i ==> ElectionSafety.Voted(s, v, t, i);
    assert v != j ==> ElectionSafety.Voted(s, v, t, j);
  }

  lemma OneLed(s: System, led: Leaders, t: nat, i: Addr, j: Addr)
    requires LedWon(s, led) && LedUnvoted(s, led) && (t, i) in led && (t, j) in led
    ensures i == j
  {
    if i != j { OneVotedForTheOther(s, led, t, i, j); }
  }

  /** Over any run, a term has a second leader only if one of the two voted for the other in it. */
  lemma SecondLeaderByVote(s: System, actions: seq<Action>, t: nat, i: Addr, j: Addr)
    requires Init(s) && Allowed(s, actions) && i != j
    requires (t, i) in LedAfter(s, actions, {}) && (t, j) in LedAfter(s, actions, {})
    ensures var e := Run(s, actions); ElectionSafety.Voted(e, i, t, j) || ElectionSafety.Voted(e, j, t, i)
  {
    ElectionSafety.InitInv(s);
    RunKeepsHistory(s, actions, {});
    OneVotedForTheOther(Run(s, actions), LedAfter(s, actions, {}), t, i, j);
  }

  /** One leader per term over all history, if no node grants a term that it has led. */
  lemma OneLeaderPerTermEver(s: System, actions: seq<Action>, t: nat, i: Addr, j: Addr)
    requires Init(s) && Allowed(s, actions) && Guarded(s, actions, {})
    requires (t, i) in LedAfter(s, actions, {}) && (t, j) in LedAfter(s, actions, {})
    ensures i == j
  {
    ElectionSafety.InitInv(s);
    RunKeepsHistory(s, actions, {});
    OneLed(Run(s, actions), LedAfter(s, actions, {}), t, i, j);
  }
}
