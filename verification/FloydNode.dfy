/** One server of the Raft core, changed in place by its critical sections. Every method is
    proved equal to the handler function of the same purpose.
 */
module FloydNode {
  import opened RaftTypes
  import opened Quorum
  import opened Handlers
  import opened LogStore
  import RaftLog

  /** What becomes of a client's command at a node. */
  datatype Disposal = Appended(last: nat) | AppendFailed | NoLeader | RedirectTo(leader: Addr)

  class FloydImpl {
    const self: Addr
    const memberCount: nat
    const appendEntriesCountOnce: nat
    const appendEntriesSizeOnce: nat
    /** The serialized size of a request that carries these entries. */
    const byteSize: seq<Entry> -> nat
    const raftLog: RaftLog.Log

    var currentTerm: nat
    var role: Role
    var votedFor: Addr
    var leader: Addr
    var voteQuorum: nat
    var commitIndex: nat
    var voteFor: map<nat, Addr>
    var peers: map<Addr, Peer>

    ghost predicate Valid()
      reads this, raftLog, raftLog.db
    {
      && raftLog.Valid()
      && NodeValid(State())
    }

    ghost function State(): Node
      requires raftLog.Valid()
      reads this, raftLog, raftLog.db
    {
      Node(self, currentTerm, role, votedFor, leader, voteQuorum, commitIndex, voteFor, raftLog.Entries(), peers)
    }

    /** Starting a node: the recovered term, vote and commit index, a follower that knows no
        leader, an empty record of votes, and one peer per other member. */
    constructor (self: Addr, members: set<Addr>, raftLog: RaftLog.Log, term: nat, votedFor: Addr, commit: nat,
                 lastApplied: nat, countOnce: nat, sizeOnce: nat, byteSize: seq<Entry> -> nat)
      requires raftLog.Valid() && self in members && |members| >= 2
      ensures Valid() && this.self == self && memberCount == |members| && this.raftLog == raftLog
      ensures State() == Node(self, term, Follower, votedFor, NOBODY, 0, commit, map[], raftLog.Entries(),
                              map p | p in members - {self} :: Peer(|raftLog.Entries()| + 1, lastApplied))
    {
      this.self := self;
      memberCount := |members|;
      this.raftLog := raftLog;
      appendEntriesCountOnce, appendEntriesSizeOnce, this.byteSize := countOnce, sizeOnce, byteSize;
      currentTerm, role, this.votedFor, leader, voteQuorum, commitIndex := term, Follower, votedFor, NOBODY, 0, commit;
      voteFor := map[];
      peers := map p | p in members - {self} :: Peer(raftLog.lastLogIndex + 1, lastApplied);
      new;
      assert peers.Keys == members - {self};
      assert |peers| == |peers.Keys|;
    }

    // -------------------------------------------------------------- context changes

    method BecomeFollower(newTerm: nat, newLeader: Addr)
      requires Valid()
      modifies this
      ensures Valid() && State() == Handlers.BecomeFollower(old(State()), newTerm, newLeader)
    {
      votedFor := newLeader;
      currentTerm := newTerm;
      leader := newLeader;
      role := Follower;
    }

    method BecomeCandidate()
      requires Valid()
      modifies this
      ensures Valid() && State() == Handlers.BecomeCandidate(old(State()))
    {
      currentTerm := currentTerm + 1;
      role := Candidate;
      leader := NOBODY;
      votedFor := self;
      voteQuorum := 1;
    }

    method BecomeLeader()
      requires Valid()
      modifies this
      ensures Valid() && State() == Handlers.BecomeLeader(old(State()))
    {
      role := Leader;
      leader := self;
      UpdatePeerInfo();
      assert peers.Keys == old(peers).Keys;
      assert |peers| == |peers.Keys|;
    }

    /** Restarts the bookkeeping about every peer. */
    method UpdatePeerInfo()
      requires raftLog.Valid()
      modifies this`peers
      ensures peers == FreshPeers(old(peers), |raftLog.Entries()|)
    {
      var rest := peers.Keys;
      while rest != {}
        invariant peers.Keys == old(peers).Keys && rest <= peers.Keys
        invariant forall p :: p in peers && p !in rest ==> peers[p] == Peer(|raftLog.Entries()| + 1, 0)
        decreases rest
      {
        var p :| p in rest;
        peers := peers[p := Peer(raftLog.lastLogIndex + 1, 0)];
        rest := rest - {p};
      }
    }

    /** `timedOut`: the last contact lies longer back than the check-leader interval. */
    method LaunchCheckLeader(timedOut: bool)
      requires Valid()
      modifies this
      ensures Valid()
      ensures State() == if timedOut then CheckLeader(old(State())) else old(State())
    {
      if role == Follower || role == Candidate {
        if timedOut {
          BecomeCandidate();
        }
      }
    }

    // -------------------------------------------------------------- elections

    method BuildVoteRequest() returns (req: VoteRequest)
      requires Valid()
      ensures req == Handlers.BuildVoteRequest(State())
    {
      var lastTerm, lastIndex := raftLog.GetLastLogTermAndIndex();
      req := VoteRequest(self, currentTerm, lastTerm, lastIndex);
    }

    method GrantVote(term: nat, candidate: Addr)
      modifies this`votedFor, this`currentTerm
      ensures votedFor == candidate && currentTerm == term
    {
      votedFor := candidate;
      currentTerm := term;
    }

    method ReplyRequestVote(req: VoteRequest) returns (res: VoteReply)
      requires Valid()
      modifies this
      ensures Valid() && (State(), res) == Handlers.ReplyRequestVote(old(State()), req)
    {
      if req.term > currentTerm {
        BecomeFollower(req.term, NOBODY);
      }
      if req.term < currentTerm {
        return VoteReply(currentTerm, false);
      }
      var myTerm, myIndex := raftLog.GetLastLogTermAndIndex();
      if req.lastLogTerm < myTerm || (req.lastLogTerm == myTerm && req.lastLogIndex < myIndex) {
        return VoteReply(currentTerm, false);
      }
      if req.term in voteFor && voteFor[req.term] != req.from {
        return VoteReply(currentTerm, false);
      }
      voteFor := voteFor[req.term := req.from];
      BecomeFollower(req.term, NOBODY);
      GrantVote(req.term, req.from);
      return VoteReply(currentTerm, true);
    }

    /** Counts a vote of the current term; true when the count passes half of the members. */
    method CheckAndVote(voteTerm: nat) returns (won: bool)
      modifies this`voteQuorum
      ensures voteQuorum == if currentTerm == voteTerm then old(voteQuorum) + 1 else old(voteQuorum)
      ensures won <==> currentTerm == voteTerm && voteQuorum > memberCount / 2
    {
      if currentTerm != voteTerm {
        return false;
      }
      voteQuorum := voteQuorum + 1;
      return voteQuorum > memberCount / 2;
    }

    method TakeVoteReply(res: VoteReply)
      requires Valid()
      modifies this
      ensures Valid() && State() == HandleVoteReply(old(State()), res, memberCount)
    {
      if res.term > currentTerm {
        BecomeFollower(res.term, NOBODY);
        return;
      }
      if role == Candidate {
        if res.granted {
          var won := CheckAndVote(res.term);
          if won {
            BecomeLeader();
          }
        } else {
          BecomeFollower(res.term, NOBODY);
        }
      }
    }

    // -------------------------------------------------------------- log replication

    /** Builds the next request for a peer, unless there is nothing new and the peer heard from
        this node within the heartbeat interval (`recent`). It carries entries until a limit is
        reached, the entry that reaches it included. */
    method BuildAppendRequest(peer: Addr, recent: bool) returns (sent: bool, req: AppendRequest, ghost k: nat)
      requires Valid() && peer in peers && peers[peer].nextIndex <= MAX_INDEX
      ensures sent <==> !(peers[peer].nextIndex > |State().log| && recent)
      ensures sent ==> BatchSize(State().log, peers[peer].nextIndex, k)
      ensures sent ==> req == Handlers.BuildAppendRequest(State(), peer, k)
      ensures sent ==> forall j :: 1 <= j < k ==> !LimitReached(req.entries[..j])
      ensures sent && peers[peer].nextIndex + k <= |State().log| ==> LimitReached(req.entries)
    {
      var nextIndex := peers[peer].nextIndex;
      var prev := nextIndex - 1;
      k := 0;
      if nextIndex > raftLog.lastLogIndex && recent {
        return false, AppendRequest(self, currentTerm, prev, 0, commitIndex, []), 0;
      }
      var prevTerm := PrevTerm(prev);
      var entries := CollectBatch(nextIndex);
      k := |entries|;
      sent, req := true, AppendRequest(self, currentTerm, prev, prevTerm, commitIndex, entries);
    }

    /** The term of the entry before the request's first; 0 where there is none. */
    method PrevTerm(prev: nat) returns (term: nat)
      requires raftLog.Valid() && prev <= MAX_INDEX
      ensures term == TermAt(raftLog.Entries(), prev)
    {
      term := 0;
      if prev != 0 {
        var found, entry := raftLog.GetEntry(prev);
        if found {
          term := entry.term;
        }
      }
    }

    /** The entries from an index on, until a limit is reached. */
    method CollectBatch(nextIndex: nat) returns (entries: seq<Entry>)
      requires raftLog.Valid() && nextIndex >= 1
      ensures BatchSize(raftLog.Entries(), nextIndex, |entries|)
      ensures entries != [] ==> entries == raftLog.Entries()[nextIndex - 1..nextIndex - 1 + |entries|]
      ensures forall j :: 1 <= j < |entries| ==> !LimitReached(entries[..j])
      ensures nextIndex + |entries| <= |raftLog.Entries()| ==> LimitReached(entries)
    {
      ghost var log := raftLog.Entries();
      entries := [];
      var index := nextIndex;
      while index <= raftLog.lastLogIndex
        invariant index == nextIndex + |entries|
        invariant nextIndex <= |log| ==> index <= |log| + 1 && entries == log[nextIndex - 1..index - 1]
        invariant nextIndex > |log| ==> entries == []
        invariant forall j :: 1 <= j <= |entries| ==> !LimitReached(entries[..j])
        decreases |log| + 1 - index
      {
        var found, entry := raftLog.GetEntry(index);
        ghost var before := entries;
        entries := entries + [entry];
        index := index + 1;
        assert forall j :: 1 <= j <= |before| ==> entries[..j] == before[..j];
        assert entries[..|entries|] == entries;
        if |entries| >= appendEntriesCountOnce || byteSize(entries) >= appendEntriesSizeOnce {
          break;
        }
      }
    }

    predicate LimitReached(entries: seq<Entry>) {
      |entries| >= appendEntriesCountOnce || byteSize(entries) >= appendEntriesSizeOnce
    }

    method AdvanceFollowerCommitIndex(leaderCommit: nat)
      requires Valid()
      modifies this`commitIndex
      ensures commitIndex == Min(leaderCommit, |State().log|)
    {
      commitIndex := Min(leaderCommit, raftLog.lastLogIndex);
    }

    method ReplyAppendEntries(req: AppendRequest, writeOk: bool) returns (res: AppendReply)
      requires Valid() && |State().log| + |req.entries| <= MAX_INDEX
      requires req.prevLogIndex == 0 ==> req.prevLogTerm == 0
      modifies this, raftLog, raftLog.db
      ensures Valid() && (State(), res) == Handlers.ReplyAppendEntries(old(State()), req, writeOk)
    {
      if req.term < currentTerm {
        return AppendReply(false, currentTerm, raftLog.lastLogIndex);
      } else if req.term > currentTerm || (req.term == currentTerm && (role == Candidate || (role == Follower && leader.ip == ""))) {
        BecomeFollower(req.term, req.from);
      }
      var ok := AcceptEntries(req.prevLogIndex, req.prevLogTerm, req.entries, writeOk);
      if ok && req.leaderCommit != commitIndex {
        AdvanceFollowerCommitIndex(req.leaderCommit);
      }
      return AppendReply(ok, currentTerm, raftLog.lastLogIndex);
    }

    /** The part of the handler that works on the log. */
    method AcceptEntries(prev: nat, prevTerm: nat, entries: seq<Entry>, writeOk: bool) returns (ok: bool)
      requires raftLog.Valid() && |raftLog.Entries()| + |entries| <= MAX_INDEX
      requires prev == 0 ==> prevTerm == 0
      modifies raftLog, raftLog.db
      ensures raftLog.Valid()
      ensures (raftLog.Entries(), ok) == Handlers.AcceptEntries(old(raftLog.Entries()), prev, prevTerm, entries, writeOk)
    {
      ghost var log := raftLog.Entries();
      if prev > raftLog.lastLogIndex {
        return false;
      }
      if prev < raftLog.lastLogIndex {
        raftLog.TruncateSuffix(prev + 1);
      }
      assert raftLog.Entries() == log[..prev];
      var myTerm := 0;
      if prev != 0 {
        var found, entry := raftLog.GetEntry(prev);
        myTerm := entry.term;
      }
      assert myTerm == TermAt(log, prev);
      if prevTerm != myTerm {
        raftLog.TruncateSuffix(prev);
        assert raftLog.Entries() == log[..prev - 1];
        return false;
      }
      if |entries| > 0 {
        var last := raftLog.Append(entries, writeOk);
        if last <= 0 {
          return false;
        }
      }
      return true;
    }

    method AdvanceLeaderCommitIndex()
      requires |peers| >= 1
      modifies this`commitIndex
      ensures commitIndex == Max(old(commitIndex), QuorumIndex(peers))
    {
      var newCommitIndex := QuorumMatchIndex(peers);
      if commitIndex < newCommitIndex {
        commitIndex := newCommitIndex;
      }
    }

    method TakeAppendReply(peer: Addr, req: AppendRequest, res: AppendReply)
      requires Valid() && peer in peers
      modifies this
      ensures Valid() && State() == HandleAppendReply(old(State()), peer, req, res)
    {
      if role == Leader {
        if res.term > currentTerm {
          BecomeFollower(res.term, NOBODY);
        } else if res.success {
          var num := |req.entries|;
          if num > 0 {
            peers := peers[peer := peers[peer].(matchIndex := req.prevLogIndex + num)];
            if req.entries[num - 1].term == currentTerm {
              AdvanceLeaderCommitIndex();
            }
            peers := peers[peer := peers[peer].(nextIndex := req.prevLogIndex + num + 1)];
          }
        } else {
          var adjust := Min(res.lastLogIndex + 1, peers[peer].nextIndex - 1);
          if adjust > 0 {
            peers := peers[peer := peers[peer].(nextIndex := adjust)];
          }
        }
      }
    }

    // -------------------------------------------------------------- clients

    /** A command is appended only where the recorded leader is this node; otherwise it is refused
        or redirected and nothing changes. A failed append is reported only on an empty log, as the
        store returns the last index it has. */
    method DoCommand(cmd: Command, writeOk: bool) returns (d: Disposal)
      requires Valid() && |State().log| < MAX_INDEX
      requires self.IsSet()
      modifies raftLog, raftLog.db
      ensures Valid()
      ensures d.Appended? || d.AppendFailed? <==> IsLeader(State())
      ensures d.NoLeader? <==> !leader.IsSet()
      ensures d.RedirectTo? ==> d.leader == leader != self
      ensures State() == if writeOk then AppendCommand(old(State()), cmd) else old(State())
      ensures d.Appended? ==> d.last == |State().log|
      ensures d.AppendFailed? <==> IsLeader(State()) && !writeOk && old(State()).log == []
    {
      if leader == self {
        var last := raftLog.Append([Entry(currentTerm, cmd)], writeOk);
        if last <= 0 {
          return AppendFailed;
        }
        return Appended(last);
      } else if leader.ip == "" || leader.port == 0 {
        return NoLeader;
      }
      return RedirectTo(leader);
    }
  }
}
