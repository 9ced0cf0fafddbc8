# Verified model of the cache server's core

A model in Dafny of the parts of this repository whose correctness needs an inductive argument, and
proofs of what they keep: the Raft core ("floyd") under the cache server, the log it stores on disk,
the apply loop and its locks, the timer engine of the event loop, and the incremental request parser
over the sliding byte buffer. `dafny verify dfyconfig.toml` checks everything.

## How it is put together

Each component has two layers. The lower one is a class with the fields that the C++ object has,
changed in place by methods with the same branches; the upper one is a set of functions on values, and
each method is proved to take the object's value to the function's. What the component promises is
proved about the functions, over whole runs.

| files | what they hold |
|---|---|
| RaftTypes, Quorum, Handlers | the data of the Raft core, and what each critical section under `global_mu` does to one node |
| FloydNode | one server, changed in place |
| Protocol | a cluster: every message ever sent, delivered late, repeatedly, in any order or never; one action per critical section |
| ElectionSafety, VotedLogs, LogMatching, TermOwners | safety over all runs of the cluster |
| Exchanges | whole request-and-reply exchanges between two nodes |
| Electable, LeaderHistory, Counterexamples | that there are runs which elect a leader; leaders over history; and runs that show the premises to be needed |
| LogRepair | the loop of AppendEntries, reply and backtracking between a leader and one follower |
| BitString, Ordering, LogStore, RaftLog | the big-endian keys, the ordered store shared by log and metadata, and recovery |
| StateMachine, Apply, Lease | applying entries with retries, and locks with leases |
| Timers, TimerBatch, TimerRuns, TimerFates, TimerEngine | the timer engine on values, its batches with re-entrant callbacks, runs, what becomes of each timer, and the engine in place |
| Buffer, Resp, RequestHandler | the byte buffer, the parser on byte strings, and the connection |

## Where the code differs from what one might expect

- A candidate's vote for itself is not entered in `vote_for_`. Election safety rests on another fact:
  granting a vote always makes the granter a follower, so a candidate or leader of a term has granted
  nobody in it. That is the invariant of `ElectionSafety`.
- The safety theorems hold over runs with fixed members and no restart that meet `Protocol.Premises`:
  a candidacy counts one grant per peer, no denial older than the candidate's term is handled, and a
  command goes into an (index, term) slot that no log used. `TwoLeadersAtOnce` and `TermFallsExactly`
  show what happens without the first two.
- A leader can vote another node into its own term, for nothing in `vote_for_` says that it has led it;
  `TwoLeadersOfOneTerm` is such a run, and `LogsDiverge` one in which two logs then differ in one slot.
  A voter that grants no term it has led is enough to rule both out: `OneLeaderPerTermEver`, and
  `LogsMatchByOwners`, in which no premise on slots is left.
- A failed write of entries is reported as a success whenever the follower's log is not empty, since
  the store returns the unchanged last index. `MatchIsTruthful` therefore holds if and only if the
  write went through; log matching holds in both cases.
- A follower's commit index can fall. `FollowerCommitMovesExactly` says when,
  `LaggingLeaderLowersCommit` at whose requests, `Apply.LoweredCommitShows` what it does to the apply
  loop, and `Apply.PublishesFoldExactly` when that is harmless.
- Recovery counts five metadata keys from the end. A sixth one, which `GetNewFencingToken` would write,
  makes it read a name as an index (`FencingTokenBreaksRecovery`); nothing in the repository calls it.
  With one to four keys, which a crash during the very first start can leave, the walk steps off the
  front (`FewKeysStepOff`).
- An entry of term 0 past the end of the leader's log would stop the repair of that follower, which is
  why `RepairConverges` is an equivalence.
- The parser looks for CRLF rather than counting the announced bytes, so items that contain CRLF do not
  survive the round trip; `RoundTrip` is an equivalence too.
- `Timer::Reset` of a queued timer loses the timer (`ResetWhileQueuedNeverRuns`,
  `WakeUpLoses`, `LostStaysLost`), so callbacks reset timers that are not queued (`TimerBatch.Lawful`).

The lemmas `GrantExactly`, `ElectedExactly`, `AnswerAppendExactly` and `ReplyMovesPeer` of `Handlers`
are helpers: they read the handlers' branches back in one place, for proofs and for readers.

## Model

| member | source | states |
|---|---|---|
| Quorum.QuorumMatchIndex | example/Mcached/mraft/floyd/src/floyd_peer_thread.cc:178-192 | the loop, the sort and the middle element give the largest index that the leader and enough peers for a strict majority hold, for odd and even clusters alike |
| Quorum.MiddleIsQuorum | example/Mcached/mraft/floyd/src/floyd_peer_thread.cc:190-191 | an index is reached by a strict majority of the leader and its peers if and only if it is at most the middle value of the sorted match indices |
| Quorum.CollectedAll | example/Mcached/mraft/floyd/src/floyd_peer_thread.cc:179-191 | whatever order the peers are visited in, the collected values count as the peers do |
| Handlers.FollowerCommitMovesExactly | example/Mcached/mraft/floyd/src/floyd_impl.cc:862-871 | a follower's commit index moves on accepted requests only, and then to the smaller of the leader's and the last index the request leaves; exactly when it rises and exactly when it falls, read off the node and the request |
| Handlers.LaggingLeaderLowersCommit | example/Mcached/mraft/floyd/src/floyd_impl.cc:862-871 | the heartbeat of any leader whose own commit index lags lowers the commit index of any follower with the same log |
| Handlers.MatchIsTruthful | example/Mcached/mraft/floyd/src/floyd_peer_thread.cc:313-322 | after a success report with entries the follower's log is exactly the sender's log up to the last entry sent, if and only if the follower's store took the write |
| Handlers.AcceptedIsPrefix | example/Mcached/mraft/floyd/src/floyd_impl.cc:901-959 | given log matching, a delivered request leaves a prefix of the receiver's log or of the sender's |
| Handlers.BuiltFromLog | example/Mcached/mraft/floyd/src/floyd_peer_thread.cc:229-278 | a request agrees with the log it was built from on the previous term and on every entry, even when the next index is past the end |
| Handlers.BuiltRequestWellFormed | example/Mcached/mraft/floyd/src/floyd_peer_thread.cc:241-249 | requests that nodes build name term 0 before the first entry, so receivers truncate at index 1 or later |
| Handlers.CommitExactly | example/Mcached/mraft/floyd/src/floyd_peer_thread.cc:313-323 | a reply raises the commit index if and only if it is a success with entries, the last of them of the leader's own term, after which a majority is past the commit index |
| Handlers.CommitAdvances | example/Mcached/mraft/floyd/src/floyd_peer_thread.cc:196-204 | a reply never lowers a leader's commit index, and one that raises it sets it to the largest index held by a strict majority |
| Exchanges.StepsDownExactly | example/Mcached/mraft/floyd/src/floyd_peer_thread.cc:301-323 | over a whole AppendEntries exchange a leader steps down if and only if the other side is of a newer term; it is then a follower of that term that knows no leader |
| Exchanges.FollowsExactly | example/Mcached/mraft/floyd/src/floyd_impl.cc:881-899 | exactly which receivers follow the sender afterwards, and that the others keep their role and leader |
| Exchanges.VoteExchangeExactly | example/Mcached/mraft/floyd/src/floyd_peer_thread.cc:93-176 | over a whole vote exchange: a newer term on the other side makes anybody its follower; otherwise the two logs and the voter's vote of that term decide between a counted vote, which makes a leader exactly at a majority, and a candidacy given up |
| Exchanges.CandidacyIsNextTerm | example/Mcached/mraft/floyd/src/floyd_primary_thread.cc:101-123 | a tick makes a candidate of the very next term with its own vote counted, and nothing of a leader |
| FloydNode.FloydImpl.constructor | example/Mcached/mraft/floyd/src/floyd_impl.cc:332-397 | a started node is a follower that knows no leader, with no votes recorded and one peer per other member, next index just past the recovered log |
| FloydNode.FloydImpl.BecomeFollower | example/Mcached/mraft/floyd/src/floyd_context.cc:28-40 | the field changes refine the handler |
| FloydNode.FloydImpl.BecomeCandidate | example/Mcached/mraft/floyd/src/floyd_context.cc:42-50 | the field changes refine the handler; the vote for itself is not recorded in vote_for_ |
| FloydNode.FloydImpl.BecomeLeader | example/Mcached/mraft/floyd/src/floyd_context.cc:52-56 | the field changes and the restart of the peers' bookkeeping refine the handler |
| FloydNode.FloydImpl.UpdatePeerInfo | example/Mcached/mraft/floyd/src/floyd_peer_thread.cc:72-77 | the loop leaves every peer at the index past the log with nothing matched |
| FloydNode.FloydImpl.LaunchCheckLeader | example/Mcached/mraft/floyd/src/floyd_primary_thread.cc:101-123 | a timed-out follower or candidate starts a candidacy, a leader does nothing |
| FloydNode.FloydImpl.BuildVoteRequest | example/Mcached/mraft/floyd/src/floyd_peer_thread.cc:98-110 | the request carries the term and the last (term, index) of the stored log |
| FloydNode.FloydImpl.ReplyRequestVote | example/Mcached/mraft/floyd/src/floyd_impl.cc:798-860 | the guarded field updates refine the voter's function, state and reply |
| FloydNode.FloydImpl.CheckAndVote | example/Mcached/mraft/floyd/src/floyd_peer_thread.cc:65-70 | counts a vote of the current term only, and wins exactly above half of the members |
| FloydNode.FloydImpl.TakeVoteReply | example/Mcached/mraft/floyd/src/floyd_peer_thread.cc:121-174 | refines the candidate's function, including that a denial of an older term lowers the term |
| FloydNode.FloydImpl.BuildAppendRequest | example/Mcached/mraft/floyd/src/floyd_peer_thread.cc:228-278 | refines the sender's function; no proper part of the batch reaches a limit, and a batch that stops before the end of the log reached one |
| FloydNode.FloydImpl.CollectBatch | example/Mcached/mraft/floyd/src/floyd_peer_thread.cc:261-278 | the loop collects the longest run of stored entries from the next index that the limits allow, at least one when there is one |
| FloydNode.FloydImpl.AdvanceFollowerCommitIndex | example/Mcached/mraft/floyd/src/floyd_impl.cc:862-871 | the commit index becomes the smaller of the leader's and the last stored index |
| FloydNode.FloydImpl.ReplyAppendEntries | example/Mcached/mraft/floyd/src/floyd_impl.cc:873-977 | the role change, both truncations, the append and the commit refine the follower's function, state and reply, for a store that takes the write and one that does not |
| FloydNode.FloydImpl.AcceptEntries | example/Mcached/mraft/floyd/src/floyd_impl.cc:901-959 | the truncations and the append over the stored log compute the function on entry sequences |
| FloydNode.FloydImpl.AdvanceLeaderCommitIndex | example/Mcached/mraft/floyd/src/floyd_peer_thread.cc:196-204 | the commit index becomes the larger of itself and the quorum index |
| FloydNode.FloydImpl.TakeAppendReply | example/Mcached/mraft/floyd/src/floyd_peer_thread.cc:291-347 | refines the sender's function: match index before commit, commit before next index, and the backtracking |
| FloydNode.FloydImpl.DoCommand | example/Mcached/mraft/floyd/src/floyd_impl.cc:571-589 | a command is appended, with the current term, exactly where the recorded leader is this node; without a leader it is refused, elsewhere redirected, and nothing changes; a failed append is reported exactly on an empty log |
| ElectionSafety.SafeElections | example/Mcached/mraft/floyd/src/floyd_impl.cc:798-860 | in every reachable state no two nodes lead in the same term |
| Electable.CanBeElected | example/Mcached/mraft/floyd/src/floyd_peer_thread.cc:93-163 | from any start, a node that is at most one term behind every other and whose log is behind no other's leads after some run that meets the premises, so the safety theorems are about runs that elect leaders |
| Electable.CampaignWins | example/Mcached/mraft/floyd/src/floyd_primary_thread.cc:111-119 | every candidate short of a majority, with the others willing, wins after some run |
| ElectionSafety.OneLeader | example/Mcached/mraft/floyd/src/floyd_peer_thread.cc:65-70 | the invariant and quorum intersection alone exclude two leaders of a term; a common voter would have granted one and demoted itself or granted both |
| ElectionSafety.StepKeeps | example/Mcached/mraft/floyd/src/floyd_peer_thread.cc:121-163 | every action keeps: a candidate or leader of a term has granted nobody in it and is backed by as many recorded votes of others, plus its own, as it counted; and every grant in flight is backed by vote_for_ |
| ElectionSafety.OneVotePerTerm | example/Mcached/mraft/floyd/src/floyd_impl.cc:835-855 | over any run two grants by one node in one term are to the same candidate |
| VotedLogs.GrantedBetween | example/Mcached/mraft/floyd/src/floyd_impl.cc:807-860 | between any two nodes, the request that one builds is granted if and only if the voter's term and log are not ahead, by the logs' own last entries and lengths, and its vote of that term is not somebody else's |
| VotedLogs.GrantsToLogsNotBehind | example/Mcached/mraft/floyd/src/floyd_impl.cc:820-834 | over any run, every grant in flight came from a voter whose log at that moment was not ahead of the log the candidate asked with |
| VotedLogs.ElectedOverMajority | example/Mcached/mraft/floyd/src/floyd_peer_thread.cc:121-163 | over any run, whenever a node is elected its log is not behind the logs that a strict majority held when they voted for it |
| ElectionSafety.LeaderFlagIsRole | example/Mcached/mraft/floyd/src/floyd_impl.cc:219-227 | in every reachable state IsLeader() holds if and only if the role is Leader |
| ElectionSafety.RunGrows | example/Mcached/mraft/floyd/src/floyd_impl.cc:807-843 | over any run a node's term never falls and a recorded vote never changes |
| ElectionSafety.TermFallsExactly | example/Mcached/mraft/floyd/src/floyd_peer_thread.cc:155-159 | a vote reply lowers the term if and only if a candidate handles a denial of an older term, which is why runs exclude it |
| ElectionSafety.RepeatedGrantElects | example/Mcached/mraft/floyd/src/floyd_peer_thread.cc:65-70 | the count does not look at who granted: the grant of one peer handled again and again makes a leader exactly when the repeats pass half of the members |
| Counterexamples.TwoLeadersAtOnce | example/Mcached/mraft/floyd/src/floyd_peer_thread.cc:65-70 | the premise of one counted grant per peer is needed: in every cluster of four that starts even, counting two messages twice makes two leaders of one term at one instant |
| LeaderHistory.OneLeaderPerTermEver | example/Mcached/mraft/floyd/src/floyd_impl.cc:835-855 | over the whole history of a run no term has a second leader, if no voter grants a term that it has led itself |
| LeaderHistory.SecondLeaderByVote | example/Mcached/mraft/floyd/src/floyd_impl.cc:835-855 | over any run, guarded or not, a term has a second leader only if one of the two voted for the other in it |
| Counterexamples.TwoLeadersOfOneTerm | example/Mcached/mraft/floyd/src/floyd_context.cc:42-50 | that guard is needed: in every cluster of three that starts even, a run that meets every premise of election safety has one node lead a term and then vote another into the same term |
| LogRepair.RepairConverges | example/Mcached/mraft/floyd/src/floyd_peer_thread.cc:220-338 | for any starting next index, follower log and batch limits, after at most next index + log length exchanges the follower's log is the leader's and stays so, if and only if the follower has no entry of term 0 past the leader's log and before the next index |
| LogRepair.BlankStalls | example/Mcached/mraft/floyd/src/floyd_peer_thread.cc:241-249 | at such an entry the request is accepted, for it names term 0 where the leader finds nothing, and the exchange repeats for ever |
| LogRepair.PositiveMeansNoBlank | example/Mcached/mraft/floyd/src/floyd_peer_thread.cc:241-249 | a follower whose entries are of positive terms has none |
| LogRepair.CommitFollows | example/Mcached/mraft/floyd/src/floyd_impl.cc:862-871 | one more exchange with a repaired follower makes its commit index the leader's, up or down |
| LogRepair.RepairCommits | example/Mcached/mraft/floyd/src/floyd_peer_thread.cc:220-347 | the loop ends with both logs and both commit indices agreeing, while the leader's commit index may advance on the way |
| LogRepair.RefusalLowersNext | example/Mcached/mraft/floyd/src/floyd_peer_thread.cc:324-337 | each refusal strictly lowers the next index and leaves it at least 1; a request with nothing before it is never refused, so the guard never stalls the loop |
| LogRepair.SuccessPutsInStep | example/Mcached/mraft/floyd/src/floyd_peer_thread.cc:313-323 | after the first success the follower holds exactly what precedes the next index |
| LogRepair.InStepNeverRefused | example/Mcached/mraft/floyd/src/floyd_impl.cc:910-940 | from then on no request is refused |
| LogRepair.NeverStuck | example/Mcached/mraft/floyd/src/floyd_peer_thread.cc:261-278 | some batch is always possible |
| LogRepair.RoundKeepsReady | example/Mcached/mraft/floyd/src/floyd_impl.cc:873-977 | an exchange keeps the leader leading, its log, and log matching between the two |
| LogMatching.LogsAlwaysMatch | example/Mcached/mraft/floyd/src/floyd_impl.cc:901-959 | over any run with late, repeated and reordered deliveries, all logs ever held agree pairwise up to any shared (index, term) |
| LogMatching.StepKeepsLogs | example/Mcached/mraft/floyd/src/floyd_impl.cc:682-693 | every action keeps it, a command when its (index, term) slot was never used |
| LogMatching.DeliveryKeeps | example/Mcached/mraft/floyd/src/floyd_impl.cc:901-959 | delivering any request to any node, whether its store takes the write or not, keeps it |
| LogMatching.SuccessReportsAreTruthful | example/Mcached/mraft/floyd/src/floyd_peer_thread.cc:313-322 | in every reachable state a success report in flight comes from a follower that held exactly the sender's log up to the index it sets, if and only if the store took the write |
| LogMatching.MatchIndexIsTruthful | example/Mcached/mraft/floyd/src/floyd_peer_thread.cc:313-322 | in every reachable state, the match index that a leader sets from a success report counts exactly the entries that the follower shared with the leader's log as it was sent |
| TermOwners.LogsMatchByOwners | example/Mcached/mraft/floyd/src/floyd_impl.cc:682-693 | the same with nothing asked of commands, over runs from a settled start in which only leaders send entries and no voter grants a term that it has led |
| TermOwners.GuardedIsAllowed | example/Mcached/mraft/floyd/src/floyd_impl.cc:682-693 | these runs meet the premises of every other theorem on runs |
| Counterexamples.LogsDiverge | example/Mcached/mraft/floyd/src/floyd_impl.cc:901-959 | that guard is needed: in every cluster of three that starts even, a heartbeat of a term's first leader makes its second leader put two different entries into one (index, term) slot |
| TermOwners.NextSlotUnused | example/Mcached/mraft/floyd/src/floyd_impl.cc:682-690 | while each term has had one leader only, the slot that a leader appends to was never used in its term |
| BitString.RoundTrip | example/Mcached/mraft/floyd/src/raft_log.cc:22-33 | decoding the eight-byte key gives the index back, for every 64-bit index |
| BitString.OrderIsNumeric | example/Mcached/mraft/floyd/src/raft_log.cc:22-27 | the key order of encodings is the numeric order, and different indices have different keys |
| BitString.SmallLeadingByte | example/Mcached/mraft/floyd/src/raft_log.cc:22-27 | an index is below 0x41 * 2^56 if and only if its key starts below 'A', where the metadata names start |
| LogStore.RecoveryExact | example/Mcached/mraft/floyd/src/raft_log.cc:35-52 | a log of at least one entry below that limit is recovered with its length if and only if there are exactly five metadata keys |
| LogStore.RecoversIndex | example/Mcached/mraft/floyd/src/raft_log.cc:35-52 | a new store, and one with the five keys and any number of entries including none, always has keys to step back over and recovers the length |
| LogStore.KeysKeyOrder | example/Mcached/mraft/floyd/src/raft_log.cc:35-52 | below the limit the iterator sees the entries in index order and then the metadata |
| LogStore.AppendExtends | example/Mcached/mraft/floyd/src/raft_log.cc:57-76 | writing the batch extends the stored log by exactly the entries |
| LogStore.TruncateCuts | example/Mcached/mraft/floyd/src/raft_log.cc:120-136 | deleting the keys from an index on leaves exactly the entries before it |
| LogStore.MetaWriteKeepsLog | example/Mcached/mraft/floyd/src/raft_meta.cc:66-137 | metadata writes leave the stored log alone |
| LogStore.FencingTokenBreaksRecovery | example/Mcached/mraft/floyd/src/raft_meta.cc:139-152 | a fencing token beside the five keys makes recovery read a metadata name as an index past any the log can hold, whatever the log holds |
| LogStore.FewKeysStepOff | example/Mcached/mraft/floyd/src/raft_log.cc:35-52 | the five steps back leave the iterator of a non-empty store if and only if it has fewer than five keys, as a crash between the metadata writes of the first start leaves it |
| RaftLog.RecoverIndex | example/Mcached/mraft/floyd/src/raft_log.cc:35-52 | the steps of the iterator are defined exactly when the store is empty or has five keys or more, and then read what the recovery lemmas are about |
| RaftLog.Log.constructor | example/Mcached/mraft/floyd/src/raft_log.cc:35-52 | reopening a store gives a log whose cached last index is the number of entries stored, indices 1 to it |
| RaftLog.Log.Append | example/Mcached/mraft/floyd/src/raft_log.cc:57-76 | a successful append extends the log by the entries and returns the new last index; a failed one changes nothing and returns the old |
| RaftLog.Log.GetEntry | example/Mcached/mraft/floyd/src/raft_log.cc:82-94 | finds exactly the indices 1 to the last, and the entry there |
| RaftLog.Log.GetLastLogTermAndIndex | example/Mcached/mraft/floyd/src/raft_log.cc:96-115 | the last term and index of the stored entries, (0, 0) when there are none |
| RaftLog.Log.TruncateSuffix | example/Mcached/mraft/floyd/src/raft_log.cc:120-136 | keeps exactly the entries before the index and lowers the cached last index to match |
| RaftLog.Meta.Init | example/Mcached/mraft/floyd/src/raft_meta.cc:37-53 | afterwards all five keys exist, values that were there are kept, and the log is untouched |
| Apply.FloydApply.ApplyStateMachine | example/Mcached/mraft/floyd/src/floyd_apply.cc:62-94 | the loop applies the committed entries in order until one fails, and publishes the commit index only when none did |
| Apply.PublishesFoldExactly | example/Mcached/mraft/floyd/src/floyd_apply.cc:75-93 | of any replica, reached in whatever way, an attempt publishes the fold if and only if the database before it differed from the fold up to last_applied at most on keys that the batch writes |
| Apply.RetryIsInvisible | example/Mcached/mraft/floyd/src/floyd_apply.cc:62-94 | from a clean start, for logs of Write, Delete and Read unchanged up to the commit index, under any failures and replays, and failed writes that took effect, whenever last_applied is published the database is the single in-order fold of the entries up to it |
| Apply.FineRange | example/Mcached/mraft/floyd/src/floyd_apply.cc:75-88 | a batch of any entries goes through when the database operations succeed |
| Apply.FineAttempt | example/Mcached/mraft/floyd/src/floyd_apply.cc:62-94 | an attempt whose database operations succeed publishes the commit index, for any log and any database |
| Apply.FineAttemptPublishes | example/Mcached/mraft/floyd/src/floyd_apply.cc:62-94 | and after any run of failures what it publishes is the fold of everything committed |
| Apply.RangeMatches | example/Mcached/mraft/floyd/src/floyd_apply.cc:75-88 | a batch that goes through agrees with the fold on every key it writes, whatever earlier attempts had left there |
| Apply.NextKeeps | example/Mcached/mraft/floyd/src/floyd_apply.cc:62-94 | every attempt, failed or not, keeps the database equal to the fold off the keys of the attempted entries |
| Apply.LoweredCommitShows | example/Mcached/mraft/floyd/src/floyd_impl.cc:862-871 | why the commit index must not fall below what was attempted: a heartbeat built by a lagging leader lowers it, and the database published next is not the fold |
| Lease.ChangesExactly | example/Mcached/mraft/floyd/src/floyd_apply.cc:123-169 | a stored lock changes in one attempt if and only if its holder unlocks it in time or somebody takes it over after its lease end, and the write took effect |
| Lease.GoneMeansReleasedOrExpired | example/Mcached/mraft/floyd/src/floyd_apply.cc:123-169 | over any run with a non-decreasing clock, a lock that is gone was unlocked by its holder in time or its lease had ended |
| Lease.MutualExclusion | example/Mcached/mraft/floyd/src/floyd_apply.cc:123-169 | two holdings of a name by different holders are always separated by expiry or by the first holder's unlock |
| Lease.OkMeansHeld | example/Mcached/mraft/floyd/src/floyd_impl.cc:749-759 | TryLock is answered kOk if and only if the stored lock is exactly the one asked for, and then stays until its lease ends or its holder unlocks |
| Lease.UnLockAnsweredExactly | example/Mcached/mraft/floyd/src/floyd_impl.cc:760-767 | an applied UnLock of a held lock is answered kOk if and only if it came from the holder before the lease end; otherwise nothing changes |
| Lease.TakesExactly | example/Mcached/mraft/floyd/src/floyd_apply.cc:123-147 | a TryLock takes a lock not so held before if and only if the name was free or its lease had ended and the database could be read and written; if applied it is answered kOk exactly then, and otherwise changes nothing |
| Lease.NextTakerHolds | example/Mcached/mraft/floyd/src/floyd_apply.cc:123-169 | over runs, after a release or an expiry the next TryLock by anyone, with working database operations, holds the lock and is answered kOk |
| Lease.CountsExactly | example/Mcached/mraft/floyd/src/floyd_apply.cc:96-169 | an entry counts as applied if and only if every database operation it needs succeeded |
| Timers.ExactlyOnePlace | base/TimerEngine.cpp:99-160 | a timer is registered if and only if it is in the queue or in the batch; never in both, never twice, and queued under the key the index gives |
| Timers.RegisterKeeps | base/TimerEngine.cpp:99-136 | registering keeps that, also from a callback in the middle of a batch |
| Timers.UnregisterKeeps | base/TimerEngine.cpp:138-160 | so does unregistering, which frees only a queued timer and only marks a batched one |
| Timers.CalcNewTimeVal | base/TimerEngine.cpp:16-31 | the armed delay is at least 100 microseconds and otherwise exact, nanoseconds below 10^9 |
| TimerBatch.TakeDueKeeps | base/TimerEngine.cpp:55-68 | moving what is due into the batch keeps the ownership invariant and marks every moved timer expired |
| TimerBatch.SettleKeeps | base/TimerEngine.cpp:74-97 | settling a timer of the batch keeps it: the timer is queued once under its new time, or freed and forgotten |
| TimerBatch.FateOfBatch | base/TimerEngine.cpp:74-97 | a timer of the batch is registered afterwards if and only if no callback unregistered it and it repeats or was re-registered or reset; otherwise it is freed, and every other timer is untouched |
| TimerRuns.BatchExact | base/TimerEngine.cpp:162-180 | one wake-up runs, in key order, exactly the timers due on entry that no earlier callback of the batch unregistered or reset, by a reference that knows no state word, index or queue |
| TimerRuns.ExpectedIsSublist | base/TimerEngine.cpp:168-175 | those are due timers, each at most once and in order, so a batch is bounded by what was due even if callbacks keep registering due timers |
| TimerFates.RegisterExactly | base/TimerEngine.cpp:99-136 | registering queues exactly the unregistered timers with a valid time, under their own time, notes a running one, and refuses anything else; and says which |
| TimerFates.UnregisterExactly | base/TimerEngine.cpp:138-160 | unregistering a queued timer leaves it in neither queue, index nor memory at once; a batched one is only marked; it succeeds exactly for registered timers |
| TimerFates.RegisteredRuns | base/TimerEngine.cpp:99-180 | over runs, a registered timer that nobody unregisters is still queued when its time comes, and the first wake-up that reads that time or a later one runs it, unless an earlier callback of that batch unregisters or resets it |
| TimerFates.DueRunsExactly | base/TimerEngine.cpp:162-175 | a wake-up runs a due timer if and only if no callback that ran before it in the batch unregistered or reset it |
| TimerFates.FateOfDue | base/TimerEngine.cpp:74-97 | every due timer after the wake-up, by a reference that follows only what the callbacks asked for: registered if and only if not unregistered and it repeats, was reset, or registered itself anew; and queued under the time last asked for, or if it repeats an interval past a clock reading |
| TimerFates.RegistersItself | base/TimerEngine.cpp:108-111 | a timer that runs and registers itself anew is registered after the batch, one-shot or not, if nobody unregisters it |
| TimerFates.ResetIsHonoured | base/Timer.cpp:51-57 | a one-shot timer that a callback resets is queued after the batch under exactly the time it was reset to |
| TimerRuns.OpHits | base/Timer.cpp:51-57 | an operation of a callback takes a waiting timer out of the batch if and only if it unregisters or resets it |
| TimerRuns.ResetWhileQueuedNeverRuns | base/Timer.cpp:51-57 | why a queued timer must not be reset: when due it leaves the queue but does not run |
| TimerRuns.ResetWhileQueuedIsLost | base/TimerEngine.cpp:74-97 | settling neither queues it again nor frees it |
| TimerRuns.WakeUpLoses | base/TimerEngine.cpp:162-180 | over a whole wake-up at which it alone is due it does not run, and ends in the index but in no queue |
| TimerRuns.LostStaysLost | base/TimerEngine.cpp:99-136 | from then on registering it is refused, and no operation but unregistering or freeing it changes that |
| TimerRuns.LostThroughTakeDue | base/TimerEngine.cpp:55-68 | nor does a later collection of due timers |
| TimerRuns.LostThroughSettle | base/TimerEngine.cpp:74-97 | nor the settling of another timer |
| TimerRuns.ResetTdRight | base/TimerEngine.cpp:33-53 | arming sets the larger of 100 microseconds and the time to the earliest key, or with an empty queue to a hundred seconds past an earlier reading; never zero |
| TimerRuns.DoKernel | base/TimerEngine.cpp:132-158 | every operation leaves the kernel timer right, re-arming it from a fresh reading whenever the queue changed |
| TimerRuns.Ownership | base/TimerEngine.cpp:99-180 | after any run of calls and wake-ups, with any lawful callbacks, the registered timers are exactly the queued ones, under the key the index gives, all in memory, and the kernel timer is right |
| TimerEngine.Engine.constructor | base/TimerEngine.cpp:11-14 | a new engine owns nothing |
| TimerEngine.Engine.EarlistExpiration | base/TimerEngine.cpp:47-53 | the front of the queue, or a hundred seconds from now |
| TimerEngine.Engine.ResetTd | base/TimerEngine.cpp:33-45 | arms the kernel timer for the time it is given, from a fresh reading |
| TimerEngine.Engine.RegisterTimer | base/TimerEngine.cpp:99-136 | the guarded updates of queue, index and state word refine registration on values |
| TimerEngine.Engine.UnregisterTimer | base/TimerEngine.cpp:138-160 | the same for unregistration, with every assertion of the code proved |
| TimerEngine.Engine.Perform | base/TimerEngine.cpp:162-175 | whatever a callback may do, in place |
| TimerEngine.Engine.RunCallback | base/TimerEngine.cpp:162-175 | a callback's operations, one after the other |
| TimerEngine.Engine.ExpiredTimers | base/TimerEngine.cpp:55-68 | the loop and the erase move exactly the due keys to the end of the batch, in key order |
| TimerEngine.Engine.SettleOne | base/TimerEngine.cpp:75-96 | one turn of the settling loop refines the value-level step, its assertions proved |
| TimerEngine.Engine.RestartTimer | base/TimerEngine.cpp:74-97 | the whole loop settles the whole batch |
| TimerEngine.Engine.Restart | base/Timer.cpp:39-49 | a repeating timer's next time is the clock reading plus its interval |
| TimerEngine.Engine.Process | base/TimerEngine.cpp:162-180 | one wake-up in place refines the wake-up on values, and reports the same timers in the same order |
| TimerEngine.Engine.Destroy | base/TimerEngine.cpp:182-199 | run between events, the destructor frees exactly the registered timers, each once |
| Buffers.Buffer.constructor | base/Buffer.cpp:11-19 | an empty queue with the requested room |
| Buffers.Buffer.Retrieve | base/Buffer.cpp:43-51 | drops exactly the first bytes of the queue |
| Buffers.Buffer.RetrieveAsString | base/Buffer.cpp:68-73 | returns and drops exactly the first bytes |
| Buffers.Buffer.FindChars | base/Buffer.cpp:129-132 | finds the first occurrence in the readable bytes, and none exactly when there is none |
| Buffers.Buffer.Append | base/Buffer.cpp:75-79 | puts the bytes at the end of the queue, however the room for them was made |
| Buffers.Buffer.EnsureWritableBytes | base/Buffer.cpp:85-90 | the queue is unchanged and the code's final assertion holds |
| Buffers.Buffer.MakeSpace | base/Buffer.cpp:112-127 | the queue is unchanged; the vector grows exactly when the free space at both ends does not do, by what is missing, and is compacted in place otherwise, where the code's assertion holds |
| Buffers.Buffer.CopyDown | base/Buffer.cpp:120-122 | the overlapping move towards the front loses no byte |
| Buffers.Buffer.ReadFd | base/Buffer.cpp:134-154 | whatever part of the input landed in the second area, the queue grows by exactly the input; an error changes nothing |
| Resp.ChunkIndependence | example/Mcached/McachedRequestHandler.cpp:64-135 | if parsing some bytes asks for more, resuming on the leftover and further bytes gives the same state, leftover and outcome as parsing all of them at once |
| Resp.ItemsInChunks | example/Mcached/McachedRequestHandler.cpp:93-128 | the same for the item loop, from any point inside a request |
| Resp.OutcomeStands | example/Mcached/McachedRequestHandler.cpp:130-135 | bytes that arrive later never change a request already recognised or refused |
| Resp.FeedIsParse | example/Mcached/McachedRequestHandler.cpp:64-135 | the same for any number of pieces |
| Resp.RoundTrip | example/Mcached/McachedRequestHandler.cpp:64-160 | an encoded list of items followed by any bytes parses back to exactly that list and leaves exactly those bytes if and only if no item contains CRLF; otherwise the request is refused |
| Resp.SplitRoundTrip | example/Mcached/McachedRequestHandler.cpp:64-160 | the same however the bytes are split into read events |
| Resp.RequestMeans | example/Mcached/McachedRequestHandler.cpp:64-135 | any input recognised as a request is a line that announces a count and then the text of so many items, each of the length announced for it; the request is exactly those items and what follows is left over |
| Resp.RequestRead | example/Mcached/McachedRequestHandler.cpp:64-135 | and every such input is recognised, so the two together say exactly what a request is |
| Resp.ReadyPieces | example/Mcached/McachedRequestHandler.cpp:93-128 | the same for the rest of a request, from any point inside it |
| Resp.LengthAnnounced | example/Mcached/McachedRequestHandler.cpp:108-115 | the last line before an item announces exactly its length |
| Resp.RefusedExactly | example/Mcached/McachedRequestHandler.cpp:78-120 | which lines are refused, with which answer, what is left over and that a new request is awaited |
| Resp.AtoiReads | example/Mcached/McachedRequestHandler.cpp:83-109 | announced numbers are read after spaces and a sign, up to the first character that is no digit |
| Resp.OneItem | example/Mcached/McachedRequestHandler.cpp:152-160 | what ReplyBulkString prints is read back as one item, or refused if it contains CRLF |
| Resp.AtoiOfDecimal | example/Mcached/McachedRequestHandler.cpp:83-109 | the length that is printed is the length that is read |
| RequestHandler.McachedClientHandler.constructor | example/Mcached/McachedRequestHandler.cpp:6-11 | a connection starts between requests, whatever the uninitialised length holds |
| RequestHandler.McachedClientHandler.ParseRedisRequest | example/Mcached/McachedRequestHandler.cpp:64-135 | the loop over the buffer refines the parser on byte strings: state, leftover, outcome and what was answered |
| RequestHandler.McachedClientHandler.ParseArgc | example/Mcached/McachedRequestHandler.cpp:69-91 | the first line, the same |
| RequestHandler.McachedClientHandler.ParseArgv | example/Mcached/McachedRequestHandler.cpp:93-134 | the item loop, the same |
| RequestHandler.McachedClientHandler.TakeLine | example/Mcached/McachedRequestHandler.cpp:99-127 | one announced length or one item, the same |
| RequestHandler.McachedClientHandler.ReplyString | example/Mcached/McachedRequestHandler.cpp:148-150 | appends the answer and touches nothing of the read side |
| RequestHandler.McachedClientHandler.ReplyBulkString | example/Mcached/McachedRequestHandler.cpp:152-160 | appends exactly the bulk-string encoding |
| RequestHandler.McachedClientHandler.ReadEvent | example/Mcached/McachedRequestHandler.cpp:13-16 | a read event takes the parser from the old leftover to the old leftover followed by what arrived |
| RequestHandler.McachedClientHandler.ResetArgcArgv | example/Mcached/McachedRequestHandler.h:22-34 | after a request the handler is between requests again |

## Left out

- LogMatching.LogsAlwaysMatch: over runs that meet the premise on slots; `LogsMatchByOwners` replaces it by a guard on votes, and `LogsDiverge` shows that the code without either does not keep it.
- ElectionSafety.SafeElections: over runs that meet the premises on votes, at every instant; `OneLeaderPerTermEver` is about history.
- LogRepair.RepairConverges: the leader keeps leading, the follower's term is not ahead, the logs match at the start, and the follower's store takes its writes; `StepsDownExactly` is about a follower ahead in term.
- LogRepair.RepairCommits: the leader's commit index and match indices are within its log at the start.
- TimerFates.RegisteredRuns: a callback that unregisters or resets the timer earlier in the same batch takes its run away, as `DueRunsExactly` says.
- Leader Completeness and State Machine Safety are not part of this model.
- FloydNode.FloydImpl.constructor: the recovered members, term, vote, commit index and last applied index are parameters.
- FloydNode.FloydImpl.LaunchCheckLeader: not single mode, in which a node makes itself leader; the vote requests it schedules are actions of their own in `Protocol`.
- RaftLog.Log.constructor: a new store, or one with the five metadata keys; for one to four keys the walk is undefined, as `RecoverIndex` reports and `FewKeysStepOff` proves.
- RaftLog.Log.TruncateSuffix: for an index of at least 1 and a store that takes the deletes; `BuiltRequestWellFormed` shows that the requests nodes build satisfy the first.
- RaftLog.Log.Append: up to the largest 64-bit index; wrap-around of indices and terms is not modelled, elsewhere they are unbounded.
- FloydNode.FloydImpl.ReplyAppendEntries: for logs and entries that stay within that index, and for requests whose previous term is 0 when nothing precedes them, as nodes build them (`BuiltRequestWellFormed`); any other would truncate at index 0.
- FloydNode.FloydImpl.AcceptEntries: the same.
- FloydNode.FloydImpl.DoCommand: the address of the node itself is set, and the log stays within that index; waiting for the entry to be applied and sending a redirected command on are not part of this model.
- Apply.FloydApply.ApplyStateMachine: the commit index is within the log, as a miss in `GetEntry` there would reuse the last entry read.
- Apply.RetryIsInvisible: not for lock entries, whose replay depends on the clock, and not after the commit index fell below an attempted entry or the log changed below it; `PublishesFoldExactly` has no such premise.
- Lease.MutualExclusion: on one replica with a non-decreasing clock and names used for locks only; a plain value under such a name is taken to read as an unheld lock with lease end 0.
- FloydNode.FloydImpl.BuildAppendRequest: the entries, which the code reads after releasing the lock, are read in the same step as the rest; the serialized size is a function that the class is given.
- TimerRuns.Ownership: callbacks use no timer that is gone, reset no queued timer and none to an invalid time, and clock readings are positive; a repeating timer's interval is not negative.
- TimerEngine.Engine.Process: timers are values in a memory map addressed by pointer rather than objects, and RestartTimer drops entries from the batch where the code nulls them; a throwing callback ends like a returning one.
- TimerRuns.WakeUpLoses: for a wake-up at which no other timer is due.
- TimerEngine.Engine.UnregisterTimer: the operations inside `assert` are taken to be executed, as in a build without NDEBUG.
- TimerEngine.Engine.ResetTd: a failing `timerfd_settime` and overflow of 64-bit microseconds.
- Buffers.Buffer.ReadFd: what one `readv` returned is a parameter; sizes are unbounded.
- RequestHandler.McachedClientHandler.ReadEvent: one read before the parser looks, where the code reads until nothing is left; and at most one request per event; executing the command (`ExecMcached`) is not part of this model.
- Resp.AtoiOfDecimal: `atoi` beyond the range of int follows the C library in common use, saturating at long and then cutting to int.
- Parsing after an error has been answered.
- Restart during elections: the vote record lives in memory only, and the handlers' writes of term, vote and commit index to the store are not followed (`Meta` has the setters).
- Single mode, and membership changes: AddServer, RemoveServer, GetAllServers, and the Mcached commands of the apply switch.
- Queued vote and append tasks: a task that is queued counts as sent, as the code's own comment has it, so a send is one step.
- The time tests (last contact, heartbeat interval) are parameters that may be true or false at any time.
- The debug line that reads four match indices whatever the number of peers, and all other logging.
- Sockets, epoll, the event loop, ClientPool, FloydWorker, protobuf serialization, options and tools.
