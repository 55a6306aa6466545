# multimaster: a verified model

multimaster is a PostgreSQL extension that keeps a cluster of servers as replicas of each other.
This project models its protocols and its hardest data structures in Dafny and proves what they
are for. `dafny verify dfyconfig.toml` checks everything.

- **Generations** (`Generations`, `GenSystem`, `GenInvariant`, `GenProof`, `GenOrder`, `GenSafety`,
  `GenerationState`). Nodes vote for numbered generations, derive donors from the voters'
  `last_online_in`, switch, and come online as a donor or by recovering up to a ParallelSafe record.
  `Generations` holds what each operation does to a node as functions, `GenerationState` the in-place
  operations proved against them, `GenSystem` the transition system made of them: late, repeated and
  lost messages, crashes at every point of a switch, restarts. `GenSafety` proves the two properties of
  generations over all runs, election uniqueness, the voting promise and the soundness of direct aborts.
  `GenExample` and `GenRecovery` are runs of it that take every kind of step.
- **Atomic commit** (`GlobalTx`, `GlobalTxState`, `CommitSystem`, `CommitInvariant`, `CommitProof`, `CommitTour`).
  Coordinator, resolvers with their own terms, phase-1 answers of earlier terms that are never cleared,
  direct aborts. `Cluster` runs it together with generations and proves agreement in every run.
  `ClusterExample` and `ResolverExample` are runs of it: a commit by the coordinator, one by a resolver after a
  crash, an abort by the coordinator, and one from generations alone.
- **Maximum clique** (`CliqueGraph`, `CliqueSearch`, `MaxClique`, `TieBreak`). Bron-Kerbosch with pivoting and
  pruning: the argument on sets, the search as a function that covers every clique, and the in-place version on
  arrays, which returns what the function returns.
- **Syncpoints** (`Syncpoints`, `SyncpointRun`). The table, its queries, its cleanup, and a replicated run
  in which every node sees the others' rows late.
- **Recovery filter and apply** (`RecoveryFilter`, `ApplyRun`, `ApplyKept`, `ApplyMarked`, `ApplyExact`, `ApplyLoss`,
  `Donor`, `ApplyExample`). The filter against the local WAL, and runs of a node that applies the streams of the
  others: receivers in normal mode, which start at the sender's latest syncpoint and use parallel workers; one serial
  receiver in recovery mode, which starts at the recovery horizon and pulls everything a donor has; syncpoints received
  directly or forwarded, receivers that stop, crashes that lose unflushed WAL. `ApplyKept` proves when nothing is lost,
  `ApplyMarked` when nothing is repeated, `ApplyLoss` and `ApplyExact` that both conditions are exact, and `Donor` what
  such a node is worth as a sender.
- **Worker pool** (`WorkerQueue`, `TxList`), **prepare barrier** (`PrepareBarrier`), **message reassembly**
  (`DmqReader`), **spilling** (`Spill`, `SpilledJobs`).

The transition systems use the functions that the in-place methods are proved against, so a property of
all runs is a property of what the methods do. The contracts of the methods say the new state also in words of the
fields, and not only by those functions.

A stream is *marked* when every change of an origin in it has the origin's earlier syncpoints shown before it, by
the syncpoint itself or by its forwarded message. A change is *bypassed* in a donor's stream when the donor has placed
its row about an earlier syncpoint of that origin, some row about every other origin, and a syncpoint of its own, all
after the change: then some reader's horizon lies beyond a change that the reader misses. It is *overtaken* when a
later syncpoint of that origin follows in the stream. `GenSystem.RecoverStep` and `GenSystem.PSStep` assume of a
recovering node that it has every prepare of others that the donor's WAL holds so far. Of a donor that itself read
marked streams this is what `Donor.HorizonStart` and `Donor.HorizonStartOwn` (nothing missing lies before the horizon),
`Donor.EmitsSettled` (nothing is bypassed) and `ApplyKept.NothingLost` establish; for other donors it stays an
assumption of the generation system, and the next section says when it fails.

## Where the code and its comments differ

- The table comment of `mtm.syncpoints` promises both halves of a syncpoint's contract
  (multimaster--1.0.sql:236-242). In all runs the second half, at-most-once apply, skipping what is applied, and
  horizons that hide nothing from readers hold if and only if the streams read are marked
  (`ApplyExact.RowsHoldIffMarked`, `NoRepeatIffMarked`, `SkipsIffMarked`, `Donor.HorizonsIffMarked`). The first half
  holds if and only if no change is overtaken (`ApplyLoss.FirstHalvesIff`), everything passed is applied if and only
  if none is bypassed (`ApplyLoss.NothingPassedIff`), and every change up to a registered syncpoint is applied exactly
  once if and only if streams are marked and no change is overtaken (`ApplyLoss.ExactlyOnceIff`).
- A node that never recovered emits a marked stream (`ApplyExact.DirectNodeEmitsMarked`). One that recovered may not,
  because a forwarded syncpoint is registered and not logged again (src/pglogical_apply.c:251-275).
  `ApplyExample.RecoveredNode` is such a node. `ApplyExample.ReaderFails` is a reader of it that breaks the second half
  and what depends on it, for a syncpoint that it received directly, and `ApplyExample.ChangeLost` a reader of that
  reader that starts at its horizon beyond a change and then registers a syncpoint without it.
- Donors come from all voters, not only from the members of the generation (src/state.c:1420-1431 against the
  comment at src/state.c:103-106). `GenExample.DonorOutside` is a run with a donor that is no member;
  `GenExample.DonorsAreMembers` says exactly when donors are members. The proofs do not assume that they are.
- Of several largest cliques the comment at src/bkb.c:79-80 promises the one with the smallest mask; the strict
  comparison at src/bkb.c:188 discards branches that can only tie. `TieBreak.SmallerMaskLost` is a graph on which
  another one is returned. `MaxClique.OnlyLargest`: a unique largest clique is the one found.
- `MtmGidParseGenNum` scans as hexadecimal what `MtmGenerateGid` prints as decimal (src/commit.c:298 and 309). The
  number comes back exactly when it is a single digit or 2^64-1, where the scan saturates (`Gid.ParsedIffDigit`); 10 is
  read as 16 (`Gid.TenIsReadAsSixteen`). A transaction's generation is a field of the model's transactions.
- A push into the worker queue may leave the tail on the head, and then the full queue looks empty
  (src/bgwpool.c:416-457 against 260). `WorkerQueue` proves that the queue is a FIFO exactly while no accepted
  push does that, and that the first one that does loses work; `WorkerQueue.LandingExample` does it with two jobs just
  below the spill threshold, for every threshold.
- `get_recovery_horizon` is said to be NULL without the sender's node; the query is NULL exactly when there is no
  other node at all (multimaster--1.0.sql:356-369, `Syncpoints.HorizonNull`).

## Model

| member | source | states |
|---|---|---|
| Quorums.QuorumsMeet | src/multimaster.c:1795-1798 | two sets of nodes that both have a quorum of the same configuration share a node |
| Quorums.Quorum | src/multimaster.c:1795-1798 | votes suffice exactly when they are more than half |
| GenSafety.OnlineHoldsAll | src/include/state.h:11-15 | in every run, before its ParallelSafe<n> a node's WAL holds every prepare of an older generation that all members of that generation acknowledged; that a recovering node has the donor's prepares so far is an assumption about donors that did not read marked streams |
| GenSafety.OnlineNodeHolds | src/include/state.h:14-15 | in every run, a node online in its current generation holds every fully acknowledged transaction of every older generation; that a recovering node has the donor's prepares so far is an assumption about donors that did not read marked streams |
| GenSafety.PreparesOrdered | src/include/state.h:12-13 | in every run and at every node, fully acknowledged prepares of a generation lie strictly before prepares of later generations; that a recovering node has the donor's prepares so far is an assumption about donors that did not read marked streams |
| GenSafety.ElectionUnique | src/state.c:1396-1455 | any two elections won with the same number, at any moments of a run, have the same members and configured nodes, with vote reuse, re-confirmation and bumping included |
| GenSafety.VotingPromise | src/state.c:1396-1407 | in every run last_online_in <= current generation <= last_vote, all non-decreasing across crashes; after a vote for n, last_online_in is unchanged until it is at least n |
| GenSafety.ParallelSafeFirst | src/state.c:568-591 | wherever a crash fell in a switch to online, every prepare acknowledged in generation n has ParallelSafe<n> before it in the local WAL |
| GenSafety.PreparerAdmitted | src/state.c:300-339 | a preparer gets in, at the coordinator or in apply, only when ParallelSafe of the current generation is already logged |
| GenSafety.DirectAbortSound | src/state.c:3043-3132 | a transaction that some node answers "aborted" from last_online_in alone is fully acknowledged at no moment of the run, before or after |
| GenExample.DonorsAreMembers | src/state.c:1420-1431 | the donors of a tally are members if and only if every voter outside the members has a last_online_in below that of some voter inside |
| GenExample.DonorOutside | src/state.c:1420-1431 | a run from the start that elects a generation with a donor that is not a member |
| GenRecovery.RecoveredOnline | src/state.c:636-728 | a run in which a node left out of a generation is elected back, recovers the transaction it missed and comes online at the record that follows it |
| GenRecovery.CrashesAndBumps | src/state.c:300-339 | from there runs in which it crashes and comes up as it was, and in which its vote is raised |
| Gid.ParsedIffDigit | src/commit.c:296-312 | the 64-bit number of a generation read back from a transaction identifier is the number printed if and only if it is at most 9 or 2^64-1, the scan saturating at that |
| Gid.TenIsReadAsSixteen | src/commit.c:296-312 | 10 is read back as 16 |
| Gid.DecimalRoundTrip | src/commit.c:296-299 | scanned in decimal the printed number would come back |
| GenSafety.AbortNotCommittable | src/state.c:3112-3124 | in a reachable state, no trace of the PREPARE and a greater last_online_in mean that the transaction cannot become fully acknowledged any more |
| GenOrder.DonorHolds | src/state.c:1396-1407 | a donor of a won election holds every committable transaction of every older generation |
| GenOrder.StepInv | src/state.c:454-728 | every step of every node keeps the invariant of the generation protocol |
| GenProof.SameNumberSameGen | src/state.c:1849-1878 | in a state that meets the invariant, two victories with one number are for one generation |
| GenProof.OneWinner | src/state.c:1314-1325 | a majority of counted votes with a number excludes another generation with that number |
| GenerationState.FirstNode | src/multimaster.c:244-255 | the smallest node of a non-empty mask |
| GenerationState.MtmState.constructor | src/state.c:342-392 | generation 1 with everybody as member and donor, nothing logged |
| GenerationState.MtmState.GetCurrentStatusInGen | src/state.c:733-766 | online, recovery or dead in the current generation, as the protocol's status function says |
| GenerationState.MtmState.ConsiderGenSwitch | src/state.c:454-619 | the whole new state of a switch: generation, donors and raised vote; a donor that is a member of a live generation and has promised no later one is online at once, with its ParallelSafe record; afterwards an online node receives in normal mode, a recovering one from the first of its donors, a dead one not at all; an older generation changes nothing |
| GenerationState.MtmState.SwitchTo | src/state.c:478-619 | the switch proper, with what becomes of last_online_in, the WAL and the receive mode in each case |
| GenerationState.MtmState.HandleParallelSafe | src/state.c:636-728 | a recovering node that gets there in recovery is online with its record logged and receives in normal mode; a node comes online only in the record's generation and only by recovery or as a donor; after a switch on the way the receive mode fits the status, without one nothing is received otherwise than before; a receiver in the wrong mode is told to reconnect |
| GenerationState.MtmState.StateStartup | src/state.c:300-339 | an online node receives in normal mode, a recovering one from the first of its donors, a dead one not at all; a ParallelSafe record that may be missing is logged again |
| GenerationState.MtmState.HandleGenVoteRequest | src/state.c:1818-1967 | granted exactly for a later number that repeats the last vote, or that exceeds it with members of the clique, nobody new but the sender, and nobody thrown out without need while the generation is fine here; last_vote changed only then; a vote that turns recovery into dead stops receiving; a refusal reports last_vote exactly when it stands in the way |
| GenerationState.MtmState.SetCatchupDonor | src/state.c:958-1013 | the greatest last_online_in among connected nodes; the donor is kept if it has that, otherwise the first node that has it becomes the donor |
| GenerationState.MtmState.CampaignMyself | src/state.c:1042-1348 | a candidate exactly when the replier is loaded, no basebackup is being completed, the node is not online seeing everybody, it is in a quorum clique, re-balloting would help and its lag, if it matters, was caught up lately from the right donor; then the candidate generation and the vote for it, an equal last vote reused with its number, with nobody added but oneself and nobody kept outside the clique; otherwise nothing but the receive mode |
| GenerationState.MtmState.Ballot | src/state.c:1236-1333 | the members are oneself and the current members in the clique; no ballot for the same members unless re-voting helps; an equal last vote keeps its number, another is one higher |
| GenerationState.MtmState.BumpLastVote | src/state.c:1478-1492 | last_vote raised to a refusing node's number with empty masks, so that it is never reused |
| GenerationState.Gather | src/multimaster.c:1990-2059 | at most one answer from every node asked, never from oneself, and only for the current number; complete only when everybody asked has answered or is lost, waiting only while somebody has done neither, and given up only after a generation switch |
| GenerationState.TallyVotes | src/state.c:1394-1455 | the number of votes is oneself and the positive answers for the number; a node is a donor exactly when it voted, or is oneself, with a last_online_in that no voter exceeds; the greatest refused number is found |
| GlobalTx.TermCmp | src/global_tx.c:50-69 | any two terms are equal or one is less, by ballot and then by node |
| GlobalTx.TermOrder | src/global_tx.c:50-69 | the comparison is transitive and antisymmetric, hence a total order of terms |
| Cluster.CommitAgreement | src/resolver.c:172-633 | in every run of the whole cluster, whatever messages are lost or repeated and whoever crashes or resolves, all nodes that finish the transaction finish it alike |
| ClusterExample.Commits | src/commit.c:515-640 | a run from the start in which all nodes prepare a transaction, a majority votes, and coordinator and another node commit it |
| ResolverExample.ResolverCommits | src/resolver.c:277-633 | a run in which the coordinator crashes after its precommit and a resolver, asking, deciding and voting with a majority, commits, and all nodes finish alike |
| ResolverExample.CoordinatorAborts | src/resolver.c:172-240 | a run in which a transaction without a precommit is listed and aborted by its coordinator |
| ResolverExample.GenerationsAbort | src/state.c:3043-3132 | a run in which a node of a later generation answers "aborted" and the transaction that stayed behind is aborted |
| Cluster.CommittedIsHeld | src/commit.c:515-568 | a committed transaction was acknowledged by all members of its generation, and every node online in a later generation holds its PREPARE |
| Cluster.DirectAbortAgreement | src/state.c:3112-3124 | after an answer "aborted" given from generations alone nobody finishes the transaction with commit, in any run |
| Cluster.DecreeWellDefined | src/resolver.c:501-547 | whenever a status response is handled, all recorded answers with the greatest accepted term carry one decree, answers of earlier terms included |
| Cluster.Phase2WellDefined | src/resolver.c:594-607 | a completed majority of second phase answers is for the resolver's own term and carries its own decree |
| Cluster.GuardsSuffice | src/commit.c:515-568 | a precommit and an answer "aborted" from generations exclude each other in every reachable state |
| Cluster.StepInv | src/state.c:3043-3132 | every step of generations or of commit keeps the joint invariant |
| CommitInvariant.ChosenAgree | src/include/global_tx.h:48-53 | two decrees chosen by quorums, at whatever terms, are equal |
| CommitInvariant.SettledAgree | src/commit.c:128-146 | an outcome chosen by a quorum and a direct abort never contradict each other |
| CommitInvariant.CommitNeedsPrecommit | src/commit.c:570-580 | commit is chosen only after the coordinator precommitted |
| CommitProof.DecisionSafe | src/resolver.c:489-561 | the decree a resolver takes is safe at its term: no other can be chosen below, commit only after a precommit, and the other decree was never sent at that term |
| CommitProof.MajoritySafe | src/resolver.c:501-547 | from the greatest accepted term on, the answers of the majority rule out any other decree, although stale answers are among those scanned |
| CommitProof.Phase2Decree | src/resolver.c:594-607 | when the second phase completes, a quorum has voted for that decree at that term |
| CommitProof.NotPrecommitted | src/commit.c:128-146 | where the coordinator aborts directly, PRECOMMIT was never sent |
| CommitProof.ListedInTime | src/resolver.c:196-240 | a transaction that finish_ready lists for a direct abort was never precommitted, and the abort stays safe although its state is not looked at again |
| CommitProof.StepInv | src/resolver.c:277-633 | every step of coordinator, resolvers and voters keeps the invariant of the commit protocol |
| GlobalTxState.QuorumReached | src/resolver.c:409-440 | true exactly when the own term was opened by oneself and more than half of the configured number of slots answer for it |
| GlobalTxState.MaxAccepted | src/resolver.c:501-512 | the greatest accepted term among recorded answers |
| GlobalTxState.DecreeOf | src/resolver.c:514-544 | the decree that every recorded answer of that term carries |
| GlobalTxState.Record | src/resolver.c:470-471 | own state and the new answer are in their slots, every other slot as before |
| GlobalTxState.GlobalTransaction.constructor | src/global_tx.c:228-310 | the initial term proposed, nothing accepted, no answers |
| GlobalTxState.GlobalTransaction.Handle1a | src/state.c:2955-2990 | a higher term is promised and answered with the state; otherwise a refusal and no change |
| GlobalTxState.GlobalTransaction.Handle2a | src/state.c:3174-3254 | a vote, recorded as accepted, exactly when the term is not below the promised one |
| GlobalTxState.GlobalTransaction.ApplyPrecommit | src/pglogical_apply.c:793-834 | exactly while nothing but the initial term was promised, PRECOMMIT is accepted and the reply carries that term and PreCommitted; otherwise nothing changes and the reply is a refusal |
| GlobalTxState.GlobalTransaction.Stamp | src/resolver.c:277-377 | a new own term and the first stage, only above the term already promised |
| GlobalTxState.GlobalTransaction.HandleStatusResponse | src/resolver.c:463-578 | a final status finishes; without a majority only the answer is recorded; with one the second phase opens with the decree of the greatest accepted term |
| GlobalTxState.GlobalTransaction.Handle2AResponse | src/resolver.c:579-630 | the transaction is finished exactly when a majority has voted at the resolver's term |
| GlobalTxState.AllPrepared | src/commit.c:515-568 | the coordinator goes on to PRECOMMIT exactly when every member of the generation has replied that it prepared |
| GlobalTxState.PrecommitTour | src/commit.c:593-640 | a replier counts exactly when its reply carries term 1,0 and PreCommitted, and nobody else; commit exactly when these and the coordinator are more than half |
| CommitTour.TourChooses | src/commit.c:593-640 | where counted replies are of real voters, a tour that says commit has found a quorum that has chosen it, and the outcome is settled |
| CommitTour.AckedVoted | src/pglogical_apply.c:793-834 | in a state that meets the invariant, who acknowledged PRECOMMIT has voted for it at the initial term |
| MaxClique.FindMaxClique | src/bkb.c:219-246 | a clique of the graph, and no clique is larger, for every symmetric reflexive graph of fewer than 64 vertices; it terminates, and the clique is the one of the functional search |
| MaxClique.OnlyLargest | src/bkb.c:79-80 | where one largest clique is the only one, the search finds it |
| MaxClique.SearchIsMaximum | src/bkb.c:219-246 | what the functional search finds among all vertices is a clique, and no clique is larger |
| MaxClique.MaximumInWords | src/bkb.c:219-246 | the members of the clique see each other, and no larger set of vertices does |
| TieBreak.SmallerMaskLost | src/bkb.c:187-191 | a graph of four vertices on which the search returns a largest clique that has not the smallest mask |
| MaxClique.GetConnectivityClique | src/state.c:2323-2371 | nodes that all report each other, no larger such set exists, and a single node is oneself |
| MaxClique.Symmetrize | src/state.c:2343-2357 | in place, an edge is left exactly where both ends see each other, self loops set |
| MaxClique.Extend | src/bkb.c:82-206 | in place, the result of the functional search; cur is restored |
| CliqueSearch.SearchCovers | src/bkb.c:60-206 | every clique made of cur and members of P is at most as large as the result of the search unless X extends it; the result is a clique and not smaller than before |
| MaxClique.Turn | src/bkb.c:142-205 | one turn of the branching loop: the vertex moved to X, its branch explored, the next one found, and the end of the loop unchanged |
| MaxClique.Visit | src/bkb.c:159-193 | one branch, descended into, pruned or a leaf, as the functional search has it; cur is restored |
| MaxClique.ChoosePivot | src/bkb.c:95-140 | a pivot of X or P with the fewest branches, their number and the first of them |
| CliqueSearch.PivotIsBest | src/bkb.c:95-140 | no vertex of X or P has fewer non-neighbours in P than the pivot of the search |
| CliqueSearch.Better | src/bkb.c:180-186 | of result and leaf the larger is kept, of two equally large ones that with the smaller mask |
| MaxClique.CountUnseen | src/bkb.c:111-118 | the exact number of non-neighbours below the limit, or that there are at least limit |
| MaxClique.FindNext | src/bkb.c:197-204 | the first remaining vertex that the pivot does not see |
| MaxClique.FormNewSet | src/bkb.c:159-178 | the neighbours of the selected vertex in X and in P, in order |
| CliqueGraph.BranchesSuffice | src/bkb.c:60-81 | exploring the pivot and its non-neighbours is enough: every clique lies in one that meets them |
| CliqueGraph.BranchStep | src/bkb.c:159-195 | exploring one branch on its neighbours covers all maximal cliques through it |
| CliqueGraph.PrunedCovered | src/bkb.c:187-191 | a branch that cannot get larger than the result need not be explored |
| MaxClique.NodeList.Append | src/bkb.c:27-31 | one more node at the end of the list |
| MaxClique.NodeList.CopyFrom | src/bkb.c:33-42 | the contents of the other list |
| MaxClique.ToMask | src/bkb.c:44-57 | the set of the listed nodes |
| Syncpoints.TranslateLsn | multimaster--1.0.sql:303-312 | the latest emitpoint at or before the position, or none exactly when all are later |
| Syncpoints.LatestLsn | multimaster--1.0.sql:319-353 | the greatest registered position, 0 if there is none |
| Syncpoints.HorizonSafe | multimaster--1.0.sql:356-369 | under the contract of the rows, a change still missing locally does not lie before the horizon in the sender's WAL |
| Syncpoints.HorizonNull | multimaster--1.0.sql:356-369 | the horizon is NULL exactly when there is no node but oneself |
| Syncpoints.InsertGrows | src/syncpoint.c:141-171 | registering a newer syncpoint lowers neither the latest position nor any translation |
| Syncpoints.CleanupKeepsLatest | multimaster--1.0.sql:413-434 | cleanup never deletes the owner's latest syncpoint of any origin |
| Syncpoints.CleanupKeepsAnswers | multimaster--1.0.sql:404-434 | cleanup leaves every translation at or above any node's latest syncpoint as it was, with that node's rows as the cleaning node sees them |
| Syncpoints.CleanupOldSyncpoints | multimaster--1.0.sql:396-445 | a row about another node is gone exactly when a newer one of mine lies at or before every other node's latest syncpoint; rows about dropped nodes are gone; everything else is as it was |
| Syncpoints.ObsoleteIff | multimaster--1.0.sql:396-437 | the same of the rows that the conditions of the loop select |
| Syncpoints.OldestIsSomeones | multimaster--1.0.sql:387-394 | the oldest syncpoint of an origin is the latest of some other node, and there is none exactly when there is no other node |
| SyncpointRun.HorizonNeverBack | multimaster--1.0.sql:356-369 | in every run of registrations, cleanups decided on stale copies and late replays, no node's horizon towards any sender moves back; that a registration is beyond the earlier ones of its origin is the guard of that step, and `Donor.RegistersNewer` proves it of receivers in either mode |
| SyncpointRun.CleanupHarmless | multimaster--1.0.sql:387-437 | a deletion decided on a stale view affects no translation that any node can still ask for, now or later in the run |
| SyncpointRun.OwnLatestKept | multimaster--1.0.sql:413-434 | in every run a node's latest syncpoint of an origin only grows along its own operations |
| SyncpointRun.StepInv | src/syncpoint.c:141-188 | every registration, cleanup and replay keeps the invariant of the replicated table |
| SyncpointRun.StepDoes | src/syncpoint.c:141-188 | a registration adds its row to the node's own copy and keeps the others, a cleanup takes out exactly the obsolete ones, a replay brings a copy one operation further |
| RecoveryFilter.SkipIffApplied | src/pglogical_receiver.c:353-436 | corollary of what `LoadFilter` loads: under the contract of the syncpoints a record of a known foreign origin is skipped if and only if its change is in the flushed WAL |
| RecoveryFilter.LoadFilter | src/syncpoint.c:467-660 | the filter holds exactly the transaction records of the wanted origins beyond their syncpoints, from the least local position on |
| RecoveryFilter.ScanStart | src/syncpoint.c:484-490 | the least local position of the syncpoints that have a filter slot |
| ApplyMarked.NothingRepeated | src/syncpoint.c:467-660 | with marked streams, in every run with either mode, receivers stopping and crashes losing unflushed WAL, no change is applied twice |
| ApplyKept.NothingLost | src/pglogical_receiver.c:788-800 | in every run in which receivers start at the recovery horizon or the latest syncpoint, and no change is overtaken, a change the receiver has passed is in the WAL, or a worker is on it, or it is one of those bypassed |
| ApplyLoss.NothingPassedIff | src/pglogical_receiver.c:788-800 | in all runs everything passed is in the WAL or being applied if and only if no sender bypasses a change |
| ApplyLoss.FirstHalvesIff | multimaster--1.0.sql:236-239 | in all runs every registered syncpoint has all changes of its origin up to it before it if and only if no change is overtaken |
| ApplyLoss.ContractIff | multimaster--1.0.sql:236-242 | both halves of the contract hold in all runs if and only if streams are marked and no change is overtaken |
| ApplyLoss.ExactlyOnceIff | multimaster--1.0.sql:236-242 | in all runs every change up to a registered syncpoint is applied, and none twice, if and only if streams are marked and no change is overtaken |
| ApplyLoss.OvertakenIsLost | src/pglogical_receiver.c:788-800 | from any overtaken change: a run that registers a syncpoint beyond it without it |
| ApplyLoss.MarkedBypassNothing | src/pglogical_apply.c:276-313 | marked streams whose rows are placed before the changes that follow their syncpoint bypass nothing |
| ApplyKept.StepKept | src/pglogical_apply.c:221-320 | when no change is overtaken, every step keeps the invariant of nothing lost |
| ApplyKept.SkipsOnlyApplied | src/pglogical_receiver.c:402-436 | in every run, when no change is overtaken, a change that is skipped is already in the WAL |
| ApplyMarked.SkipsApplied | src/pglogical_receiver.c:402-436 | with marked streams and no change overtaken, in every run, what comes next is skipped if and only if it is already in the WAL |
| ApplyKept.RowsKeepFirstHalf | multimaster--1.0.sql:236-239 | in every run, when no change is overtaken, every registered syncpoint, direct or forwarded, has all changes of its origin up to it before it |
| ApplyRun.RowsAdvance | src/pglogical_apply.c:221-320 | in every run, a node registers syncpoints of an origin at growing positions, there and here |
| ApplyMarked.RowsKeepContract | multimaster--1.0.sql:236-242 | with marked streams and no change overtaken, in every run, every registered syncpoint, direct or forwarded, keeps both halves of the contract of its row |
| ApplyExact.RowsHoldIffMarked | multimaster--1.0.sql:240-242 | the second half of the contract holds in all runs if and only if the streams are marked |
| ApplyExact.NoRepeatIffMarked | src/syncpoint.c:467-660 | nothing is applied twice in all runs if and only if the streams are marked |
| ApplyExact.SkipsIffMarked | src/pglogical_receiver.c:402-436 | what is applied is skipped in all runs if and only if the streams are marked |
| ApplyExact.GapFails | src/pglogical_apply.c:251-275 | from any change shown without an earlier syncpoint of its origin: a run that registers against the contract, one that does not skip an applied change, and one that applies it twice |
| ApplyExact.DirectNodeEmitsMarked | src/pglogical_apply.c:276-289 | a node that never recovered, reading marked streams, emits a marked stream |
| ApplyExact.LoggedEmitsMarked | src/pglogical_apply.c:276-289 | so does any node whose registered syncpoints were all logged |
| ApplyExample.RecoveredNode | src/pglogical_apply.c:251-275 | a run in which a node recovers and then has the syncpoint and the change, but emits only the change |
| ApplyExample.ReaderFails | src/pglogical_apply.c:251-275 | runs of a node that recovers from that one and then receives the syncpoint directly: a row, a translation, a reader's horizon, a skip and an apply against the contract |
| ApplyExample.ChangeLost | src/pglogical_receiver.c:788-800 | a run of a reader of that node that starts beyond a change at its horizon and registers a syncpoint beyond the change without it |
| ApplyExample.CrashLoses | src/pglogical_receiver.c:1040-1077 | a run in which a crash loses an applied change that was not flushed |
| ApplyExample.OutOfOrder | src/pglogical_receiver.c:246-253 | a run in which workers finish two changes in the other order |
| Donor.EmitsStream | src/pglogical_apply.c:251-289 | in every run that reads marked streams with no change overtaken, what a node logs of others is made by them, ordered, without repetition, and complete before every forwarded syncpoint, as `ApplyRun` expects of a stream |
| Donor.HorizonStart | multimaster--1.0.sql:356-369 | what a node that read marked streams emits of others before a reader's horizon is covered by the reader's latest syncpoints, although the tables may be stale or cleaned up |
| Donor.HorizonStartOwn | multimaster--1.0.sql:356-369 | and what is the node's own before that horizon ends not beyond the reader's latest syncpoint of the node |
| Donor.EmitsSettled | src/pglogical_apply.c:276-313 | a row of a node lies before the syncpoints it forwards and, if it read marked streams, before the changes of that origin that are beyond the row: it bypasses nothing |
| Donor.HorizonsIffMarked | multimaster--1.0.sql:356-369 | no change that a reader misses lies before the reader's horizon, for all readers and in all runs, if and only if the streams read are marked |
| Donor.TranslationsIffMarked | multimaster--1.0.sql:303-312 | no change beyond a position lies before its translation, in all runs, if and only if the streams are marked |
| Donor.RegistersNewer | src/pglogical_apply.c:221-320 | in a reachable state, a syncpoint about to be registered, direct or forwarded, is newer than all the node has of its origin, which is what `SyncpointRun` demands of a registration |
| Donor.RunOffers | src/pglogical_apply.c:276-289 | in every run a logged syncpoint comes after the earlier syncpoints and forwarded messages of its origin |
| ApplyRun.StepInv | src/pglogical_receiver.c:788-800 | every step of receivers in either mode, starting where the code starts them, of workers and of crashes keeps what holds whether or not streams are marked or changes bypassed: own syncpoints advance, and only registered syncpoints are passed |
| ApplyMarked.StepSafe | src/pglogical_apply.c:221-320 | and, with marked streams, the stronger one of exactly-once apply |
| WorkerQueue.PushIsFifo | src/bgwpool.c:403-458 | an accepted push appends to the queue, with every stored message intact, if and only if it does not leave the tail on the head |
| WorkerQueue.PopIsFifo | src/bgwpool.c:279-308 | a worker gets the oldest message with its size, place and bytes, split at the buffer end or not, and nothing only when there is none |
| WorkerQueue.RunFifo | src/bgwpool.c:279-458 | in every run without such a push, what was popped followed by what is stored is what was pushed, in order |
| WorkerQueue.RoomIff | src/bgwpool.c:403-428 | a message is accepted exactly when no stored byte is where it has to go; an empty queue accepts whatever fits the buffer |
| WorkerQueue.PushWritesThere | src/bgwpool.c:428-458 | an accepted message is written there and nowhere else |
| WorkerQueue.EmptiedAcceptsAll | src/bgwpool.c:300-308 | in every run without such a push, once everything was popped the queue is reset and accepts whatever fits the buffer |
| WorkerQueue.NoWorkMeansDone | src/bgwpool.c:259-276 | and a worker goes to sleep only when everything pushed has been popped |
| WorkerQueue.LandingLosesWork | src/bgwpool.c:456-457 | right after the first push that leaves the tail on the head, a worker goes to sleep with work left |
| WorkerQueue.LandingExample | src/bgwpool.c:61 | for every spill threshold, in the buffer of twice that size, two jobs eight bytes below it make a run that ends with both waiting and every worker asleep |
| WorkerQueue.WorkerPool.TryPush | src/bgwpool.c:403-458 | the bytes, head and tail after one attempt, accepted or not; nothing changes while the list of transactions is full |
| WorkerQueue.WorkerPool.TryPop | src/bgwpool.c:279-308 | the message, head and tail after one attempt, with wrap and reset |
| TxList.List.Store | src/bgwpool.c:572-611 | a free slot is appended to the list, and the links form one chain of exactly the used slots in arrival order; a full list, which only the caller in the pool excludes, is reported and unchanged |
| TxList.List.Remove | src/bgwpool.c:613-664 | that entry leaves the list, wherever it is, and the others keep their order; -1 changes nothing |
| TxList.List.CanCommit | src/bgwpool.c:669-688 | true exactly when no syncpoint is before the entry |
| TxList.List.AtHead | src/bgwpool.c:755-778 | true exactly when everything that arrived earlier has been removed |
| TxList.List.SyncpointAtHead | src/bgwpool.c:702-715 | true exactly when a syncpoint is first, and then everything that arrived earlier has been removed |
| TxList.RemoveLinked | src/bgwpool.c:613-664 | the links after a removal are the links of the shorter list |
| PrepareBarrier.FullHolderExcludes | src/state.c:2571-2687 | in every interleaving, while a full holder is in, no preparer is |
| PrepareBarrier.BackendHolderExcludes | src/state.c:2571-2687 | in every interleaving, a backend holder excludes backend preparers, and apply preparers get in exactly when there is no full holder |
| PrepareBarrier.AnnounceExcludes | src/state.c:2615-2637 | after an announcement no backend preparer gets in; after a full one no apply preparer either; after the other one apply preparers get in exactly as before |
| PrepareBarrier.NoPreparerEnters | src/state.c:2571-2687 | in every interleaving, from the announcement of a full hold to its release, whoever is a preparer was one before, in the same mode |
| PrepareBarrier.HoldsIff | src/state.c:2639-2663 | a waiting holder is let in exactly when the preparers that it excludes have left |
| PrepareBarrier.StepCounted | src/state.c:2571-2687 | after every critical section the four counters are the numbers of processes in each mode |
| PrepareBarrier.Barrier.TryAcquireByPreparer | src/state.c:2571-2607 | acquired exactly when no excluding holder has announced itself |
| PrepareBarrier.Barrier.Announce | src/state.c:2615-2637 | the process becomes a waiting holder of the kind announced, and that counter is raised |
| PrepareBarrier.Barrier.CheckDone | src/state.c:2639-2663 | done exactly when no excluded preparer is inside |
| PrepareBarrier.Barrier.Leave | src/state.c:2668-2687 | the counter of the mode it was acquired in is given back |
| DmqReader.ReadChunks | src/dmq.c:1461-1494 | for every well-formed stream and every way of cutting it, the messages delivered are exactly the payloads complete in the bytes received |
| DmqReader.ChunkingIndependent | src/dmq.c:1461-1494 | two ways of cutting the same bytes deliver the same messages |
| DmqReader.CountIsUnique | src/dmq.c:1150-1181 | how many messages are complete depends on the received bytes only |
| DmqReader.Reader.HaveFullMessage | src/dmq.c:1150-1181 | the next payload exactly when it is complete, with the unread bytes kept through the move |
| DmqReader.Reader.GetMessage | src/dmq.c:1194-1258 | the next payload or that it is incomplete; bytes offered by the socket are read, so there was room |
| DmqReader.Reader.MakeRoom | src/dmq.c:1203-1225 | before every read there is room in the buffer |
| DmqReader.Reader.GetByte | src/dmq.c:1269-1306 | the type byte from the buffer or the socket, and the end of the stream only after the last message |
| DmqReader.LengthRoundTrip | src/dmq.c:1157 | the length word in network order is read back |
| Spill.SpillPreserves | src/pglogical_receiver.c:1017-1077 | for every transaction and every threshold the executor performs exactly the messages received, in order |
| Spill.ReceiveTransaction | src/pglogical_receiver.c:1017-1077 | the buffer, or descriptor and file, carry the transaction, whatever the threshold |
| Spill.Executor | src/pglogical_apply.c:1525-1595 | the action loop performs the carried messages up to and including the commit, through chunk heads, chunk ends and empty chunks |
| Spill.Receiver.Append | src/pglogical_receiver.c:1017-1036 | below the threshold the message joins the buffer; otherwise the buffer becomes a chunk of the file and the message is alone in it; so the buffer is below the threshold or holds one message |
| Spill.Receiver.Finish | src/pglogical_receiver.c:1037-1077 | the job for the executor, below the threshold if it was not spilled, and the receiver ready for the next transaction |
| SpilledJobs.ReceivedJobFits | src/bgwpool.c:61 | for every transaction and every threshold of whole kilobytes, a job that was not spilled fits the worker queue of twice the threshold |
| SpilledJobs.EmptyQueueTakes | src/bgwpool.c:403-428 | and the empty queue takes it |

## Left out

- Referee mode and dynamic membership: the set of configured nodes is fixed, and generations with a single member of two are not balloted for.
- Explicit two-phase commit by users: its outcome is not decided by the protocol.
- Liveness: eventual resolution, convergence of elections, timeouts, retries, waiting on condition variables.
- Tuple encoding, DDL replication, deadlock detection, connections, shared memory plumbing and message packing: messages are values, locks make critical sections atomic.
- WAL files: the WAL is a sequence of records; page headers and segments are not modelled, and the WAL needed by direct aborts and recovery is retained.
- Where a recovering node pulls from: the model lets it take prepares in order from any node, and lets any campaign, vote request or answer happen at any time, which includes what the code does.
- `MtmTwoPhaseCommit`, `process_remote_commit` and `finish_ready` are not methods as a whole: their stages are the steps of `CommitSystem` and `GenSystem`, and their counting loops the methods `AllPrepared` and `PrecommitTour`; order of file access and error reports are not captured.
- Crashes of the commit protocol and of generations are independent steps in `Cluster`: a crash of one node is a crash step in each.
- The basebackup of an added node and the filter it starts from.
- Failed applies: in `ApplyRun` work handed to a worker is finished, or lost when the receiver stops or the node crashes.
- Cleanup of syncpoints in `ApplyRun`: a node keeps the rows it registers; `SyncpointRun` has the cleanup, and `Donor.HorizonStart` allows for rows cleaned up at the sender.
- Readers of nodes that lose or repeat changes: the streams of `ApplyRun` hold no change twice, and what a syncpoint covers comes before it, as `Donor.EmitsStream` shows of nodes that read marked streams with no change overtaken.
- Streams of 2^58 items or more: the exact conditions leave them out, since the failing runs must fit into 64-bit positions.
- The byte encoding of ints in `WorkerQueue` and `Spill`: a stored int occupies four cells that remember it.
- Error exits of the executor loop: a job is one that the receiver made.
- GlobalTxState.GlobalTransaction.HandleStatusResponse: relies on the decree being forced, which `Cluster.DecreeWellDefined` proves of reachable states; the code asserts it.
- GlobalTxState.GlobalTransaction.Handle2AResponse: relies on a completed majority carrying the own decree, which `Cluster.Phase2WellDefined` proves of reachable states; the code asserts it.
- MaxClique.FindMaxClique: does not say, other than by the functional search, which of several largest cliques is returned, because the code does not return the one with the smallest mask.
