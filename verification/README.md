# linpodx: a verified model of cluster, session and admission logic

linpodx runs containers on several hosts. Its daemons replicate a container view through a consensus
engine, keep track of which peers are alive and let them vote, serve clients over a local socket and a
WebSocket, and admit client certificates on first use. This project models that logic in Dafny and proves
what it keeps over every run.

The protocols are state machines: a value-level state, a step per lock section, channel operation or
message, and theorems about every state that a run reaches. Objects that the daemon updates in place are
classes whose methods are proved equal to functions on those values, so the theorems speak of the objects
too. Parsers and printers are functions.

| file | what it holds |
|---|---|
| `Machine`, `Snapshots`, `Replication`, `StoreHistory`, `Divergence`, `Firing` | the replicated state machine, its snapshots, and whole cluster runs |
| `LogStore`, `Votes`, `MemStore` | the log store against a simple sequence, vote recovery, and the store object |
| `MembershipSync`, `VoterSets` | voter reconciliation and what it does to the voter set |
| `Gossip`, `LeaderAudit` | peer liveness and the leadership audit |
| `Approval`, `LocalServer` | the approval handshake and the local connection |
| `WsServer`, `WsUpgrade`, `WsSession` | the daemon's end of a WebSocket against any peer, from the upgrade's headers on, and with a client that makes calls |
| `Tofu`, `TofuEnrolment` | trust on first use: the mode and concurrent upgrades |
| `Args`, `TokenTransport`, `ImageTag` | argument values, token transport, image tags |
| `Ordering`, `Text`, `DebugText` | orders, string operations and `{:?}` texts that the others need |

## Where code and documentation differ

The model follows the code. The members below give the exact condition for each of these and an input that shows it.

- The key codec and with it snapshots and replica agreement need labels without U+0000; nothing rejects them.
- A snapshot carries no revocations, so a node that catches up by snapshot never fires those it skipped.
- The reconciliation round is documented as idempotent and as keeping voters. It drops voters whose label is
  not known locally whenever it promotes, and a repeated round can change the set when the local node is
  reported dead.
- `PeerStore::sweep` is documented to return the number of rows that changed; a row that goes from alive to
  dead in one sweep counts twice.
- `respond` is documented to return true if the daemon was still waiting; it also does after the timer has
  fired and before the entry is removed.
- A certificate whose insert fails is said to be pinned by the code's comment; it is let in unpinned.
- A failed vote write is logged and the save returns as if it had succeeded, so that vote can be lost.
- A request is said never to be swallowed by the handshake check. Sent as the first frame of a session not
  authenticated at the upgrade, a request with the token among its fields opens the session and gets no answer.

## Model

| member | source | states |
|---|---|---|
| `Replication.ReplicaAgreement` | crates/linpodx-cluster/src/election.rs:698-799 | For any number of stores and any interleaving of apply batches, two-phase snapshot builds, shipments and installs over one committed log without NUL in a proposed label, every store equals the replay of the log up to its last applied entry, so stores at the same position agree |
| `Divergence.AgreementExact` | crates/linpodx-cluster/src/election.rs:562-799 | Stores at the same position agree in every run if and only if no container is proposed under a label containing U+0000 |
| `Divergence.UncleanLogDiverges` | crates/linpodx-cluster/src/election.rs:562-571 | For every log with such a label there is a run after which two stores at the same position differ |
| `Replication.SnapshotsConsistent` | crates/linpodx-cluster/src/election.rs:573-612 | Although other steps run between the read and the write phase of a build, every snapshot a store holds restores, on any target, the replayed state at exactly the snapshot's own last log id |
| `StoreHistory.SnapshotIdsUnique` | crates/linpodx-cluster/src/election.rs:591-610 | No store ever uses a snapshot id twice, in any run and for any labels |
| `Firing.RevocationsFired` | crates/linpodx-cluster/src/election.rs:698-756 | A store that never installed a snapshot has fired exactly what the revocation entries below its position say, one for each, in the order of their positions |
| `Firing.InstallSkipsRevocations` | crates/linpodx-cluster/src/election.rs:768-799 | One install preserves that if and only if the entries it skips hold no revocation |
| `Firing.RevocationLost` | crates/linpodx-cluster/src/election.rs:768-799 | For every committed log with a revocation at i some run leaves a store past entry i with nothing fired |
| `Firing.FiringExact` | crates/linpodx-cluster/src/election.rs:698-799 | In every run every store has fired exactly the revocations of its prefix, entry by entry, if and only if the log holds none, whatever the labels |
| `StoreHistory.HeldExactly` | crates/linpodx-cluster/src/election.rs:591-610 | What a store holds changes only by finishing a build, to the snapshot of the captured state under the next counter, and by installing, to the one installed |
| `Replication.NextKeepsInv` | crates/linpodx-cluster/src/election.rs:573-799 | Every step keeps: each machine is a replay, each capture, held snapshot and snapshot in transit describes a replay |
| `StoreHistory.NextKeepsLocal` | crates/linpodx-cluster/src/election.rs:573-799 | Every step keeps, whatever the labels: snapshot ids were made with counters 1, 2, ..., and without installs the fired revocations are those of the prefix |
| `Snapshots.KeyRoundTrip` | crates/linpodx-cluster/src/election.rs:562-571 | Decoding an encoded key gives it back if and only if the label contains no U+0000 |
| `Snapshots.ContainersRoundTrip` | crates/linpodx-cluster/src/election.rs:573-612 | The container map survives encoding and decoding if and only if none of its labels contains U+0000 |
| `Snapshots.SnapshotRoundTrip` | crates/linpodx-cluster/src/election.rs:573-799 | A snapshot taken of a state and installed on any state gives the first back if and only if its labels are free of U+0000 |
| `Snapshots.SnapshotIdsDistinct` | crates/linpodx-cluster/src/election.rs:591-610 | Snapshot ids made with different counters differ, whatever was applied, including nothing |
| `Snapshots.SnapshotIdReads` | crates/linpodx-cluster/src/election.rs:591-610 | An id reads back, from the right, as counter, last applied index and leader |
| `Snapshots.InstallMeaning` | crates/linpodx-cluster/src/election.rs:768-799 | Id and membership come from the metadata; a payload replaces the containers by those it holds under clean labels, without one they stay |
| `Snapshots.Decode` | crates/linpodx-cluster/src/election.rs:780-795 | The rebuilt map holds exactly the keys with clean label whose encoding is in the payload, each with its payload value |
| `Snapshots.DecodeContainers` | crates/linpodx-cluster/src/election.rs:780-795 | The rebuild loop computes that map in whatever order the payload is visited, skipping strings that are no keys |
| `Snapshots.KeysInOrder` | crates/linpodx-cluster/src/election.rs:422-433 | Keys come out strictly increasing and exactly once |
| `Ordering.StringLessMeaning` | crates/linpodx-cluster/src/election.rs:331-345 | The order of map keys: a proper beginning comes first, else the smaller character at the first difference |
| `Machine.BatchingInvisible` | crates/linpodx-cluster/src/election.rs:698-756 | For any split of entries into apply calls, the final state, the concatenated answers and the order of revocations are those of applying the whole sequence |
| `Machine.SplitEqualsOneAtATime` | crates/linpodx-cluster/src/election.rs:698-756 | Any split is indistinguishable from applying entries one at a time |
| `Machine.ReplayMeaning` | crates/linpodx-cluster/src/election.rs:698-756 | A container is in the view exactly when the last entry about its key proposed it, and then with that summary |
| `Machine.Untouched` | crates/linpodx-cluster/src/election.rs:698-756 | Entries that do not name a key leave it as it was |
| `Machine.LastAppliedMeaning` | crates/linpodx-cluster/src/election.rs:698-756 | The last applied id is that of the last entry of whatever kind |
| `Machine.FiresIs` | crates/linpodx-cluster/src/election.rs:698-756 | The revocations collected are the one sequence that gives, in order of position, what each revocation entry says |
| `Machine.MembershipMeaning` | crates/linpodx-cluster/src/election.rs:698-756 | The membership in force is that of the last reconfiguration entry, stamped with its log id |
| `Machine.ResponsesMeaning` | crates/linpodx-cluster/src/election.rs:698-756 | The answer to each entry carries its index and the number of live containers right after it |
| `Machine.ApplyKeepsKeysMatch` | crates/linpodx-cluster/src/election.rs:698-756 | Applying entries keeps every key's second half equal to the id of the summary stored under it |
| `LogStore.LogRefinement` | crates/linpodx-cluster/src/election.rs:536-688 | After every run of append, truncate and purge under the storage contract, the map log refines a sequence with a base: its indices are one block right after the purged id, the reported last id ends it, and range reads return exactly the intersecting entries in order, or panic when the ends are the wrong way round |
| `LogStore.AppendRefines` | crates/linpodx-cluster/src/election.rs:651-660 | Inserting entries one by one appends them to the block |
| `LogStore.TruncateRefines` | crates/linpodx-cluster/src/election.rs:662-672 | Removing the keys from a conflict on cuts the block there, for every id |
| `LogStore.PurgeRefines` | crates/linpodx-cluster/src/election.rs:674-688 | Removing the keys up to an id and moving the purged id drops the front of the block, for every id, including one below or above the block |
| `LogStore.RangeRefines` | crates/linpodx-cluster/src/election.rs:536-549 | A range read returns the block's entries in the range, in index order, for open and closed upper bounds, and panics exactly when the upper end is below the lower |
| `LogStore.LastRefines` | crates/linpodx-cluster/src/election.rs:636-645 | The reported last id is that of the block's last entry, or the purged id of an empty block |
| `LogStore.PurgedMonotone` | crates/linpodx-cluster/src/election.rs:674-688 | The purged id never moves back, on any map and under any operations |
| `LogStore.AppendExact` | crates/linpodx-cluster/src/election.rs:651-660 | Appending past the end is refined by some block if and only if it leaves no hole |
| `MemStorage.MemStore.constructor` | crates/linpodx-cluster/src/election.rs:374-390 | A new store is empty, with the machine in its initial state |
| `MemStorage.MemStore.AppendToLog` | crates/linpodx-cluster/src/election.rs:651-660 | The map log after the loop is the specified one |
| `MemStorage.MemStore.RemoveKeys` | crates/linpodx-cluster/src/election.rs:668-671 | The removal loop removes exactly the collected keys |
| `MemStorage.MemStore.DeleteConflictLogsSince` | crates/linpodx-cluster/src/election.rs:662-672 | The map log is the truncated one |
| `MemStorage.MemStore.PurgeLogsUpTo` | crates/linpodx-cluster/src/election.rs:674-688 | The map log is the purged one |
| `MemStorage.MemStore.GetLogState` | crates/linpodx-cluster/src/election.rs:636-645 | Reports the purged id and the last id |
| `MemStorage.MemStore.TryGetLogEntries` | crates/linpodx-cluster/src/election.rs:536-549 | The collected entries are those of the range in index order; no result on a range that panics |
| `MemStorage.MemStore.ApplyToStateMachine` | crates/linpodx-cluster/src/election.rs:698-756 | State and answers are those of the specification; with a sink exactly what the batch's revocation entries say is fired, in order, after the loop, and nothing without one |
| `MemStorage.MemStore.StateSnapshot` | crates/linpodx-cluster/src/election.rs:422-433 | Reports the last applied index and the ordered view of the containers |
| `MemStorage.ViewLossless` | crates/linpodx-cluster/src/election.rs:422-433 | Where keys match their summaries the view is strictly ordered and holds exactly the pairs of the map |
| `MemStorage.MemStore.SnapshotReadPhase` | crates/linpodx-cluster/src/election.rs:576-590 | Captures payload, last applied id and membership of one and the same state |
| `MemStorage.MemStore.SnapshotWritePhase` | crates/linpodx-cluster/src/election.rs:591-610 | Bumps the counter, names the snapshot with it, and makes it current |
| `MemStorage.MemStore.InstallSnapshot` | crates/linpodx-cluster/src/election.rs:768-799 | Takes id and membership from the metadata and rebuilds the containers, or keeps them when the data is empty or no payload |
| `MemStorage.MemStore.SaveVote` | crates/linpodx-cluster/src/election.rs:618-629 | Memory holds the vote whatever the sink does; the sink holds it when its write succeeds |
| `MemStorage.MemStore.LoadPersistedVote` | crates/linpodx-cluster/src/election.rs:438-452 | Memory takes the persisted vote when it can be loaded, and is left alone otherwise |
| `Votes.DurableExactly` | crates/linpodx-cluster/src/election.rs:618-629 | After any run with crashes and sink failures anywhere, the sink holds the vote of the last save that returned, or of a later one, if and only if no save returned, or some write succeeded after which no save that was written returned |
| `Votes.RecoversLastWritten` | crates/linpodx-cluster/src/election.rs:438-534 | A restart after any run recovers the vote of the last save whose write succeeded, or nothing when the sink cannot be read |
| `Votes.CrashRecoveryExact` | crates/linpodx-cluster/src/election.rs:438-629 | Both together: what a restart recovers, and exactly when it is no older than the last save that returned |
| `Votes.CrashRecovery` | crates/linpodx-cluster/src/election.rs:438-629 | While every write succeeds, a restart recovers the vote of the last save that returned, or of a later one that a crash cut short |
| `Votes.MemoryExact` | crates/linpodx-cluster/src/election.rs:618-634 | While up a node answers with the vote of the last save begun, else with what the restart recovered |
| `Votes.FailedWriteLosesVote` | crates/linpodx-cluster/src/election.rs:618-629 | A save whose sink write fails returns as usual and its vote is gone after a crash |
| `MembershipSync.NodeIdFromString` | crates/linpodx-cluster/src/election.rs:306-323 | The id is 1 exactly for the label local, otherwise the hash, moved up by two where it is below two |
| `MembershipSync.RaftNode.constructor` | crates/linpodx-cluster/src/election.rs:932-1017 | A node starts with its own label, and as the only voter when it bootstraps and the engine lets it |
| `MembershipSync.RaftNode.AddLearner` | crates/linpodx-cluster/src/election.rs:1048-1101 | Records the label under its id whatever the engine answers; adds the learner when it is no member and the engine accepts; succeeds for a member without asking |
| `MembershipSync.RaftNode.PromoteToVoter` | crates/linpodx-cluster/src/election.rs:1143-1163 | Replaces the voters by the local node and the ids of the labels, which are then no learners, or changes nothing when the engine refuses |
| `MembershipSync.RaftNode.PromoteWithAudit` | crates/linpodx-cluster/src/election.rs:1169-1199 | Returns in order the labels whose ids were not voters before, when the engine accepts |
| `MembershipSync.RaftNode.RemoveNode` | crates/linpodx-cluster/src/election.rs:1203-1252 | Removes the id from voters and labels unless no voter would remain or the engine refuses |
| `MembershipSync.RaftNode.Decide` | crates/linpodx-cluster/src/gossip.rs:181-209 | Collects the promotion and removal candidates in peer order |
| `MembershipSync.RaftNode.RemoveVoters` | crates/linpodx-cluster/src/gossip.rs:229-237 | Removes voters one by one and reports those removed |
| `MembershipSync.RaftNode.SyncRound` | crates/linpodx-cluster/src/gossip.rs:175-238 | The whole round, for any engine answers, with the promoted and removed labels it reports |
| `VoterSets.SyncRoundExact` | crates/linpodx-cluster/src/gossip.rs:175-238 | With every voter labelled the new voters are exactly the old ones plus eligible alive peers, plus the local node when anyone is promoted, minus dead voters, or one dead voter when nothing else is left |
| `VoterSets.JoinsExactly` | crates/linpodx-cluster/src/gossip.rs:188-199 | Another node joins the voters if and only if some row says it is alive and joined at least promote_after ago |
| `VoterSets.SelfJoinsExactly` | crates/linpodx-cluster/src/election.rs:1143-1163 | The local node joins if and only if such a row is about a node that is no labelled voter |
| `VoterSets.VoterDroppedExactly` | crates/linpodx-cluster/src/gossip.rs:211-227 | A voter not reported dead is dropped if and only if somebody is promoted and it is not local, unlabelled, and not itself promoted |
| `VoterSets.RoundIs` | crates/linpodx-cluster/src/gossip.rs:175-238 | With or without labels the new voters are exactly the local node, the labelled voters and the promoted peers when anyone is promoted, else the old voters, minus the labelled dead ones, or one of these when nothing else is left |
| `VoterSets.VoterDroppedCounterexample` | crates/linpodx-cluster/src/gossip.rs:211-227 | For any label hash, a round that drops a voter nobody reported dead |
| `VoterSets.PromotedLabels` | crates/linpodx-cluster/src/election.rs:1169-1199 | The labels reported as promoted are exactly the candidates, in order |
| `VoterSets.NewlyMeaning` | crates/linpodx-cluster/src/election.rs:1169-1199 | A promotion reports, in order, exactly the labels whose ids were no voters before |
| `VoterSets.RemovedMeaning` | crates/linpodx-cluster/src/gossip.rs:229-237 | The labels reported as removed are, in order, exactly those whose removal the engine accepted and that left a voter |
| `VoterSets.RemoveAllExactly` | crates/linpodx-cluster/src/election.rs:1203-1252 | With any engine answers exactly the ids of the accepted removals leave the voters and the labels |
| `VoterSets.SyncRoundSafe` | crates/linpodx-cluster/src/gossip.rs:175-238 | Whatever engine calls fail, the voter set never empties, gains only eligible peers and the local node, and keeps every labelled voter not reported dead |
| `VoterSets.RunKeepsVoters` | crates/linpodx-cluster/src/gossip.rs:175-238 | Over every run of learner additions and rounds with any failures the label map stays true to the ids and a cluster with a voter keeps one |
| `VoterSets.SecondRoundExact` | crates/linpodx-cluster/src/gossip.rs:159-174 | An immediate second round leaves the voters unchanged if and only if not (somebody is promoted, the local node is reported dead under a known label, and it either does not vote or some promoted peer has no label); labelled voters are not assumed |
| `VoterSets.SecondRoundCounterexample` | crates/linpodx-cluster/src/gossip.rs:159-174 | For any label hash, an input on which the second round changes the voters |
| `VoterSets.RemoveAllMeaning` | crates/linpodx-cluster/src/election.rs:1203-1252 | Removing voters one by one removes exactly the listed ones, or stops at a last voter |
| `Gossip.DeadStaysDead` | crates/linpodx-cluster/src/gossip.rs:31-107 | In every interleaving of one gossip loop with joins, departures and restarts, a peer that is dead or gone stays so until it joins again, although replies arrive after the listing |
| `Gossip.ImprovesOnlyWhenHeard` | crates/linpodx-cluster/src/gossip.rs:31-107 | In every run a status improves only by joining again, or from stale to alive by answering a ping |
| `Gossip.NextKeepsInv` | crates/linpodx-cluster/src/gossip.rs:39-64 | No peer still to be pinged has died since it was listed |
| `Gossip.PingedMeaning` | crates/linpodx-cluster/src/gossip.rs:31-65 | A round marks alive and just seen exactly the listed peers that were not dead and replied, and adds or removes none |
| `Gossip.JoiningTimeFixed` | crates/linpodx-sandbox/src/cluster_store.rs:73-80 | Over every run through which a peer stays in the table its joining time stays as it was, re-joins included |
| `Gossip.JoinMeaning` | crates/linpodx-sandbox/src/cluster_store.rs:52-120 | Joining leaves the peer alive, just seen and at the new address with the time of its first join, and no other row changes; a blank id or address changes nothing |
| `Gossip.SweepMeaning` | crates/linpodx-sandbox/src/cluster_store.rs:166-198 | The two updates together make a peer stale or dead exactly when it was unheard of for more than the given seconds, negative ones counting as none, and change nothing else |
| `Gossip.SweepSteps` | crates/linpodx-cluster/src/gossip.rs:89-104 | The loop's two sweep steps, undisturbed, are the sweep |
| `Gossip.RoundSteps` | crates/linpodx-cluster/src/gossip.rs:39-64 | The loop's ping steps, undisturbed, are the round |
| `Gossip.TableSteps` | crates/linpodx-sandbox/src/cluster_store.rs:122-145 | Joining and leaving during a run do to the table what the store's calls do |
| `Gossip.SweepsCombine` | crates/linpodx-cluster/src/gossip.rs:67-76 | Sweeping at one time and again at the same or a later time is the same as sweeping once at the later time |
| `Gossip.SweepCountExact` | crates/linpodx-sandbox/src/cluster_store.rs:166-198 | The reported count is the number of rows that changed if and only if no peer goes from alive to dead in the sweep |
| `Gossip.SweepCountCounterexample` | crates/linpodx-sandbox/src/cluster_store.rs:166-198 | A concrete sweep that reports two for one changed row |
| `Gossip.ClusterStore.constructor` | crates/linpodx-sandbox/src/cluster_store.rs:29-33 | The store wraps the table it is given |
| `Gossip.ClusterStore.Upsert` | crates/linpodx-sandbox/src/cluster_store.rs:52-120 | Refuses blank ids and addresses; otherwise the row is alive and just seen, and a known node keeps its joining time |
| `Gossip.ClusterStore.Remove` | crates/linpodx-sandbox/src/cluster_store.rs:122-145 | Deletes the row and says whether there was one |
| `Gossip.ClusterStore.TouchSeen` | crates/linpodx-sandbox/src/cluster_store.rs:147-164 | Marks a known row alive and just seen, and adds none |
| `Gossip.ClusterStore.Sweep` | crates/linpodx-sandbox/src/cluster_store.rs:166-198 | Both updates, and the sum of the rows each affected |
| `Gossip.ClusterStore.RunRound` | crates/linpodx-cluster/src/gossip.rs:31-65 | The ping loop touches, in order, exactly the listed peers not dead that replied |
| `LeaderAudit.MetricPump` | crates/linpodx-cluster/src/election.rs:1521-1566 | For every sequence of observations the trail holds exactly the changes of leadership in order, alternates from Elected, and has odd length exactly when the last observation is Leader |
| `LeaderAudit.Balance` | crates/linpodx-cluster/src/election.rs:1521-1566 | In an alternating trail elections minus losses is the parity of its length |
| `Approval.AcceptedAtMostOnce` | crates/linpodx-daemon/src/approval.rs:51-115 | In every interleaving no registration is answered by two accepted responses |
| `Approval.ResultIsTheAcceptedOne` | crates/linpodx-daemon/src/approval.rs:51-115 | A request that comes back granted or denied carries the outcome of the one respond call that took its sender, made for its own id |
| `Approval.BroadcastsMatch` | crates/linpodx-daemon/src/approval.rs:51-74 | Resolved broadcasts and accepted responses match one to one, with the same id and outcome |
| `Approval.NoLeak` | crates/linpodx-daemon/src/approval.rs:78-115 | Every pending entry belongs to a request still in flight |
| `Approval.DeliveredExactlyWhenWaiting` | crates/linpodx-daemon/src/approval.rs:51-115 | A delivered answer is the request's result if and only if the request was waiting at delivery, or was not yet fanned out and the fan-out then reached a listener |
| `Approval.EarlyFate` | crates/linpodx-daemon/src/approval.rs:78-115 | An answer delivered before the fan-out is the result if and only if the fan-out reaches a listener |
| `Approval.NoListenerExactly` | crates/linpodx-daemon/src/approval.rs:87-97 | A finished request reports that nobody listened if and only if its fan-out reached nobody |
| `Approval.ReplacedNeverAnswered` | crates/linpodx-daemon/src/approval.rs:78-86 | Registering an id that is still pending ends the older request unanswered in every run |
| `Approval.AcceptedButTimedOut` | crates/linpodx-daemon/src/approval.rs:48-74 | A run in which respond returns true although the request times out |
| `Approval.SenderNeverDropped` | crates/linpodx-daemon/src/approval.rs:95-115 | While request ids are distinct a waiting request never sees its sender dropped |
| `Approval.NextKeepsInv` | crates/linpodx-daemon/src/approval.rs:51-115 | Every step keeps the pending map, the responders, the channels and the broadcasts consistent |
| `Approval.ApprovalRegistry.constructor` | crates/linpodx-daemon/src/approval.rs:29-38 | The registry starts empty |
| `Approval.ApprovalRegistry.Respond` | crates/linpodx-daemon/src/approval.rs:51-74 | Accepts exactly when a sender is filed under the id, and then delivers and broadcasts once |
| `Approval.ApprovalRegistry.Register` | crates/linpodx-daemon/src/approval.rs:78-86 | Files the sender, dropping one already filed under the id |
| `Approval.ApprovalRegistry.DropExpired` | crates/linpodx-daemon/src/approval.rs:104-115 | Removes what is filed under the id and reports a timeout |
| `Approval.CombineVerdicts` | crates/linpodx-daemon/src/approval.rs:197-215 | The first deny wins, else the first allow, else nobody decides |
| `WsServer.NothingBeforeToken` | crates/linpodx-daemon/src/remote.rs:435-645 | Whatever the peer sends, the session opens if and only if the bearer token or the query token equals the daemon's, or the first frame is an object whose auth string does; until then nothing is answered and no acknowledgement sent |
| `WsServer.NothingAfterClose` | crates/linpodx-daemon/src/remote.rs:511-640 | A close is the last frame read; a session refused at its first frame has read nothing else and sent an error and a close for a text, a close alone otherwise |
| `WsServer.AnswersWhatIsOwed` | crates/linpodx-daemon/src/remote.rs:435-645 | Whatever the peer sends, an open session has answered exactly the text frames but one, each once and in order, and dispatched exactly those with version 2.0, a method name and known fields; the one left out is the first text when it is a stale envelope of a session authenticated at the upgrade, otherwise the first frame |
| `WsServer.AnswersMeaning` | crates/linpodx-daemon/src/remote.rs:579-642 | The loop's account of its answers, frame by frame and field by field |
| `WsServer.RequestAnsweredExactly` | crates/linpodx-daemon/src/remote.rs:505-645 | Whatever the peer sends, a frame that holds a request is answered if and only if the session is open and either was authenticated at the upgrade or the frame is not its first |
| `WsServer.RequestTakenAsHandshake` | crates/linpodx-daemon/src/remote.rs:505-539 | A request that carries the token, sent as the first frame, opens the session and is never answered |
| `WsServer.OwedAtMember` | crates/linpodx-daemon/src/remote.rs:586-607 | A frame is owed an answer exactly when it is a text and neither the handshake nor a drained envelope |
| `WsServer.RpcIsNotLegacy` | crates/linpodx-daemon/src/remote.rs:725-734 | No request is taken for a stale handshake envelope |
| `WsServer.NextKeepsInv` | crates/linpodx-daemon/src/remote.rs:435-645 | Every step keeps phase, token, answers and acknowledgement consistent, for any frame |
| `WsServer.RequestLoop` | crates/linpodx-daemon/src/remote.rs:579-642 | On every stream the loop answers exactly what is owed for the frames before a close |
| `WsServer.HandleSocket` | crates/linpodx-daemon/src/remote.rs:435-645 | On every stream the session answers exactly the frames it owes an answer, or nothing without a matching token |
| `WsUpgrade.OpensExactly` | crates/linpodx-daemon/src/remote.rs:265-286 | From the upgrade's own header lines: the session opens if and only if the first bearer protocol carries the daemon's token, or the query does, or the first frame does |
| `WsUpgrade.OfferOpensExactly` | crates/linpodx-daemon/src/remote.rs:265-286 | A client offering its token as its only protocol has a session at once if and only if the token, or the query's, is the daemon's |
| `WsUpgrade.CheckHeader` | crates/linpodx-daemon/src/remote.rs:278-286 | The bearer protocol matches exactly when its token is the daemon's, and then is echoed as offered |
| `WsServer.ConstantEq` | crates/linpodx-daemon/src/remote.rs:699-710 | The comparison without early exit is equality of byte strings |
| `WsSession.KthResultAnswersKthCall` | crates/linpodx-cli/src/client.rs:244-320 | Whatever the authentication path, the client's token and the interleaving, the client's k-th result is the daemon's answer to its k-th call, and that call was dispatched |
| `WsSession.ResultsNeedToken` | crates/linpodx-cli/src/client.rs:244-320 | A client gets results only if the upgrade carried the daemon's token or the client sends it |
| `WsSession.NextKeepsInv` | crates/linpodx-cli/src/client.rs:244-320 | Every step of either end keeps both ends' accounts of the session consistent |
| `TofuEnrolment.EnrolmentBound` | crates/linpodx-daemon/src/remote.rs:332-386 | In every interleaving a window with cap at most m and at most k upgrades between check and count enrols at most m + k - 1 certificates, leftovers of an earlier window included |
| `TofuEnrolment.BoundIsReached` | crates/linpodx-daemon/src/remote.rs:332-386 | For every m and k some run reaches that bound |
| `TofuEnrolment.AnchorAlwaysPresent` | crates/linpodx-daemon/src/dispatch/pin_clients.rs:6-88 | In every reachable state the mode is enabled exactly when anchored, setting an expiry never moves the anchor, and the enrolment test is the cap test without expiry |
| `TofuEnrolment.ExpiryAuditedOnce` | crates/linpodx-daemon/src/remote.rs:332-386 | No window is audited as expired twice |
| `TofuEnrolment.CheckDecides` | crates/linpodx-daemon/src/remote.rs:332-343 | In a window opened at t0 and still open: if the last age limit set is passed a check lets nothing through, turns the mode off and audits once; otherwise it audits nothing and lets the upgrade enrol if and only if fewer were counted since the opening than the last cap allows |
| `TofuEnrolment.OpenExactly` | crates/linpodx-daemon/src/pin_store.rs:98-161 | A window is still open after some steps if and only if none of them turned it off or found it expired |
| `TofuEnrolment.OffAdmitsNothing` | crates/linpodx-daemon/src/pin_store.rs:77-85 | While the mode was never turned on, or last turned off, a check changes nothing |
| `TofuEnrolment.PinnedExactly` | crates/linpodx-daemon/src/pin_store.rs:217-276 | A certificate is pinned if and only if the last step about its pin added or inserted it |
| `TofuEnrolment.AdmittedPinnedExactly` | crates/linpodx-daemon/src/remote.rs:361-388 | Every certificate let in was pinned when that was decided, if and only if no insert failed on a certificate not already pinned |
| `TofuEnrolment.AdmittedStayPinned` | crates/linpodx-daemon/src/remote.rs:361-388 | A certificate let in as pinned stays pinned until it is removed by hand |
| `TofuEnrolment.AdmittedUnpinned` | crates/linpodx-daemon/src/remote.rs:361-388 | A run in which a failed insert lets its certificate in unpinned |
| `TofuEnrolment.RunKeepsInv` | crates/linpodx-daemon/src/remote.rs:332-386 | Every run keeps the window and audit accounts |
| `Tofu.ExpiryIsComplement` | crates/linpodx-daemon/src/pin_store.rs:98-141 | In an anchored mode the timed test is the cap test and not expired |
| `Tofu.ExpiryMonotone` | crates/linpodx-daemon/src/pin_store.rs:123-141 | Once expired, expired at every later time |
| `Tofu.ExpiryExact` | crates/linpodx-daemon/src/pin_store.rs:123-141 | The saturating test equals the exact one if and only if the elapsed time does not exceed an age limit of i64::MAX or more |
| `Tofu.TofuMode.constructor` | crates/linpodx-daemon/src/pin_store.rs:59-67 | The mode starts disabled |
| `Tofu.TofuMode.RecordEnrollment` | crates/linpodx-daemon/src/pin_store.rs:145-147 | Bumps the counter, saturating |
| `Tofu.TofuMode.RecordExpiry` | crates/linpodx-daemon/src/pin_store.rs:154-161 | Disables, clears limit, anchor and counter, and returns the old anchor |
| `Tofu.TofuMode.Enable` | crates/linpodx-daemon/src/dispatch/pin_clients.rs:6-41 | Anchors and resets the counter only when turned on from off; turning off clears everything but the cap |
| `Tofu.TofuMode.SetExpiry` | crates/linpodx-daemon/src/dispatch/pin_clients.rs:60-88 | Refused while disabled; otherwise sets the limit and fills in a missing anchor |
| `LocalServer.OneResponseEach` | crates/linpodx-daemon/src/server.rs:48-274 | In every interleaving each non-blank line gets exactly one response, in order |
| `LocalServer.EventsFollowAck` | crates/linpodx-daemon/src/server.rs:99-110 | Without a Subscribe line no event is written; otherwise the last one's acknowledgement comes first and the events after it are those in the topics that line names, or all when it names none, at increasing bus positions since |
| `LocalServer.CompleteWithoutLag` | crates/linpodx-daemon/src/server.rs:188-202 | A receiver that never lagged has forwarded every event its line's topics ask for that it has gone past |
| `LocalServer.ReceiveMeaning` | crates/linpodx-daemon/src/server.rs:188-202 | A receiver more than the capacity behind jumps to the oldest event kept and writes nothing; any other consumes exactly the next |
| `LocalServer.NoticesNeedSubscription` | crates/linpodx-daemon/src/server.rs:112-140 | Approval notices can be written if and only if a line of either kind subscribed to them |
| `LocalServer.SkipsExactlyOnLag` | crates/linpodx-daemon/src/server.rs:188-202 | The receiver has gone past an event without reading it if and only if it lagged |
| `LocalServer.OutputGrows` | crates/linpodx-daemon/src/server.rs:48-151 | What is written stays written, so the results hold of every earlier subscription up to the line that replaced it |
| `LocalServer.NextKeepsInv` | crates/linpodx-daemon/src/server.rs:48-274 | Every step keeps the answers, the cursor, the acknowledgement and the events consistent |
| `LocalServer.Connection.constructor` | crates/linpodx-daemon/src/server.rs:58-66 | A connection starts without subscriptions |
| `LocalServer.Connection.HandleRequest` | crates/linpodx-daemon/src/server.rs:205-274 | Replaces the topic set and the receiver on Subscribe, and writes one response for any non-blank line |
| `LocalServer.Connection.DeliverEvent` | crates/linpodx-daemon/src/server.rs:188-202 | Skips ahead silently on lag, otherwise takes one event and writes it if in a topic |
| `LocalServer.Connection.HandleConnection` | crates/linpodx-daemon/src/server.rs:48-151 | The select loop, for any order in which its branches become ready, reaches the state of the run |
| `LocalServer.EventBus.constructor` | crates/linpodx-daemon/src/event_bus.rs:17-20 | The bus starts empty |
| `LocalServer.EventBus.Publish` | crates/linpodx-daemon/src/event_bus.rs:22-28 | Appends the event |
| `LocalServer.EventBus.Subscribe` | crates/linpodx-daemon/src/event_bus.rs:30-32 | A new receiver starts after everything published |
| `Args.PortRoundTrip` | crates/linpodx-common/src/state.rs:291-335 | Parsing a printed port mapping gives it back for every mapping, whatever the host string holds |
| `Args.SpellingParses` | crates/linpodx-common/src/state.rs:303-335 | Every spelling of a mapping parses to it: optional host and colon, port texts with plus sign or zeros, optional protocol in any case with blanks |
| `Args.ParsedIsSpelled` | crates/linpodx-common/src/state.rs:303-335 | Everything that parses to a mapping is one of its spellings |
| `Args.PortTexts` | crates/linpodx-common/src/state.rs:320-326 | A port text is an optional plus sign and at least one digit with a value below 65536 |
| `Args.LeadingZero` | crates/linpodx-common/src/state.rs:320-326 | A zero in front of a port text changes nothing |
| `Args.ProtocolTexts` | crates/linpodx-common/src/state.rs:266-276 | A protocol text is its name in any case with any blanks around it |
| `Args.ProtocolFirst` | crates/linpodx-common/src/state.rs:305-308 | An unknown protocol is reported before anything else |
| `Args.BareIsTcp` | crates/linpodx-common/src/state.rs:305-308 | Without a slash the protocol is TCP |
| `Args.HeadOutcome` | crates/linpodx-common/src/state.rs:313-326 | Which error: an invalid container port is reported before an invalid host port |
| `Args.OnePartRefused` | crates/linpodx-common/src/state.rs:313-319 | A text of one part is missing the host port |
| `Args.PortPrinted` | crates/linpodx-common/src/state.rs:291-300 | A printed mapping ends in the protocol's lower-case name and has no leading zeros |
| `Args.VolumeRoundTrip` | crates/linpodx-common/src/state.rs:350-383 | A mount survives printing and parsing if and only if neither path holds a colon |
| `Args.VolumeReparse` | crates/linpodx-common/src/state.rs:359-383 | Printing and re-parsing anything parsed changes nothing |
| `Args.VolumeSpellingParses` | crates/linpodx-common/src/state.rs:359-383 | Every source, destination and mode part parses to the mount it denotes: ro, rw, empty or no mode, in any case |
| `Args.ParsedVolumeIsSpelled` | crates/linpodx-common/src/state.rs:359-383 | Whatever parses is such a text, with no colon in either path |
| `Args.VolumeErrors` | crates/linpodx-common/src/state.rs:359-383 | A text without a colon is malformed and an unknown third part is an invalid mode |
| `Args.VolumePrinted` | crates/linpodx-common/src/state.rs:350-356 | A printed mount ends in ro exactly when it is read-only |
| `TokenTransport.TokenDelivered` | crates/linpodx-daemon/src/remote.rs:674-695 | The client's entry is parsed back among any header lines and entries, with blanks around it, when no entry before it makes an offer |
| `TokenTransport.SingleOfferExact` | crates/linpodx-cli/src/client.rs:394-405 | A token offered alone gets across if and only if it is not empty, has no comma, does not end in white space, and holds only printable ASCII characters and tabs |
| `TokenTransport.SpacedOffer` | crates/linpodx-daemon/src/remote.rs:684-689 | The form with a space and any more blanks carries the token after them |
| `TokenTransport.OfferForms` | crates/linpodx-daemon/src/remote.rs:681-690 | An entry makes an offer only in one of the two forms and echoes itself trimmed |
| `TokenTransport.ParseBearerSubprotocol` | crates/linpodx-daemon/src/remote.rs:674-695 | The loops find the first offer among all entries of the readable lines |
| `TokenTransport.UrlRoundTrip` | crates/linpodx-cli/src/client.rs:438-449 | Percent-decoding inverts the encoder on every byte string and its output is unreserved characters and triplets only |
| `TokenTransport.EncodeOne` | crates/linpodx-cli/src/client.rs:442-446 | Letters, digits and -._~ stay as they are, every other byte becomes a percent sign and two upper-case hexadecimal digits |
| `TokenTransport.CanonicalIsEncoding` | crates/linpodx-cli/src/client.rs:438-449 | Every such text is the encoding of what it decodes to |
| `TokenTransport.UrlEncode` | crates/linpodx-cli/src/client.rs:438-449 | The loop computes the encoding |
| `ImageTag.PayloadCanonical` | crates/linpodx-distro/src/build.rs:148-157 | Two builds hash the same text if and only if they have the same kind, base tag override and package set |
| `ImageTag.PayloadParts` | crates/linpodx-distro/src/build.rs:152-152 | The hashed text determines kind, base tag override and package list, whatever characters they hold |
| `DebugText.QuoteUnique` | crates/linpodx-distro/src/build.rs:152-152 | A quoted string at the head of a text can be read back, for any choice of printable characters |
| `DebugText.OptionUnique` | crates/linpodx-distro/src/build.rs:152-152 | So can an optional string followed by a bar |
| `DebugText.ListUnique` | crates/linpodx-distro/src/build.rs:152-152 | A list of quoted strings can be read back |
| `DebugText.EscapeTexts` | crates/linpodx-distro/src/build.rs:152-152 | The six short escapes, and the two ways of writing any other character |
| `ImageTag.TagDependsOnSet` | crates/linpodx-distro/src/build.rs:55-65 | Equal kind, base tag override and package set give equal tags, for any hash |
| `ImageTag.TagsSeparate` | crates/linpodx-distro/src/build.rs:55-65 | Builds whose hashes differ get different tags |
| `ImageTag.TagText` | crates/linpodx-distro/src/build.rs:55-65 | The tag names the kind and the base tag: the override, else what follows the last colon of the default image, else latest |
| `ImageTag.MergedMeaning` | crates/linpodx-distro/src/build.rs:138-146 | Defaults come first unchanged, no package is lost or invented, and no added package repeats |
| `ImageTag.MergedPackages` | crates/linpodx-distro/src/build.rs:138-146 | The loop computes the merged list |
| `ImageTag.SortSorts` | crates/linpodx-distro/src/build.rs:148-151 | Sorting gives a sorted list of the same packages |
| `ImageTag.DedupStrict` | crates/linpodx-distro/src/build.rs:148-151 | Removing neighbouring repeats from a sorted list leaves a strictly increasing list of the same packages |

## Left out

- The consensus engine itself (elections, replication messages, commit rule): it is the environment that picks steps.
- Wrap-around of the 64-bit snapshot counter, failures while serialising a snapshot or an answer, and poisoned locks.
- JSON text: payloads and frames are the values they stand for, so serialisation is taken to lose nothing.
- Answers of the RPC dispatcher: any answer is allowed.
- Which characters Rust counts as printable: any choice is covered.
- HTTP, TLS, UTF-8 and header transport; SHA-256 and the label hash are arbitrary functions.
- Clocks: every reading is an arbitrary number, and timers may fire whenever they are armed.
- SQL: a table is a map, each statement one step; the text comparison of timestamps is comparison of numbers.
- Write errors on a connection, which end it: runs may stop anywhere instead.
- The order in which `select!` prefers its branches: every order is covered.
- Approval requests and resolutions forwarded on a local connection are not tied to their own channels.
- Audit payloads other than those of leadership, expiry and resolution; address maps; the sync and gossip timers.
- `Vec::sort` is the function Sort on a sequence, not an array sorted in place.
- Machine.ApplyKeepsKeysMatch: holds of states built by entries; a snapshot written by another program may not satisfy it.
- Gossip.DeadStaysDead: one gossip loop per table, as the daemon starts it.
- LogStore.LogRefinement: requires appended entries to continue the block, which the engine's contract promises.
- Podman, networking, images, volumes, snapshots of containers, plugins, the TUI and the web interface.
