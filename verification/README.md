# BoatRamp, modelled and proved in Dafny

BoatRamp is a clustered hosting daemon. This project models the parts of it that decide whether
replicated state, messages, mesh keys and certificates stay correct, and proves what those parts
promise for every input, every interleaving and every reachable state. `dafny verify dfyconfig.toml`
checks all of it.

The main results, by module:

- `StateMachine`, `DurableRuns`: the durable Raft state machine. At every moment of every run of a
  cluster (applies, snapshots taken, stored and served by some nodes and installed on others, keys
  seeded outside the log, failed commits, crashes and restarts) what a restart of any node reads is
  made of the log up to the persisted cursor, each entry once and in order. A snapshot carried from one node to another leaves
  exactly the source's state and touches no log, vote or purge key.
- `LogStore`, `OrderedKeys`, `Durable`, `Text`: the log store refines a map from index to entry;
  padded keys sort like the numbers, over all of `u64`; a purge cut off between its two commits and
  run again leaves the disk that an uninterrupted one leaves; the prefix scan over the ordered cache
  is a full filter.
- `GroupCommit`: the leader-only-gate protocol of concurrent publishers, some of them dropped. A
  publisher is told exactly what became of the proposal its job was in, and one that sees success has
  its operations, together and in order, in a committed proposal; every job is in exactly one place; once arrivals stop everyone is served within a stated number of
  steps.
- `ReadySet`: the work queue's commands. The ready marker of a topic with a live record survives
  every sequence of commands and stale rebuilds; a claim leases the best records that are due, loses
  and mixes up none, and no other claim gets a leased record before its lease runs out.
- `Sharding`, `TokenBucket`: rendezvous ownership for any score function, and the window bound of
  the publish rate limit for any call sequence and any clock, both ways: what fits is granted.
- `CivilDate`: the closed-form date conversion equals counting Gregorian days one at a time.
- `DnsNames`, `Routing`, `Hetzner`: canonical owner names; byte-level longest-suffix routing refines
  a label-level specification; encodings with their inverses.
- `MeshTrust`, `KeyRotation`: what the live trust set is in every run, against the durable keys; what
  a revocation clears; that a token admits once; the presented key stays accepted while any number of rotations overlap.
- `Propagation`: the deadline loop before a challenge is declared ready, poll by poll.

Some promises do not hold of the code as it stands. Each has a lemma with a concrete failing input
and a proof of exactly when the promise holds:

- Ready-set safety and message ids with a slash (`ReadySet.SlashInIdBreaksReady`): the record then
  belongs to a sub-topic whose marker nobody sets. `ReadySet.PublishKeepsReadyIff` is the exact
  condition, and `ReadySet.ReadyAlways` covers runs with such ids, bounding what they can strand. The
  coordinator never mints such an id (`ReadySet.MintedIdHasNoSlash`), and redriven ids are direct
  children, so the input enters only as a publish command posted to `/raft/client-write`
  (`crates/boatramp-cluster/src/http.rs:123-139`).
- The trust mirror and spellings. Admission stores the joiner's public key as the joiner spelled it,
  while rotation deletes the lower-case spelling. One key admitted in upper case and then deleted in
  lower case is gone from every live set and still granted by the stored key
  (`MeshTrust.SpellingsBreakMirror`). `MeshTrust.DeleteKeepsMirrorIff` and
  `MeshTrust.ApplyKeepsMirrorIff` are the exact conditions, `MeshTrust.AdmittedKeyIsProperIff` says
  which joiners are affected, and `MeshTrust.LiveAlways` says what the live set is even then.
  `MeshTrust.MirrorAlways` and `MeshTrust.RevokeClearsNode` are about keys in the plain spelling and
  do not cover such a joiner; `MeshTrust.LiveAlways` and `MeshTrust.RevokeClearsNodeIff` do.
- The trust mirror of a founder. Until its bootstrap batch is applied, a founder's live trust is its
  configured seed without any durable trust (`MeshTrust.FounderStartsUnmirrored`, exact condition
  `MeshTrust.RestartMirrorsIff`); `MeshTrust.SeedIsSuperseded` says what ends that.
- Revocation. The keys to delete are listed from the local applied state before the batch is
  proposed. A key of the node put in between survives, without a tombstone
  (`MeshTrust.RevokeMissesLaterPut`); the node is cleared exactly if the listing had all its keys at
  the time the batch is applied (`MeshTrust.RevokeClearsNodeIff`).
- A revoked key is to stay out. Its tombstone bars the spelling that was stored, and admission tests
  the spelling that is sent: a key stored in upper case and revoked is admitted again in lower case
  (`MeshTrust.RespelledIsReadmitted`, exact condition `MeshTrust.ReadmissionBarredIff`).
- Rotation. `rotate_key` may be called concurrently, and presenting a key and swapping the identity
  are two steps. Two calls inside `set_identity` at once can leave the node presenting a retired key
  (`KeyRotation.OverlapFails`). Without that overlap it never happens while the process stays up
  (`KeyRotation.PresentedIsAccepted`), and entering `set_identity` is safe exactly if nobody is
  inside (`KeyRotation.EnteringIsSafeIff`). A late copy of a put, which the retrying forwarder allows,
  can make a retired key accepted again (`KeyRotation.LateCopyRevives`); only the identity is left
  after all calls exactly if nothing like that happened (`KeyRotation.AcceptedExactly`).
- Rotation and restart. A rotated key is written to the key file only if one is configured, and the
  daemon builds its context without (`crates/boatramp/src/serve.rs:4648`), though it loads the
  identity from a file. Then one ordinary rotation followed by a restart leaves the node presenting
  the retired key (`KeyRotation.RotateThenRestartFails`). Without overlap inside `set_identity`, the
  key a restart loads is safe exactly if a key file is configured or no call has retired that key
  (`KeyRotation.FileIsSafeIff`); with overlap a key file does not help, since it can hold the retired
  key too (`KeyRotation.OverlapFails`). In every run whatever, a restart is safe exactly if the file's
  key is not retired and nothing under way will retire it (`KeyRotation.RestartIsSafeIff`).
- Routing and spelling. The zone is chosen by the canonical name, and the record is handed on as it is
  spelled. The Hetzner adapter takes its configured zone, as that is spelled, off the record's
  spelling, so `A.b` in zone `a.b` is written as `A.b.a.b` (`Hetzner.CapitalMissesApex`); the name
  written is the name routed exactly if the spelling ends in the configured zone
  (`Hetzner.WrittenIsRoutedIff`).

Source comments that the code does not follow: `plan_claim`'s documentation says that records are
leased in id order, while the code orders by priority first; the model orders by priority.

Modelling choices. A store commit is atomic and either happens or does not, as an `io` argument says:
this assumes a backend that overrides the sequential default of `write_batch`. JSON text is a tagged
value. What an applied command does to the data is any deterministic function in the state-machine
theorems, and the work-queue commands themselves in `ReadySet`. Clocks, poll results, poll durations
and sleep overshoot are arguments. A node keeps its id when it rotates its key and restarts. Integers
are unbounded except where a parser bounds them; 64-bit floats are reals.

## Model

| member | source | states |
|---|---|---|
| `Durable.LogKeyParsesBack` | crates/boatramp-cluster/src/persist.rs:51-58 | every u64 index comes back from its log key |
| `Text.ParsesExactly` | crates/boatramp-cluster/src/persist.rs:55-58 | what is read as an index is exactly a number of 64 bits in decimal, with zeros and a plus sign before it or not |
| `Durable.LogKeysSort` | crates/boatramp-cluster/src/persist.rs:51-53 | log keys sort exactly as the indexes do, over all of u64 |
| `Durable.RegionsAreDisjoint` | crates/boatramp-cluster/src/persist.rs:39-63 | no raw key or index makes a data or log key collide with another region of the shared store |
| `Durable.KvStore.WriteBatch` | crates/boatramp-core/src/kv.rs:603-619 | a batch is applied in order, all or nothing; that a backend does so, unlike the sequential default, is the assumption |
| `Durable.KvStore.ListPrefix` | crates/boatramp-core/src/kv.rs:183 | exactly the stored keys with the prefix, once each |
| `Durable.ReplayConcat` | crates/boatramp-cluster/src/raft.rs:346-371 | a mutation list may be replayed in parts |
| `OrderedKeys.PrefixScanFilters` | crates/boatramp-cluster/src/persist.rs:317-326 | the bounded scan over ascending keys equals a full filter by prefix, for all key lists and prefixes |
| `OrderedKeys.ListPrefix` | crates/boatramp-cluster/src/persist.rs:317-326 | the serving scan returns exactly the prefixed keys of the map, in order |
| `OrderedKeys.SortSorts` | crates/boatramp-cluster/src/persist.rs:103-113 | sorting listed keys gives those keys, ascending |
| `StateMachine.HeldStateIsUnique` | crates/boatramp-cluster/src/persist.rs:281-301 | a disk determines the state a restart reads |
| `StateMachine.LiftedBatchKeepsData` | crates/boatramp-cluster/src/persist.rs:446-504 | writing the mutations through keeps the disk holding the mutated data |
| `StateMachine.StagedCommits` | crates/boatramp-cluster/src/persist.rs:446-504 | data, cursor and membership of one apply reach the disk together and touch no other store's key |
| `StateMachine.Stage` | crates/boatramp-cluster/src/persist.rs:446-504 | the loop over entries computes, entry by entry, the data each leaves, its answer and the mutations shown, and a batch that persists the last of them |
| `StateMachine.ApplyOne` | crates/boatramp-cluster/src/persist.rs:454-485 | one entry: a command's mutations and answer are those it gives on the data it finds, any other entry changes no data, and every entry moves the cursor |
| `StateMachine.FoldIsInTurn` | crates/boatramp-cluster/src/persist.rs:446-504 | the fold leaves after each entry the data before it with the command's effects on just that data, the last cursor, and the last membership entry's voters under its own id |
| `StateMachine.Load` | crates/boatramp-cluster/src/persist.rs:281-301 | a restart reads the state the disk holds, and fails only if it holds none |
| `StateMachine.InstallBatch` | crates/boatramp-cluster/src/persist.rs:516-570 | on any disk the snapshot's batch leaves exactly the snapshot's state and no residue, and nothing else changes |
| `StateMachine.PersistentStateMachine.Apply` | crates/boatramp-cluster/src/persist.rs:446-504 | spelled out entry by entry: the data after each, its answer, the mutations shown in order, the last cursor and the last membership; the disk holds that if the commit succeeds and is left alone if not |
| `StateMachine.PersistentStateMachine.BuildSnapshot` | crates/boatramp-cluster/src/persist.rs:392-432 | the snapshot is the cached state with its cursor and membership, and only the snapshot key changes |
| `StateMachine.SnapshotIdsDiffer` | crates/boatramp-cluster/src/persist.rs:393-402 | no two snapshots of a process share a name |
| `StateMachine.PersistentStateMachine.StoreSnapshot` | crates/boatramp-cluster/src/persist.rs:417-427 | storing a snapshot taken earlier changes the snapshot key only and leaves the applied state as it has become |
| `StateMachine.PersistentStateMachine.GetCurrentSnapshot` | crates/boatramp-cluster/src/persist.rs:572-585 | the stored snapshot, none if there is none, an error if it does not decode |
| `StateMachine.PersistentStateMachine.InstallSnapshot` | crates/boatramp-cluster/src/persist.rs:516-570 | cache and disk become the snapshot's state wholesale; an undecodable snapshot or failed commit changes nothing |
| `StateMachine.PersistentStateMachine.SeedLocal` | crates/boatramp-cluster/src/persist.rs:333-350 | every seeded key has the last value given for it, in cache and on disk, every other key stays, and so do cursor and membership |
| `StateMachine.PutsWriteAll` | crates/boatramp-cluster/src/persist.rs:333-350 | the writes leave just that |
| `StateMachine.TransferAndRestart` | crates/boatramp-cluster/src/persist.rs:391-585 | built here, installed there, reopened: exactly the source's state, whatever the target held |
| `DurableRuns.InvKept` | crates/boatramp-cluster/src/persist.rs:392-585 | every event keeps a node's cache, disk, snapshots and history of the log in agreement |
| `DurableRuns.ClusterInvKept` | crates/boatramp-cluster/src/persist.rs:392-585 | every event on any node, installs of what other nodes sent included, keeps all nodes and everything sent following the log |
| `DurableRuns.InvAlways` | crates/boatramp-cluster/src/persist.rs:281-570 | that holds in every reachable state of a cluster |
| `DurableRuns.RestartResumesTheLog` | crates/boatramp-cluster/src/persist.rs:281-570 | in every run of a cluster the state a restart of any node reads is made of the log up to the persisted cursor, each entry once and in order, with seeded keys exactly where they were seeded, spelled out as the data after each; with none it is the log applied in turn |
| `DurableRuns.MadeIsInTurn` | crates/boatramp-cluster/src/persist.rs:333-504 | what the items make is, item by item, the command's effects on the data found or the seeded keys written over it |
| `DurableRuns.UnseededIsFold` | crates/boatramp-cluster/src/persist.rs:446-504 | a state made of log entries only is the fold of the log |
| `DurableRuns.ApplyNext` | crates/boatramp-cluster/src/persist.rs:446-504 | applying the next log entries is the run's apply event, and a failed commit its stop event |
| `DurableRuns.InstallReceived` | crates/boatramp-cluster/src/persist.rs:516-570 | installing any received snapshot is the run's install event, from any state |
| `DurableRuns.TakeSnapshot` | crates/boatramp-cluster/src/persist.rs:393-416 | building a snapshot starts with the run's take event: the cached state under the lock |
| `DurableRuns.StoreSnapshot` | crates/boatramp-cluster/src/persist.rs:417-427 | whatever happened in between, it ends with the store event of what was taken |
| `DurableRuns.ServeSnapshot` | crates/boatramp-cluster/src/persist.rs:572-585 | reading the current snapshot, also after a restart, is the serve event |
| `DurableRuns.CurrentSnapshotFollows` | crates/boatramp-cluster/src/persist.rs:572-585 | at every moment of every run the snapshot on a node's disk decodes and follows the log |
| `DurableRuns.SentFollowsLog` | crates/boatramp-cluster/src/persist.rs:392-432 | what a node sends, freshly stored or read back, follows the log, so an installed snapshot does |
| `DurableRuns.SeedTrust` | crates/boatramp-cluster/src/persist.rs:333-350 | seeding at join time is the run's seed event |
| `DurableRuns.Restart` | crates/boatramp-cluster/src/persist.rs:281-301 | reopening a store that holds a state is the run's reopen event, and succeeds |
| `LogStore.PersistentLogStore.constructor` | crates/boatramp-cluster/src/persist.rs:98-100 | opening a store finds the log it holds |
| `LogStore.PersistentLogStore.Append` | crates/boatramp-cluster/src/persist.rs:185-202 | each entry is in the log, the last of its index prevailing, the others are as they were, and no other store's key changes |
| `LogStore.AppendAllAppends` | crates/boatramp-cluster/src/persist.rs:185-202 | putting in entries one by one leaves that |
| `LogStore.PersistentLogStore.Truncate` | crates/boatramp-cluster/src/persist.rs:204-217 | exactly the entries below the index are left, as they were |
| `LogStore.PersistentLogStore.Purge` | crates/boatramp-cluster/src/persist.rs:219-237 | exactly the entries above the index are left, as they were, and the marker is set; either commit may fail |
| `LogStore.PurgeAfterCutOff` | crates/boatramp-cluster/src/persist.rs:219-237 | a purge cut off between its commits and run again leaves the disk an uninterrupted one leaves |
| `LogStore.RefinedDiskIsUnique` | crates/boatramp-cluster/src/persist.rs:103-113 | the abstract log determines the log part of the disk |
| `LogStore.AllEntries` | crates/boatramp-cluster/src/persist.rs:103-113 | all stored entries, ascending by index |
| `LogStore.TryGetLogEntries` | crates/boatramp-cluster/src/persist.rs:117-127 | a range read returns precisely the entries in range, ascending |
| `LogStore.GetLogState` | crates/boatramp-cluster/src/persist.rs:133-149 | the last log id is that of the greatest stored index, or else the purge marker |
| `LogStore.StoresAreApart` | crates/boatramp-cluster/src/persist.rs:39-63 | no key belongs to both users of the store, and neither writes vote or committed records |
| `GroupCommit.CommitQueue.Drain` | crates/boatramp-cluster/src/messaging.rs:489-505 | the batch is the greedy maximal prefix within the budget, at least one job, and the rest stays |
| `GroupCommit.GreedyUnique` | crates/boatramp-cluster/src/messaging.rs:93 | there is only one greedy prefix |
| `GroupCommit.GreedyIsLongest` | crates/boatramp-cluster/src/messaging.rs:493-505 | it is the longest prefix within the budget, or one job if even that is over it |
| `GroupCommit.Assemble` | crates/boatramp-cluster/src/messaging.rs:506-511 | a proposal is its jobs' operations in order, with their one-shots |
| `GroupCommit.OpsAreContiguous` | crates/boatramp-cluster/src/messaging.rs:506-511 | each job's operations lie together in the proposal, after those of the jobs before it |
| `GroupCommit.InvKept` | crates/boatramp-cluster/src/messaging.rs:460-532 | every step of every publisher, drops included, keeps push order, gate exclusion and replies |
| `GroupCommit.InvAlways` | crates/boatramp-cluster/src/messaging.rs:460-532 | the invariant holds in every state of every interleaving |
| `GroupCommit.SuccessIsCommitted` | crates/boatramp-cluster/src/messaging.rs:512-532 | success is seen only if the operations lie contiguously in a proposal that committed, before any later one |
| `GroupCommit.ReplyIsOutcome` | crates/boatramp-cluster/src/messaging.rs:512-532 | in every run a publisher returns success exactly if the proposal its job was in reported success, an error exactly if it reported one, and a cancellation exactly if its leader was dropped |
| `GroupCommit.EndIsTold` | crates/boatramp-cluster/src/messaging.rs:512-521 | when a proposal ends every member of its batch is told that, right then |
| `GroupCommit.OnePlace` | crates/boatramp-cluster/src/messaging.rs:460-532 | each pushed job is in exactly one of queue, batch in flight, resolved |
| `GroupCommit.ProposalsInPushOrder` | crates/boatramp-cluster/src/messaging.rs:484-512 | proposals, one at a time, are the pushed jobs in push order, each one job or within the budget |
| `GroupCommit.LeaverHasReply` | crates/boatramp-cluster/src/messaging.rs:491-493 | a leader leaving its loop has its one-shot already resolved |
| `GroupCommit.NobodyIsStranded` | crates/boatramp-cluster/src/messaging.rs:467-483 | while a live publisher has not returned some publisher can step, and a queued job's publisher holds or awaits the gate |
| `GroupCommit.EveryoneIsServed` | crates/boatramp-cluster/src/messaging.rs:484-532 | from any moment of any run, once arrivals stop, the publishers take at most the measured number of steps, and when they can take no more everyone has returned with their reply or was dropped; a reply given stays |
| `GroupCommit.PushJob` | crates/boatramp-cluster/src/messaging.rs:463-466 | pushing a job is the protocol's push step |
| `GroupCommit.NextProposal` | crates/boatramp-cluster/src/messaging.rs:484-511 | a turn of the gate-holder's loop is the protocol's drain step with that proposal, or the leave step on an empty queue |
| `ReadySet.PlanClaim` | crates/boatramp-core/src/messaging.rs:1152-1190 | the claim loop computes the plan over the records in priority order |
| `ReadySet.PlanIsExact` | crates/boatramp-core/src/messaging.rs:1163-1190 | an action is in a plan exactly if a record that the budget still reaches calls for it: expired ones become dead letters with that reason, spent ones as they are, the others are leased with one more attempt |
| `ReadySet.PlanLeasesFirst` | crates/boatramp-core/src/messaging.rs:1152-1190 | a plan leases exactly the first records that may be leased, up to the budget |
| `ReadySet.SortIsBestFirst` | crates/boatramp-core/src/messaging.rs:1159-1162 | the order is by priority, then by id |
| `ReadySet.ClaimLeasesTheBest` | crates/boatramp-cluster/src/raft.rs:674-716 | a claim leases the best of the topic's records that are due, unexpired and not spent |
| `ReadySet.ClaimIsExact` | crates/boatramp-cluster/src/raft.rs:674-722 | record by record, each that the claim comes to is leased in place, or leaves the queue for its dead-letter key, as it calls for, and every other stays as it was |
| `ReadySet.ClaimTouchesOnly` | crates/boatramp-cluster/src/raft.rs:674-740 | a claim changes no key but its topic's marker, records and dead letters |
| `ReadySet.ClaimPrunesIff` | crates/boatramp-cluster/src/raft.rs:723-740 | it takes the marker away exactly if it leaves the topic without records and the topic has no group |
| `ReadySet.ClaimTakesDueRecords` | crates/boatramp-cluster/src/raft.rs:674-716 | what a claim leases or dead-letters was a live record of the topic with its lease run out |
| `ReadySet.ClaimLosesNothing` | crates/boatramp-cluster/src/raft.rs:698-722 | after a claim each record is as it was, or leased with one more attempt, or kept as a dead letter changed in its error only |
| `ReadySet.LeaseIsExclusive` | crates/boatramp-cluster/src/raft.rs:674-740 | a leased record is not given out again before its lease ends, whatever else is applied, unless it is nacked or written anew |
| `ReadySet.ParentIsUnique` | crates/boatramp-core/src/messaging.rs:1447-1449 | a record key belongs to one topic |
| `ReadySet.ClaimKeepsReady` | crates/boatramp-cluster/src/raft.rs:723-740 | pruning on an empty queue, in the claim's own apply, strands nothing |
| `ReadySet.PublishKeepsReadyIff` | crates/boatramp-cluster/src/raft.rs:407-457 | publishing keeps the ready-set invariant exactly if the record lands in a marked topic; always, for ids without a slash |
| `ReadySet.PublishStores` | crates/boatramp-cluster/src/raft.rs:407-457 | a publish stores a record that is due, expires and ranks as asked unless there is one, sets the marker, for a retained message logs it and moves the log's end up to it, and touches nothing else |
| `ReadySet.SlashInIdBreaksReady` | crates/boatramp-cluster/src/raft.rs:407-457 | an id with a slash puts a live record into an unmarked topic |
| `ReadySet.PublishKeepsReadyBut` | crates/boatramp-cluster/src/raft.rs:407-457 | a publish with any id strands a record at most in the one topic its id's last slash names |
| `ReadySet.CommandKeepsReady` | crates/boatramp-cluster/src/raft.rs:376-509 | each command, with any ids, and any batch of them keeps every marker of a live topic but for those stray topics |
| `ReadySet.AckRemoves` | crates/boatramp-cluster/src/raft.rs:472-475 | an ack removes that record and nothing else |
| `ReadySet.NackReleases` | crates/boatramp-cluster/src/raft.rs:476-495 | a nack moves that record's lease and sets the marker, and does nothing without a record |
| `ReadySet.SetLastErrorRecords` | crates/boatramp-cluster/src/raft.rs:496-509 | recording an error changes that record's error only |
| `ReadySet.BatchIsSequence` | crates/boatramp-cluster/src/raft.rs:386-391 | a batch is its commands one after another |
| `ReadySet.ReadyAlways` | crates/boatramp-cluster/src/messaging.rs:1772-1776 | over every sequence of publishes, claims, acks, nacks and rebuilds a topic with a live record has its marker, save topics the run published into by an id with a slash |
| `ReadySet.Rebuild` | crates/boatramp-cluster/src/messaging.rs:1790-1864 | from separate reads of work, group work and markers, however stale, the proposal is exactly the missing markers of the topics with queued or group work |
| `ReadySet.RemarksAreMarkers` | crates/boatramp-cluster/src/messaging.rs:1834-1858 | such a proposal only adds markers |
| `ReadySet.TopicOfIff` | crates/boatramp-cluster/src/messaging.rs:1797-1804 | a key is work of a topic exactly if it is the topic and one more name |
| `ReadySet.RebuildRestores` | crates/boatramp-cluster/src/messaging.rs:1834-1858 | applied to any later state it restores the markers missing at its read of topics live or with group work, drops none, and repairs every state whose unmarked live topics are among them |
| `ReadySet.MintedIdHasNoSlash` | crates/boatramp-cluster/src/messaging.rs:537-544 | minted ids satisfy the publish condition |
| `ReadySet.MintedIdsDiffer` | crates/boatramp-cluster/src/messaging.rs:537-544 | messages of different nodes or sequence numbers have different ids, whatever the clock did |
| `ReadySet.MintedIdsAscend` | crates/boatramp-cluster/src/messaging.rs:537-544 | a later millisecond gives a later id, while milliseconds have thirteen digits |
| `Sharding.OwnerIsTheBest` | crates/boatramp-cluster/src/messaging.rs:553-559 | the owner is the one voter with the highest score, of equal scores the larger id, and there is none exactly without voters |
| `Sharding.OwnerIgnoresOrder` | crates/boatramp-cluster/src/messaging.rs:553-559 | every listing of the voters gives the same owner |
| `Sharding.OwnerStays` | crates/boatramp-cluster/src/messaging.rs:546-559 | between any two memberships a topic moves only if its owner left or its new owner is new |
| `Sharding.LeavingMovesOnlyItsTopics` | crates/boatramp-cluster/src/messaging.rs:546-559 | removing a node that is not the owner moves nothing |
| `Sharding.JoiningTakesOnlyForItself` | crates/boatramp-cluster/src/messaging.rs:546-559 | adding a node moves topics only to it |
| `Sharding.ShareAgreesWithOwns` | crates/boatramp-cluster/src/messaging.rs:1938-1964 | a share holds a topic as often as the list does if the node owns it, else not at all; without voters everything |
| `Sharding.ShareKeepsOrder` | crates/boatramp-cluster/src/messaging.rs:1953-1964 | a share keeps the order of the topics |
| `Sharding.SharesPartition` | crates/boatramp-cluster/src/messaging.rs:1953-1964 | one voter has all occurrences of a topic and every other node none |
| `TokenBucket.RateLimiter.TryTakeTokens` | crates/boatramp-cluster/src/messaging.rs:430-452 | grants exactly if the refilled bucket has enough, and leaves it refilled and drawn |
| `TokenBucket.BucketInRange` | crates/boatramp-cluster/src/messaging.rs:430-452 | in every run tokens stay within zero and the rate, and the refill time is the latest clock reading |
| `TokenBucket.PotentialBound` | crates/boatramp-cluster/src/messaging.rs:440-451 | tokens granted since a draw, with those left, are at most one full bucket and what the clock's advance earned |
| `TokenBucket.WindowBound` | crates/boatramp-cluster/src/messaging.rs:428-452 | grants in any window are at most rate + rate × length / 1000, whatever the clock does |
| `TokenBucket.GrantedIff` | crates/boatramp-cluster/src/messaging.rs:430-452 | at one rate a draw is granted exactly if it fits into every window that ends with it: no grant beyond the bound, and no refusal within it |
| `TokenBucket.SteppedBackClockEarnsNothing` | crates/boatramp-cluster/src/messaging.rs:440-444 | a clock that does not pass its earlier readings grants at most one bucket |
| `TokenBucket.IdleTopicIsGranted` | crates/boatramp-cluster/src/messaging.rs:428-451 | after an idle second, or when fresh, any draw up to the rate is granted |
| `TokenBucket.OtherTopicsDoNotMatter` | crates/boatramp-cluster/src/messaging.rs:434-439 | a topic's bucket depends on its own calls only |
| `CivilDate.ClosedFormCountsDays` | crates/boatramp-acme/src/oci.rs:216-228 | for every integer day the closed form equals counting Gregorian days from 1970-01-01 |
| `CivilDate.DayAfter` | crates/boatramp-acme/src/akamai.rs:289-300 | each day's date is valid and the next day's is its calendar successor |
| `CivilDate.OnlyOneWalk` | crates/boatramp-acme/src/oci.rs:216-228 | only one function walks the calendar from the epoch |
| `CivilDate.LaterDayLaterDate` | crates/boatramp-acme/src/oci.rs:216-228 | later days have later dates, so the map is injective |
| `CivilDate.EveryDateIsReached` | crates/boatramp-acme/src/oci.rs:216-228 | every calendar date is the date of some day |
| `CivilDate.WeekdayCounts` | crates/boatramp-acme/src/oci.rs:203-205 | the weekday index is counting from Thursday, modulo seven |
| `CivilDate.ImfFixdateShowsCountedDate` | crates/boatramp-acme/src/oci.rs:198-214 | the header shows the counted date, weekday and time of day |
| `CivilDate.FormatReads` | crates/boatramp-acme/src/oci.rs:207-214 | a reader of the format gets back weekday, day, month, year, hour, minute and second, for every date and time of day |
| `CivilDate.ImfFixdateReads` | crates/boatramp-acme/src/oci.rs:198-214 | so every second's header reads as its counted date, weekday and time of day, which add up to that second |
| `CivilDate.ImfFixdateInjective` | crates/boatramp-acme/src/oci.rs:198-214 | no two seconds print the same header |
| `DnsNames.CanonicalizeOwnerName` | crates/boatramp-acme/src/dns.rs:445-492 | the loop returns the canonical name or the first problem's reason |
| `DnsNames.AcceptsExactly` | crates/boatramp-acme/src/dns.rs:431-492 | accepted are exactly the ASCII names within the limits, as lower case without the root dot |
| `DnsNames.AcceptsLetterByLetter` | crates/boatramp-acme/src/dns.rs:431-492 | the same with the letters, lengths and hyphen rules written out |
| `DnsNames.RefusedFor` | crates/boatramp-acme/src/dns.rs:445-492 | a refused name is refused for its characters, its length or its first illegal label, with that label's reason |
| `DnsNames.CanonicalIsFixed` | crates/boatramp-acme/src/dns.rs:445-492 | canonicalization is idempotent |
| `DnsNames.LegalCharacters` | crates/boatramp-acme/src/dns.rs:431-444 | a canonical name has only label characters, dots and the wildcard, and no trailing dot |
| `DnsNames.EqualIffSameCanonical` | crates/boatramp-acme/src/dns.rs:418-421 | on accepted names the comparison is equality of canonical forms |
| `DnsNames.EncodeNameSegment` | crates/boatramp-acme/src/dns.rs:513-526 | the loop computes the byte-wise encoding |
| `DnsNames.DecodeEncode` | crates/boatramp-acme/src/dns.rs:513-526 | percent-decoding undoes the encoding on every byte string |
| `DnsNames.EncodedIsOneSegment` | crates/boatramp-acme/src/dns.rs:501-526 | the encoding has letters, digits, `-._~*@` and percent signs only, so no separator of a path, query, fragment or port and no white space |
| `DnsNames.EncodedByteByByte` | crates/boatramp-acme/src/dns.rs:513-526 | byte by byte, which stand for themselves and how every other is written |
| `DnsNames.CanonicalIsPlain` | crates/boatramp-acme/src/dns.rs:494-499 | the encoding is the identity on canonical names |
| `Routing.Build` | crates/boatramp-acme/src/routing.rs:126-151 | the zones are the entries under canonical, distinct apexes, or the first refused entry's error |
| `Routing.ByteTestIsLabelTest` | crates/boatramp-acme/src/routing.rs:83-95 | on all strings the byte test holds exactly for whole-label suffixes |
| `Routing.MoreBytesMoreLabels` | crates/boatramp-acme/src/routing.rs:157-163 | among apexes of one name byte length orders like label count, without ties |
| `Routing.SelectIsMostSpecific` | crates/boatramp-acme/src/routing.rs:155-164 | a zone is selected exactly if it has the longest label suffix of the canonical owner |
| `Routing.SelectsNothingIff` | crates/boatramp-acme/src/routing.rs:152-164 | nothing is selected exactly for an illegal name or without an authoritative zone |
| `Routing.SelectIgnoresOrder` | crates/boatramp-acme/src/routing.rs:155-164 | the order of entries does not matter |
| `Routing.SelectIgnoresSpelling` | crates/boatramp-acme/src/routing.rs:155-164 | spellings of one name go to one zone |
| `Routing.ChecksAreExact` | crates/boatramp-acme/src/dns.rs:554-578 | the checks let through exactly valid data of a supported kind that is no NS of the apex, and name the first failure |
| `Routing.ValidIsGood` | crates/boatramp-acme/src/dns.rs:248-276 | valid is TXT data of at least one string, each at most 255 bytes of UTF-8, and a CAA value with something other than white space |
| `Routing.DispatchFollowsZone` | crates/boatramp-acme/src/routing.rs:196-236 | the apex lookup names the zone that upserts and deletes go to, and the operation reaches that zone's provider unchanged exactly if the record may be written there |
| `Routing.NoZoneNoDispatch` | crates/boatramp-acme/src/routing.rs:196-236 | without an authoritative zone lookup and writes are both refused |
| `Routing.ApexGuardIsExact` | crates/boatramp-acme/src/dns.rs:554-578 | the apex guard fires exactly on spellings of the apex |
| `Hetzner.RelativeRoundTripIff` | crates/boatramp-acme/src/hetzner.rs:112-119 | on all strings the absolute name comes back exactly for names of the zone, save a literal `@` label |
| `Hetzner.RelativeIsInvertible` | crates/boatramp-acme/src/hetzner.rs:110-119 | canonical names of the zone round trip, and exactly the apex becomes `@` |
| `Hetzner.RelativeIsInjective` | crates/boatramp-acme/src/hetzner.rs:112-119 | no two canonical names of the zone share a relative name |
| `Hetzner.RelativeIsPlain` | crates/boatramp-acme/src/hetzner.rs:100-119 | encoding a relative name for the URL changes nothing |
| `Hetzner.WrittenIsRoutedIff` | crates/boatramp-acme/src/hetzner.rs:112-119 | for any configured zone, however spelled, a legal name is written as the name it is exactly if its own spelling ends in that zone (or the zone is empty), and unchanged exactly if it is canonical too |
| `Hetzner.DispatchedIsWrittenIff` | crates/boatramp-acme/src/hetzner.rs:312-314 | so is what dispatch hands on, for any zone the adapter was configured with and whatever the routing entry's apex |
| `Hetzner.CanonicalIsWritten` | crates/boatramp-acme/src/hetzner.rs:312-314 | an adapter configured with its entry's canonical apex writes every canonical name routed to it under that name |
| `Hetzner.CapitalMissesApex` | crates/boatramp-acme/src/hetzner.rs:112-119 | a capital in the zone's part: routed to the apex, written below it |
| `Hetzner.TwoPassesAreOne` | crates/boatramp-acme/src/hetzner.rs:141-144 | the two replacements equal a one-pass escape |
| `Hetzner.TxtRoundTrip` | crates/boatramp-acme/src/hetzner.rs:192-196 | every list of strings is read back from its printed TXT value, quoted strings with one blank between them |
| `MeshTrust.ToHex` | crates/boatramp-cluster/src/mesh.rs:101-108 | the loop prints two lower-case digits for each byte |
| `MeshTrust.HexIsLowerCase` | crates/boatramp-cluster/src/mesh.rs:101-108 | they are the high and the low digit, written out |
| `MeshTrust.HexPairsIff` | crates/boatramp-cluster/src/mesh.rs:111-120 | text reads as bytes exactly if it spells them, two characters a byte, in either case or a plus sign and one digit |
| `MeshTrust.ParseTrustKeyIff` | crates/boatramp-cluster/src/mesh.rs:44-48 | a key parses to a pair exactly if it is the prefix, a number, a slash and hex text that read as that pair |
| `MeshTrust.TrustKeyHexParses` | crates/boatramp-cluster/src/mesh.rs:44-48 | a key with any hex spelling parses to its node and the bytes that spelling reads as |
| `MeshTrust.TrustKeyParsesBack` | crates/boatramp-cluster/src/mesh.rs:38-48 | parsing inverts printing for every node id and byte string |
| `MeshTrust.TrustFromKeys` | crates/boatramp-cluster/src/mesh.rs:52-62 | the rebuilt map holds exactly what the keys say, and is empty exactly if they say nothing |
| `MeshTrust.TrustSet.Contains` | crates/boatramp-rpktls/src/lib.rs:256-262 | membership of the pair |
| `MeshTrust.TrustSet.Insert` | crates/boatramp-rpktls/src/lib.rs:266-272 | exactly that pair is added |
| `MeshTrust.TrustSet.RemoveKey` | crates/boatramp-rpktls/src/lib.rs:281-289 | exactly that pair is removed, and no peer is left without keys |
| `MeshTrust.TrustSet.OnApply` | crates/boatramp-cluster/src/node.rs:50-67 | the observer's loop mirrors the mutations one after another |
| `MeshTrust.TrustSet.OnReset` | crates/boatramp-cluster/src/node.rs:69-73 | after a snapshot the live set is what its keys say |
| `MeshTrust.PutKeepsMirror` | crates/boatramp-cluster/src/node.rs:54-58 | a put keeps live and durable trust equal, whatever the key |
| `MeshTrust.DeleteKeepsMirrorIff` | crates/boatramp-cluster/src/node.rs:59-63 | a delete does exactly if no other stored key spells the same trust |
| `MeshTrust.SpellingsBreakMirror` | crates/boatramp-cluster/src/node.rs:59-63 | a key stored in upper case and deleted in lower case leaves the live set without a trust that the stored key still grants |
| `MeshTrust.AdmittedKeyIsProperIff` | crates/boatramp-cluster/src/raft.rs:637-664 | an admitted key is spelled as `trust_key` spells it exactly if the joiner sent plain lower-case hex |
| `MeshTrust.ApplyKeepsMirrorIff` | crates/boatramp-cluster/src/node.rs:50-67 | any batch of any keys keeps the mirror exactly if no trust's last delete in it left another spelling stored |
| `MeshTrust.ProperKeysNeverRespell` | crates/boatramp-cluster/src/node.rs:50-67 | keys built by `trust_key` never do that |
| `MeshTrust.RestartMirrorsIff` | crates/boatramp-cluster/src/node.rs:674-695 | a restart leaves the mirror intact exactly unless a founder without durable trust has a configured seed |
| `MeshTrust.RestartServes` | crates/boatramp-cluster/src/node.rs:674-695 | a start goes by the durable trust if there is any, else by what it was given; a joiner stores that, so every later start goes by it too, and a founder does not |
| `MeshTrust.FounderStartsUnmirrored` | crates/boatramp-cluster/src/node.rs:674-695 | a founder's first start has live trust and no durable trust |
| `MeshTrust.SeedIsSuperseded` | crates/boatramp-cluster/src/node.rs:291-305 | the bootstrap batch, a snapshot install or a hydration from disk ends that |
| `MeshTrust.StepStores` | crates/boatramp-cluster/src/node.rs:50-74 | which keys each event leaves stored: the last write decides in a batch, a snapshot replaces all, a restart adds just a joiner's keys |
| `MeshTrust.LiveAlways` | crates/boatramp-cluster/src/node.rs:50-74 | in every run, with any keys and any founder, the live set is the durable trust less what was last deleted under another spelling plus the seed not yet superseded, so it mirrors exactly if there is neither |
| `MeshTrust.MirrorAlways` | crates/boatramp-cluster/src/node.rs:50-74 | in runs on plainly spelled keys the live set lies between the durable trust and that with the outstanding seed, and mirrors it without one |
| `MeshTrust.Revoke` | crates/boatramp-cluster/src/node.rs:474-491 | the batch has a tombstone and a delete for each listed key, then the address delete |
| `MeshTrust.RevokeRetiresListed` | crates/boatramp-cluster/src/node.rs:473-491 | applied to any later state, the batch leaves trusted exactly what that state trusts outside the listed keys, touches no other node, and leaves a tombstone for each listed key |
| `MeshTrust.RevokeTouchesOnly` | crates/boatramp-cluster/src/node.rs:473-491 | the node's address goes, and whatever is neither that nor listed nor a tombstone stays as it was |
| `MeshTrust.RevokeClearsNodeIff` | crates/boatramp-cluster/src/node.rs:456-491 | the node is cleared exactly if the listing had every key that trusts it when the batch is applied |
| `MeshTrust.RevokeMissesLaterPut` | crates/boatramp-cluster/src/node.rs:473-491 | a key put between listing and batch stays trusted |
| `MeshTrust.RevokeClearsNode` | crates/boatramp-cluster/src/node.rs:473-491 | without such a race, on plainly spelled keys, exactly the node's trust is gone and each public key has its tombstone |
| `MeshTrust.ReadmissionBarredIff` | crates/boatramp-cluster/src/raft.rs:637-664 | after a revocation, admission refuses a key as revoked exactly in the spellings that were listed or had a tombstone |
| `MeshTrust.BarredUntilUnrevoked` | crates/boatramp-cluster/src/raft.rs:637-664 | whatever is applied after a revocation, a spelling is refused as revoked exactly if its tombstone was there or put since, and not deleted after that |
| `MeshTrust.SpentIff` | crates/boatramp-cluster/src/raft.rs:637-664 | whatever was applied before, a token whose key is not revoked is refused as spent exactly if its use was recorded and the record not deleted after, and is admitted otherwise |
| `MeshTrust.TokenAdmitsOnce` | crates/boatramp-cluster/src/raft.rs:637-664 | a token admits once, whatever spelling, node and address come with it again and whatever is applied in between, until its record is deleted |
| `MeshTrust.AdmissionStores` | crates/boatramp-cluster/src/raft.rs:637-664 | an admission stores the spent token, the trust as spelled and the address if given, and changes nothing else |
| `MeshTrust.AdmissionTrusts` | crates/boatramp-cluster/src/raft.rs:637-664 | just that pair becomes trusted, if its spelling reads |
| `MeshTrust.RespelledIsReadmitted` | crates/boatramp-cluster/src/raft.rs:637-664 | a key stored in upper case and revoked is admitted again in lower case, with any token |
| `KeyRotation.InvKept` | crates/boatramp-cluster/src/node.rs:429-454 | every step of every interleaved call, every write landing late, and every restart that loads a key not on its way out keeps the accounting of accepted keys |
| `KeyRotation.AcceptedAtMost` | crates/boatramp-cluster/src/node.rs:429-454 | in every run whatever, accepted are at most the identity, announced keys, keys not yet retired, and keys left by crashes and late copies |
| `KeyRotation.AcceptedExactly` | crates/boatramp-cluster/src/node.rs:429-454 | they are exactly those in every run whose restarts load a key not on its way out; at the end only the identity, exactly if nothing was left over |
| `KeyRotation.LateCopyRevives` | crates/boatramp-cluster/src/http.rs:416-453 | a run in which a copy of a put that lands after the key's retirement makes it accepted again |
| `KeyRotation.PresentedIsAccepted` | crates/boatramp-cluster/src/node.rs:429-454 | with or without a key file, without overlap inside `set_identity` and with such restarts, the presented key is accepted by every replica that applied its put, and at the end it is left with what was left over |
| `KeyRotation.PersistedIsAccepted` | crates/boatramp-rpktls/src/lib.rs:728-738 | with a key file nothing is asked of the restarts, and the key a restart would load is as safe and in the end is the presented one |
| `KeyRotation.SafeExactlyUnlessRetired` | crates/boatramp-cluster/src/node.rs:429-454 | in every run, with any overlaps and restarts, a key that was put is safe to present exactly if it was never retired; the presented key and the one in the file have been put |
| `KeyRotation.FileIsSafeIff` | crates/boatramp-rpktls/src/lib.rs:728-738 | without overlap inside `set_identity`, whatever earlier restarts loaded, the key a restart would load is safe exactly if a key file is configured or no call has retired that key |
| `KeyRotation.RestartIsSafeIff` | crates/boatramp-rpktls/src/lib.rs:728-738 | at any moment of any run, with any overlaps and earlier restarts, restarting is safe exactly if the key in the file is not retired and no call or write in flight will retire it |
| `KeyRotation.PersistedRestartIsSafe` | crates/boatramp-rpktls/src/lib.rs:728-738 | with a key file, and without overlap inside `set_identity`, restarting is always safe |
| `KeyRotation.RotateThenRestartFails` | crates/boatramp-rpktls/src/lib.rs:653-657 | without a key file one ordinary rotation and a restart end presenting the retired key |
| `KeyRotation.OverlapCanFail` | crates/boatramp-rpktls/src/lib.rs:728-738 | any overlap inside `set_identity` can end with the presented key retired |
| `KeyRotation.EnteringIsSafeIff` | crates/boatramp-rpktls/src/lib.rs:728-738 | entering `set_identity` keeps the presented key accepted, however the calls under way go on, exactly if nobody is inside |
| `KeyRotation.OverlapFails` | crates/boatramp-rpktls/src/lib.rs:728-738 | a run of two calls that ends so, with the key file, if there is one, holding the retired key |
| `Propagation.WaitForPropagation` | crates/boatramp-acme/src/acme.rs:282-334 | the exact schedule: each poll but the first starts one interval, or what is left of the wait, and the overshoot after the one before; every poll but the last was undecided before the deadline; the exit is what the last calls for; slept and ended accordingly |
| `Propagation.WaitIsBounded` | crates/boatramp-acme/src/acme.rs:287-331 | at most ceil(wait / interval) + 1 polls, and sleep of at most the wait and at most an interval for each poll after the first; with a blind wait between one and two waits |
| `Propagation.SeenPromptly` | crates/boatramp-acme/src/acme.rs:287-331 | the last poll starts at once, or within one poll, one interval and one overshoot of the record becoming visible |
| `Propagation.SleepsBounded` | crates/boatramp-acme/src/acme.rs:287-331 | a sleep that starts within the wait after full intervals is among the first ceil(wait / interval) |
| `Propagation.Challenge.ConfirmThenSetReady` | crates/boatramp-acme/src/acme.rs:259-267 | the CA is told exactly once, at the moment the wait is over |

## Left out

- HTTP, QUIC and TLS transport, provider API calls, certificates, hashing and signing: input and output, or opaque.
- Raft elections and replication, vote and committed records: the log is given.
- Consumer-group lanes (grouped claim, retention sweep, `grouped_message_needed`): the topics a rebuild finds to have group work are an argument.
- Making and verifying join tokens, and compare-and-swap: admission takes a verified token, and swaps appear as the writes they make.
- The inline-byte budget: acks on another node, or repeated acks, release bytes that were not charged there.
- The peer-address observer: its reset only inserts, so it is not a mirror.
- Challenge cleanup, Route 53 and CAA quoting, the other DNS adapters, the console and the deployment mapping: easy mappings or input and output.
- `hrw_score`: sharding is proved for every score function instead of the hash.
- `eg_timestamp`'s formatting: it prints the same date conversion.
- Overflow of 64-bit clocks and counters and rounding of 64-bit floats.
- `DurableRuns.RestartResumesTheLog`: after a failed apply commit the node stops, as openraft stops it.
- `MeshTrust.TrustFromKeys`: states which pairs are accepted, not the order or repetition of a peer's keys.
- `MeshTrust.TrustKeyHexParses`: hex text with characters outside ASCII reads as malformed; the source cuts such text by bytes and can stop there.
- `Durable.KvStore.WriteBatch`: does not model the trait's sequential default, which can stop half way.
- `ReadySet.Rebuild`: does not model how group work is found; the topics with group work are an argument.
- `KeyRotation.RestartIsSafeIff`: takes the node to keep its id over a restart. The daemon derives the id from the key it loads, so a restart that loads a rotated key would come up under another id than the one its key is trusted for.
