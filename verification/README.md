# Verification of the message broker's core

A Dafny 4.11 model of a small Go message broker and proofs about it. The broker keeps each
partition in text segment files, replicates partitions from a leader to followers over a text
protocol, coordinates consumer groups, and elects partition leaders from a command log.

Check everything with `dafny verify dfyconfig.toml`.

## What is modelled

| file | subject |
|---|---|
| `Text.dfy`, `Ordering.dfy`, `Numbers.dfy` | the Go string, number and sort functions that the rest is built from, and arithmetic |
| `LogLine.dfy`, `Checksum.dfy`, `SegmentName.dfy`, `FetchCodec.dfy` | the three text formats and their parsers, and what the checksum detects |
| `SegmentedLog.dfy`, `StorageEngine.dfy`, `RetentionExact.dfy` | one partition's files, cache, rotation, retention and recovery: as functions, as the object that is updated in place, and as the storage over all partitions; and exactly what a retention pass drops |
| `PartitionHistory.dfy` | the log as its readers see it, CONSUME and its high-watermark filter |
| `ReplicationState.dfy`, `ReplicationLog.dfy`, `ReplicationManager.dfy`, `FollowerWorker.dfy` | the in-sync set, the high watermark, acks, `acks=all`, all of them also read off the log of calls, and the follower's fetch-apply-ack cycle |
| `LogDurability.dfy`, `StorageContract.dfy` | what survives on a partition with unreadable records, and what replication needs of a storage engine, both proved of the segmented log |
| `ReplicationProtocol.dfy`, `ReplicationTheorems.dfy`, `FetchCycles.dfy`, `CatchUp.dfy`, `ReplicationWitnesses.dfy` | one partition under one leader as a step protocol over such engines, what holds over its whole behaviours, in one replication cycle and in many, and behaviours in which each condition fails |
| `Assignors.dfy`, `ConsumerGroups.dfy`, `GroupTheorems.dfy`, `GroupExact.dfy`, `GroupCoordinator.dfy` | the assignors, the group state machine with its state file and restarts, exactly what each call makes and answers, and the coordinator object |
| `Metadata.dfy`, `MetadataLog.dfy`, `KeyRouting.dfy`, `Election.dfy`, `FailoverRuns.dfy`, `Controller.dfy` | the command log and the metadata read off it, key routing, election and fencing, failover with other commands between its steps, and the store and controller objects |

Objects that the source updates in place are classes here. Their methods keep the source's loops
and are proved against functions; the theorems are about those functions and about runs of them.

## Main results

- Replication: acks=all durability, log matching, what a follower can hold at all, reporting of
  concurrent produces, and committed reads, over every interleaving of produces, fetches, applies,
  lost, delayed and repeated messages, clock steps, retention, and restarts that reload the files.
  Who is in sync, and when acks=all succeeds, in terms of the calls made and their times. When a
  follower catches up, and in how many cycles.
- Storage: the cache equals what the files would load, recovery gives it back, and offsets are
  contiguous and never reused, over every run of readable appends, retention passes and restarts;
  on every run whatever was written before the first unreadable record stays until retention
  drops it; and what a retention pass drops, in terms of file times and sizes. A damaged line is
  skipped: CRC-32 detects every change within four consecutive bytes.
- Groups: for each group, generation and partition at most one consumer ever passes
  ValidateCommit, over every run of calls and restarts, the partition count free to change; and it
  passes exactly for the member to whom the assignor gives the partition.
- Control plane: the state is the fold of the accepted commands, and each of its parts is read off
  the command log; key routing always finds its partition and tells keys apart; an election leaves
  only eligible leaders or none; after a reconciliation the leaders are brokers that the log tells
  of within the timeout; and a failover leaves its suspect in place only if another command gave it
  back its standing in the meantime.

## Where the code falls short of its own promise

Each of these has a lemma with inputs that make it fail, and an exact condition, except that
durability (`AckAllDurable`) and `SuspectNeedsHelp` go one way.

- A record whose value has a newline or ends in a carriage return, or whose line is longer than
  65536 bytes, is lost when the file is loaded, with what follows an overlong line in the same file,
  and its offset is given out again (`LineRoundTrip`, `RecoverAppendIff`, `LongRecordReusesOffset`,
  `LongRecordHidesNext`). A record that acks=all confirmed can be lost that way on every replica
  (`CommittedThenLost`), and the request scanner lets such values in (`OverlongAdmitted`). The
  replication theorems therefore speak of what a node accepted before its first unreadable record
  (`LeaderIntactIff`, `FollowerIntactIff`, `RecordsSurvive`).
- A value with a comma is cut apart by the fetch reply (`FetchRoundTrip`), and its pieces can pass
  for later records. Followers match the leader exactly up to the first such value (`LogMatching`);
  beyond it a follower holds the head of the leader's value or a record forged by one earlier value
  (`FollowerHolds`). A poll can commit a comma-free record that no follower has (`CommitsForged`).
- Consume uses an offset as a cache index. Once retention has dropped records, committed reads skip
  or miss records and no follower that is behind makes progress (`ReadCommittedExact`,
  `CommittedReads`, `RetentionMisreads`, `FetchProgress`); retention does drop records
  (`RetentionDrops`). A negative offset crashes the broker (`ConsumeSkipsByIndex`,
  `ReadCommittedExact`).
- The leader serves nothing past the offset its manager knows of (`FetchProgress`,
  `UnreportedNotServed`), and after a restart the manager knows of nothing until the next append or
  bootstrap (`ProducesReported`, `RestartedUnaware`).
- A topic that contains `hw=` or `records=` is taken for that field of its fetch replies
  (`TransferIsArrival`, `SafeTopicIff`).
- The high watermark can fall when lag is allowed and there are followers
  (`WatermarkMonotoneIff`). The -1 that SetRole writes on demotion never survives the call
  (`Manager.SetRole`, `DemotionKeepsWatermark`).
- A segment older than the age limit can be left at the front of a log of several segments when a
  younger one stood before it (`RetainedWithin`, `OldLeftBehind`).
- A heartbeat of the suspect between the fence and the election undoes a failover
  (`HeartbeatUndoesFailover`, `SuspectNeedsHelp`).
- A group keeps the assignment made for an old partition count until its next rebalance
  (`FromScratch`, `CountShows`).

## Model

| member | source | states |
|---|---|---|
| `LogLine.ParseBody` | core/internal/storage/storage.go:345-366 | parsing a printed record gives back its offset and value, for every value, the field separator included |
| `LogLine.LineRoundTrip` | core/internal/storage/storage.go:314-366 | a printed line loads back to exactly its record if and only if the value has no newline, does not end in a carriage return and the line fits the scanner's buffer |
| `LogLine.AppendedLineLoads` | core/internal/storage/storage.go:314-342 | appending a line to an intact file adds exactly its record to what the file loads if and only if the record is readable |
| `Checksum.ParseExact` | core/internal/storage/storage.go:345-366 | a line loads as a record if and only if it reads offset, time, checksum and value with the checksum of that very value |
| `Checksum.BurstDetected` | core/internal/storage/storage.go:96-97 | CRC-32 gives different checksums to any two texts that differ in at most four consecutive bytes |
| `Checksum.ChangedValueLoads` | core/internal/storage/storage.go:345-366 | a written line in which another value took the place of its own loads if and only if the two have the same checksum |
| `Checksum.DamagedLineSkipped` | core/internal/storage/storage.go:314-342 | loading skips a written record in which at most four consecutive bytes of the value changed, and keeps everything around it |
| `SegmentName.NameRoundTrip` | core/internal/storage/storage.go:394-396 | a file name is parsed back to its topic, partition and segment if and only if the topic is not empty, the partition is not negative and the topic followed by `-` lacks the marker |
| `SegmentName.ParsedPartitionNonNegative` | core/internal/storage/storage.go:527-551 | no file name parses to a negative partition |
| `FetchCodec.FetchRecords` | core/internal/replication/tcp_transport.go:30-72 | the record-parsing loop computes the decoding function, error cases included |
| `FetchCodec.TransferIsArrival` | core/internal/network/handler.go:439-448 | what printing a fetch reply and parsing it on the follower's side gives, for every topic and every list of values, through envelope, field extraction and item parsing: the high watermark and the records as the comma cuts leave them, each replaced by what a topic that holds its token contributes |
| `FetchCodec.FetchRoundTrip` | core/internal/replication/tcp_transport.go:111-156 | a follower reads exactly the records that were sent if and only if what is read in the topic agrees with them and no value has a comma; for a safe topic, if and only if no value has a comma |
| `FetchCodec.SafeTopicIff` | core/internal/replication/tcp_transport.go:111-156 | every comma-free reply about a topic is read as it was sent if and only if the topic contains neither `hw=` nor `records=` |
| `FetchCodec.ArrivalPrefix` | core/internal/replication/tcp_transport.go:39-71 | in a batch that can be read, the records before the first value with a comma arrive unchanged, and that one arrives under its own offset with its value up to the comma |
| `PartitionHistory.FilterCommitted` | core/internal/network/handler.go:204-225 | the filtering loop keeps the records up to the high watermark |
| `PartitionHistory.ConsumeSkipsByIndex` | core/internal/storage/storage.go:236-255 | Consume from o returns exactly the records with offset at least base + o, and panics exactly on a negative o where there is data |
| `PartitionHistory.ReadCommittedExact` | core/internal/network/handler.go:182-226 | a committed read from o >= 0 returns the log from o through the high watermark if and only if nothing was dropped or there is nothing to read; from a negative o it crashes the broker if and only if something is committed |
| `SegmentedLog.AppendKeeps` | core/internal/storage/storage.go:89-144 | an append of a readable record, rotation included, keeps the invariant and adds exactly that record under the next offset |
| `SegmentedLog.AppendReadableIff` | core/internal/storage/storage.go:95-129 | after any append the files load back to the cache if and only if the record was readable |
| `SegmentedLog.RecoverAppendIff` | core/internal/storage/storage.go:265-304 | a restart after an append to a good log gives back every record if and only if the appended one was readable |
| `SegmentedLog.RotateKeeps` | core/internal/storage/storage.go:385-392 | rotation leaves a segment that the line fits into, or an empty one, so every segment stays within its limit or holds one record |
| `SegmentedLog.DeleteOldestKeeps` | core/internal/storage/storage.go:509-524 | deleting a segment and replaying the rest drops exactly its records, keeps the newest and restores the next offset from zero |
| `SegmentedLog.RetainKeeps` | core/internal/storage/storage.go:455-506 | a retention pass removes only an oldest run of segments, never the active one, never moves the next offset, and ends within the byte limit or at one segment |
| `SegmentedLog.RecoverKeeps` | core/internal/storage/storage.go:265-304 | recovery from a good log's files gives the same records, next offset and active segment, whatever phantom segment 0 it seeds |
| `SegmentedLog.RunKeeps` | core/internal/storage/storage.go:89-198 | over every run of readable produces, replicated appends, retention passes and restarts the cache is the concatenation of the files and holds each appended value at its own offset |
| `SegmentedLog.RunMonotone` | core/internal/storage/storage.go:516-524 | along a run the next offset never falls, the base never moves back and the appended values only grow |
| `SegmentedLog.RunRefinesHistory` | core/internal/storage/storage.go:211-224 | after every such run the cache and LastOffset are those of the simple history that readers and replication use |
| `SegmentedLog.ReplicaRefinesHistory` | core/internal/storage/storage.go:148-159 | AppendReplicated ignores, accepts and refuses exactly what the simple history does |
| `SegmentedLog.LongRecordReusesOffset` | core/internal/storage/storage.go:314-342 | every value whose line overflows the scanner's buffer makes a restarted empty partition give out offset 0 again |
| `SegmentedLog.LongRecordHidesNext` | core/internal/storage/storage.go:314-342 | any record written behind such a one in the same file is lost with it on restart |
| `SegmentedLog.RetentionDrops` | core/internal/storage/storage.go:486-506 | under tight limits any two readable produces leave only the second, with a base of 1 |
| `RetentionExact.RetainExact` | core/internal/storage/storage.go:455-506 | a pass drops an oldest run of segments with their files: segment i goes if and only if it is not the last and either it and all before it have no file younger than the age limit, or the files from it on exceed the byte limit |
| `RetentionExact.RetainedWithin` | core/internal/storage/storage.go:455-506 | several segments are left only within the byte limit, and their oldest is older than the age limit if and only if it stood behind a younger one that went for its size |
| `RetentionExact.OldLeftBehind` | core/internal/storage/storage.go:465-483 | times and sizes for which that happens |
| `RetentionExact.StepRetains` | core/internal/storage/storage.go:89-198 | every stored record, every pass and every restart ends with exactly one such pass at its own time, and a replicated record that is not stored changes nothing |
| `RetentionExact.AppendRotates` | core/internal/storage/storage.go:385-392 | an append begins a new segment if and only if the active file exists and the line would take it past the limit |
| `RetentionExact.AppendWrites` | core/internal/storage/storage.go:95-129 | an append puts the printed line at the end of the active file, stamped with its time, and changes no other file |
| `LogDurability.StepLasts` | core/internal/storage/storage.go:89-198 | on any partition, with unreadable records or not, every operation keeps in memory and on disk all older records from a base on, and the base moves by exactly the records its retention pass takes out of the files |
| `LogDurability.RetentionMovesBase` | core/internal/storage/storage.go:455-524 | on a good log that base is the oldest record's offset, so only retention moves it |
| `StorageContract.SegmentedReliable` | core/internal/storage/storage.go:89-198 | the segmented log under any limits is a storage engine as replication needs it: faithful from the start and kept so by every operation on readable records, its cache then being the simple history; durable under every operation, only retention moving the base |
| `StorageEngine.PartitionLog.constructor` | core/internal/storage/storage.go:62-80 | a new engine over files is recovery followed by a retention pass |
| `StorageEngine.PartitionLog.LoadData` | core/internal/storage/storage.go:265-304 | the loading loop computes recovery, in ascending segment order, and leaves a well-formed segment list unless an id is negative |
| `StorageEngine.PartitionLog.LoadSegment` | core/internal/storage/storage.go:314-342 | the line loop appends what the file loads and advances the next offset past it |
| `StorageEngine.PartitionLog.RebuildFromSegments` | core/internal/storage/storage.go:516-524 | clearing and replaying computes the rebuilt log |
| `StorageEngine.PartitionLog.ApplyAgeRetention` | core/internal/storage/storage.go:465-483 | with age retention on, only oldest segments go, each with no file younger than the cutoff, and of several left the oldest is younger than it; with age retention off nothing changes |
| `StorageEngine.PartitionLog.ApplySizeRetention` | core/internal/storage/storage.go:486-506 | the running total equals the real remaining size, and the loop computes size retention |
| `StorageEngine.PartitionLog.ProduceToPartition` | core/internal/storage/storage.go:89-144 | for its own partition: the new state is append then retention, and the returned offset is the old next offset |
| `StorageEngine.PartitionLog.AppendReplica` | core/internal/storage/storage.go:148-198 | for its own partition: accepted at the next offset, ignored below it, refused above it, with the whole new state |
| `StorageEngine.Storage.EnforceRetention` | core/internal/storage/storage.go:455-463 | one retention pass of every partition, whatever the map order |
| `StorageEngine.Storage.ProduceToPartition` | core/internal/storage/storage.go:89-144 | over all partitions: its own takes a produce step, every other one a retention step |
| `StorageEngine.Storage.AppendReplicated` | core/internal/storage/storage.go:148-198 | over all partitions: its own takes a replicate step, every other one a retention step exactly when the record is accepted |
| `ReplicationState.ApplyLawful` | core/internal/replication/manager.go:101-142 | after every manager call the high watermark is the least of the leader's and the in-sync offsets, lies within the permitted lag, recorded offsets do not pass the leader's, and both kinds only grow |
| `ReplicationState.RunLawful` | core/internal/replication/manager.go:244-271 | the same law after every run of calls from a new partition |
| `ReplicationState.RunGrows` | core/internal/replication/manager.go:116-142 | along a run the leader's offset and every recorded offset only grow |
| `ReplicationState.WatermarkMonotoneIff` | core/internal/replication/manager.go:244-267 | the high watermark never falls, in any run, if and only if no lag is allowed or there are no followers |
| `ReplicationState.DemotionKeepsWatermark` | core/internal/replication/manager.go:180-197 | a demotion is a recomputation that changes only the role: the -1 and the cleared flags it writes are recomputed away |
| `ReplicationState.CommittedMeansRecorded` | core/internal/replication/manager.go:145-163 | a committed target is within the leader's offset and the recorded offsets of at least MinInSyncReplicas - 1 followers |
| `ReplicationState.PollSucceedsIff` | core/internal/replication/manager.go:145-163 | a poll succeeds if and only if the leader has the target, at least MinInSyncReplicas - 1 followers were seen within the timeout and are within the lag, and each of these has acked the target |
| `ReplicationLog.RoleRead` | core/internal/replication/manager.go:180-197 | over every run of calls the role is the one last set, and leader before that |
| `ReplicationLog.LeaderOffsetRead` | core/internal/replication/manager.go:101-113 | over every run the leader offset is the furthest that an append under leadership or a bootstrap reported |
| `ReplicationLog.OffsetRead` | core/internal/replication/manager.go:116-142 | over every run a follower's offset is the furthest that an accepted ack put it, each ack counting up to the leader offset of its time |
| `ReplicationLog.LastSeenRead` | core/internal/replication/manager.go:116-142 | over every run a follower was last seen at the time of its last accepted ack |
| `ReplicationLog.InSyncRead` | core/internal/replication/manager.go:244-271 | after every call that recomputes, a follower is in sync if and only if its last accepted ack in the log is not older than the timeout and it is within the permitted lag; other calls change nothing |
| `ReplicationState.Clamp` | core/internal/replication/manager.go:54-79 | each number becomes the nearest usable one, times that are not positive become ten and two seconds, and a usable configuration is unchanged |
| `ReplicationManager.RecomputeLocked` | core/internal/replication/manager.go:244-271 | the two loops leave a follower in sync if and only if it was seen within the timeout and is within the lag, touch no offset or time, and compute the watermark, whatever the map order |
| `ReplicationManager.StatusLocked` | core/internal/replication/manager.go:225-242 | the reported list is the leader and the in-sync followers, each once |
| `ReplicationManager.AwaitCommit` | core/internal/replication/manager.go:145-163 | the polling loop succeeds if and only if some poll finds the target acked by enough replicas, in terms of offsets and times, before a deadline check fails |
| `ReplicationManager.Manager.EnsurePartition` | core/internal/replication/manager.go:81-98 | creates the initial state once and leaves other partitions alone |
| `ReplicationManager.Manager.OnLeaderAppend` | core/internal/replication/manager.go:101-113 | the partition's new state is the call's function, all others unchanged |
| `ReplicationManager.Manager.AckReplica` | core/internal/replication/manager.go:116-142 | an ack is clamped to the leader's offset and maxed, or refused without effect |
| `ReplicationManager.Manager.WaitForAckAll` | core/internal/replication/manager.go:145-163 | success is exactly such a poll in time, with the state after all polls |
| `ReplicationManager.Manager.HighWatermark` | core/internal/replication/manager.go:165-171 | returns the freshly recomputed watermark |
| `ReplicationManager.Manager.SetRole` | core/internal/replication/manager.go:180-197 | only the two roles are accepted, with the whole new state; on demotion it writes -1 and clears every in-sync flag before it recomputes |
| `ReplicationManager.Manager.BootstrapOffset` | core/internal/replication/manager.go:202-214 | raises the leader's offset, never lowers it, with the whole new state |
| `FollowerWorker.Worker.StepOnce` | core/internal/replication/worker.go:87-116 | the loop applies records up to the first gap, acks the last applied offset only when nothing failed, and fails when that ack does |
| `FollowerWorker.BatchMeaning` | core/internal/replication/worker.go:98-108 | a batch appends exactly the in-line records the store lacks, in order, and fails only at a misplaced one |
| `ReplicationProtocol.ArrivalChained` | core/internal/replication/tcp_transport.go:39-71 | whatever the commas did to a batch, a record that passes the worker's gap check is the head of the leader's value at its offset, or forged by the pieces of one earlier value that run in line to it |
| `ReplicationProtocol.NextKeeps` | core/internal/network/handler.go:399-477 | every protocol step keeps the replication invariant, whether or not the records are readable |
| `ReplicationTheorems.LeaderIntactIff` | core/internal/storage/storage.go:314-342 | a leader counts as intact in a state exactly when every value appended before it was readable |
| `ReplicationTheorems.FollowerIntactIff` | core/internal/storage/storage.go:314-342 | the same for a follower and the records it stored |
| `ReplicationTheorems.RecordsSurvive` | core/internal/storage/storage.go:148-198 | over whole behaviours, what a leader or follower accepted before its first unreadable record is in its cache from its base on, and the base never moves back; while a node is intact its log is a history that only grows and the cache is that history from the base on |
| `ReplicationTheorems.FollowerHolds` | core/internal/replication/worker.go:98-108 | in every reachable state what a follower accepted at an offset before its first unreadable record is the head of the leader's value or forged by one earlier value; it is the leader's own record when the log is trusted there, never when the leader's value has a comma, and it is in the cache from the follower's base on |
| `ReplicationTheorems.LogMatching` | core/internal/replication/worker.go:98-108 | in every reachable state what a follower accepted before its first unreadable record is a prefix of the intact leader's log if and only if no leader value it has passed holds a comma |
| `ReplicationTheorems.AckAllDurable` | core/internal/network/handler.go:141-148 | once a poll commits o, the logs of at least MinInSyncReplicas - 1 distinct followers have run past o, and the intact leader's has; on each of these nodes a record at o written before the node's first unreadable one is in the cache in every later state, restarts included, until the node's own retention drops it; it is the leader's own record when the log is trusted at o; and the recorded offsets stay at or above o until the leader restarts |
| `ReplicationTheorems.ProducesReported` | core/internal/network/handler.go:141-142 | the manager's leader offset stays below the log's end in every interleaving; with nothing in flight it is the last offset if and only if the log is empty or an append or a bootstrap came since the leader last started, and without one it is -1 |
| `ReplicationTheorems.CommittedReads` | core/internal/network/handler.go:204-225 | a CONSUME from o >= 0 that reads the watermark in one state and the log in a later one returns the committed slice if and only if nothing was dropped or there is nothing to return; from a negative o it crashes the broker if and only if something was committed |
| `FetchCycles.FetchProgress` | core/internal/network/handler.go:432-448 | a worker that is behind makes progress in a cycle if and only if its offset is within the leader offset that the manager knows, nothing was dropped and the reply can be read; otherwise it stays where it is, whatever the commas |
| `FetchCycles.FetchExact` | core/internal/replication/worker.go:87-116 | one cycle stores exactly the leader's next records, as many as were asked for or are there, if and only if the manager knows of the first, nothing was dropped and none has a comma |
| `FetchCycles.TurnIsWorkers` | core/internal/replication/worker.go:98-108 | a follower's turn in the protocol, on its real store, is a turn of the worker's loop on its history |
| `FetchCycles.CycleRuns` | core/internal/replication/worker.go:87-116 | from every state of the protocol with an idle worker, the steps of one undisturbed cycle lead to what the cycle function says, with the last applied offset acked if nothing was refused |
| `CatchUp.CatchesUp` | core/internal/replication/worker.go:87-116 | from a leader that dropped nothing and knows its whole log, k cycles bring exactly the next k batches of comma-free records |
| `CatchUp.CatchesUpIff` | core/internal/replication/worker.go:87-116 | a follower behind a leader whose manager knows the whole log ends up with that log if and only if nothing was dropped and none of the records it lacks has a comma |
| `CatchUp.WorkerResumes` | core/internal/broker/cluster_runtime.go:136-160 | over whole behaviours a new worker or a restarted follower resumes right after the last record of its intact log |
| `ReplicationTheorems.RecordedOffsetsGrow` | core/internal/replication/manager.go:116-142 | recorded offsets only grow between leader restarts |
| `ReplicationWitnesses.CommitsForged` | core/internal/replication/tcp_transport.go:39-71 | for all comma-free x, y, w with y different from w there is a behaviour in which a poll commits offset 1, the leader holds w there and the follower y |
| `ReplicationWitnesses.CommitsWithoutAll` | core/internal/replication/manager.go:145-163 | with three replicas or more, two of which must have a record, there is a behaviour in which a poll commits while a follower was never seen |
| `ReplicationWitnesses.CommittedThenLost` | core/internal/storage/storage.go:314-342 | for every value v too long to load and every value w produced after it there is a behaviour in which a poll commits w, both replicas holding both, and after restarts neither replica has either |
| `ReplicationWitnesses.UnreportedNotServed` | core/internal/network/handler.go:432-437 | for every readable v there is a behaviour that ends with v on the intact leader, nothing dropped, and a worker that asked and got nothing |
| `ReplicationWitnesses.RestartedUnaware` | core/internal/broker/cluster_runtime.go:136-145 | for every readable v there is a behaviour that ends with v on the restarted leader, nothing in flight, and a leader offset of -1 |
| `ReplicationWitnesses.OverlongAdmitted` | core/internal/network/handler.go:22-24 | a request with 65511 value bytes fits the request scanner and its log line does not fit the same buffer |
| `ReplicationWitnesses.RetentionMisreads` | core/internal/network/handler.go:182-226 | for any two readable values there is a behaviour in which both are committed, CONSUME from 0 skips the first and CONSUME from 1 returns nothing |
| `Assignors.AssignRoundRobin` | core/internal/coordinator/group.go:289-294 | the loop computes the round-robin assignment |
| `Assignors.AssignRange` | core/internal/coordinator/group.go:296-317 | the loop computes the consecutive range blocks |
| `Assignors.RoundRobinExact` | core/internal/coordinator/group.go:289-294 | every partition has exactly one owner, lists ascend, and the k-th load is n divided by the members, rounded up for the first ones |
| `Assignors.RangeExact` | core/internal/coordinator/group.go:296-317 | the same, and the k-th member's list is the k-th consecutive block |
| `Assignors.StartEnds` | core/internal/coordinator/group.go:296-317 | the blocks end exactly at the number of partitions |
| `Assignors.RebalancedExact` | core/internal/coordinator/group.go:270-287 | a rebalance over any non-empty set of members gives each partition one owner with loads at most one apart |
| `Assignors.CountShows` | core/internal/coordinator/group.go:270-287 | two partition counts give the same assignment if and only if they are equal or there are no members |
| `Ordering.StringLeqExact` | core/internal/coordinator/group.go:270-287 | the order in which members are dealt partitions: a prefix first, else the lower byte where two ids first differ |
| `GroupExact.OwnedExact` | core/internal/coordinator/group.go:270-317 | a rebalance gives the k-th of m members in ascending order exactly its block of consecutive partitions, or exactly the partitions that leave remainder k |
| `ConsumerGroups.AfterSound` | core/internal/coordinator/group.go:79-207 | every call keeps a group's order, members and assignment consistent, re-assigns over the current partitions whenever the generation rises, and raises the generation whenever topic, assignor, members or assignment change |
| `ConsumerGroups.FirstSound` | core/internal/coordinator/group.go:79-103 | a call that creates a group leaves it consistent |
| `ConsumerGroups.SaveLoad` | core/internal/coordinator/group.go:323-409 | saving and loading a group changes only heartbeats, cut to the millisecond |
| `ConsumerGroups.SaveLoadSave` | core/internal/coordinator/group.go:323-409 | a loaded group is saved as the same state again |
| `GroupTheorems.InvokePersists` | core/internal/coordinator/group.go:244-268 | after every call, on every path, the file holds what memory holds |
| `GroupTheorems.FromScratch` | core/internal/coordinator/group.go:270-287 | in every reachable state the assignment is the assignor applied to the set of members and the partition count of when the generation began, whatever the order of joins, leaves and expiries; that is the current count's assignment if and only if the count is the same or the group is empty |
| `GroupTheorems.GenerationPins` | core/internal/coordinator/group.go:209-242 | over runs with restarts a group never disappears, its generation never falls, and equal generations mean equal topic, assignor, members and assignment |
| `GroupTheorems.ExclusiveOwnership` | core/internal/coordinator/group.go:184-207 | over every run, restarts with other partition counts included, for each group, generation and partition at most one consumer ever passes ValidateCommit, and for one topic |
| `GroupTheorems.RestartTransparent` | core/internal/coordinator/group.go:368-409 | a restart at any point of a run, with any partition count, gives back the same groups up to the millisecond cut of heartbeats |
| `GroupExact.ExpireExact` | core/internal/coordinator/group.go:244-268 | expiry removes exactly the members not heard from within the session timeout, keeps the order of the others, and raises the generation by one if there are any to remove |
| `GroupExact.VisitExact` | core/internal/coordinator/group.go:106-207 | exactly what a call other than a join leaves of its group: expiry, and for a current member the departure or the heartbeat and nothing else; nothing at all on a missing group or another topic |
| `GroupExact.JoinExact` | core/internal/coordinator/group.go:79-103 | exactly what a join makes of its group: topic, assignor, members with their heartbeats and order, and one generation for each of a new topic, a new assignor, an expiry and a new member |
| `GroupExact.AnswerExact` | core/internal/coordinator/group.go:106-207 | which error each such call returns, and with success exactly the partitions the assignor gives the member |
| `GroupExact.JoinAnswer` | core/internal/coordinator/group.go:79-103 | a join answers with the new generation and exactly what the assignor gives the new set of members |
| `GroupExact.CommitExact` | core/internal/coordinator/group.go:184-207 | over runs, ValidateCommit passes if and only if the group is on that topic in that generation, the consumer is a member, and the assignor gives it the partition for the members and the partition count of when the generation began |
| `GroupExact.OneMayCommit` | core/internal/coordinator/group.go:184-207 | in every state of a run in which nobody is silent, exactly one member may commit each partition below that count, and nobody any other |
| `GroupCoordinator.ComputeAssignments` | core/internal/coordinator/group.go:270-287 | sorting and dispatching computes the rebalanced assignment |
| `GroupCoordinator.SweepExpired` | core/internal/coordinator/group.go:244-268 | the loop keeps exactly the live members in order, and removes the others |
| `GroupCoordinator.GroupManager.constructor` | core/internal/coordinator/group.go:67-76 | a new manager holds what its file loads |
| `GroupCoordinator.GroupManager.Save` | core/internal/coordinator/group.go:323-366 | writes every group, whatever the map order |
| `GroupCoordinator.GroupManager.CleanupExpired` | core/internal/coordinator/group.go:244-268 | expires, rebalances and saves when someone left, and otherwise changes nothing |
| `GroupCoordinator.GroupManager.EnsureGroup` | core/internal/coordinator/group.go:209-242 | creates, moves or re-assigns the named group and no other |
| `GroupCoordinator.GroupManager.JoinGroup` | core/internal/coordinator/group.go:79-103 | is one step of the group machine, memory and file, with its answer |
| `GroupCoordinator.GroupManager.LeaveGroup` | core/internal/coordinator/group.go:106-135 | is one step of the group machine, with its error |
| `GroupCoordinator.GroupManager.SyncGroup` | core/internal/coordinator/group.go:138-158 | is one step of the group machine, with its answer |
| `GroupCoordinator.GroupManager.Heartbeat` | core/internal/coordinator/group.go:161-181 | is one step of the group machine, with its error |
| `GroupCoordinator.GroupManager.ValidateCommit` | core/internal/coordinator/group.go:184-207 | is one step of the group machine, and passes exactly when the group it leaves is on that topic in that generation and has the consumer as a member that owns the partition |
| `Metadata.FoldOfAccepted` | core/internal/controlplane/raft_store.go:28-81 | the state is the fold of the accepted commands, rejected ones change nothing, and the index counts the accepted ones |
| `Metadata.RunKeyed` | core/internal/controlplane/store.go:58-84 | in every reachable state topics and brokers are stored under their own valid names and ids |
| `Metadata.RunDense` | core/internal/controlplane/controller.go:29-50 | after any interleaving of controller commands every topic has partition ids 0..k-1, k > 0 |
| `Metadata.RoutingFindsPartition` | core/internal/storage/storage.go:258-262 | hashing any key over a topic's partition count always lands on existing partition metadata |
| `KeyRouting.RoutesApart` | core/internal/storage/storage.go:258-262 | over 2^k partitions two keys that differ in one byte go to the same partition if and only if the last k binary digits of that byte agree |
| `MetadataLog.AcceptedIff` | core/internal/controlplane/raft_store.go:28-81 | a command is accepted if and only if it is well formed and the log before it registered the broker or last stored the topic with the partition; refused ones change nothing |
| `MetadataLog.RegisteredRead` | core/internal/controlplane/raft_store.go:28-81 | a broker is in the metadata if and only if some command registered it |
| `MetadataLog.LastHeartbeatRead` | core/internal/controlplane/raft_store.go:28-81 | a broker's last heartbeat is the time of the last accepted heartbeat or registration in the log, for a registration the time it brings along if it has one |
| `MetadataLog.FenceRead` | core/internal/controlplane/raft_store.go:28-81 | a broker is fenced as the last accepted registration, heartbeat or fence command says |
| `MetadataLog.TopicRead` | core/internal/controlplane/raft_store.go:28-81 | a topic is in the metadata if and only if some command stored it, with the partitions and replicas of the last such command |
| `MetadataLog.LeaderRead` | core/internal/controlplane/raft_store.go:28-81 | a partition has the leader and the in-sync list last named for it since its topic was last stored, or those it was stored with |
| `MetadataLog.ReconcileExact` | core/internal/controlplane/controller.go:120-145 | over every command log, a reconciliation leaves a broker unfenced if and only if the last accepted heartbeat or registration of it is not older than the timeout |
| `MetadataLog.LeaderHeard` | core/internal/controlplane/controller.go:120-183 | over every command log, reconciliation then election leaves a partition with a leader that the log tells of within the timeout, or with none and no such replica |
| `Election.FirstIsHead` | core/internal/controlplane/controller.go:193-210 | the elected leader is the head of the new ISR, and -1 exactly when no replica is eligible |
| `Election.ElectedMeaning` | core/internal/controlplane/controller.go:147-183 | after an election a leader is registered and unfenced or -1 with no eligible replica, eligible leaders stay, the new ISR is the eligible replicas, and a second election changes nothing |
| `Election.ElectedExact` | core/internal/controlplane/controller.go:147-210 | a leader that is registered and not fenced stays with its in-sync list; any other gives way to the first such replica, the list then naming all such replicas in their order; without one nobody leads and the list stays |
| `Election.ElectedTopicIdempotent` | core/internal/controlplane/controller.go:147-183 | electing a topic twice is electing it once, and then nothing moves |
| `Election.ReconcileThenElect` | core/internal/controlplane/controller.go:120-145 | on any metadata, reconciliation then election leaves only leaders whose last heartbeat is within the timeout, or none and no such replica |
| `Election.FailoverClears` | core/internal/broker/cluster_runtime.go:229-246 | when nothing comes between its steps, a failover on topics made through the controller leaves the suspect no partition, does not touch other eligible leaders, and leaves a partition leaderless exactly where neither its leader nor a replica is eligible |
| `FailoverRuns.SuspectNeedsHelp` | core/internal/broker/cluster_runtime.go:229-246 | with any controller commands between the fence, the snapshots and the leader updates, the suspect leads a partition at the end only if one of them, after the fence, unfenced it, registered it again, heard its heartbeat or made it a leader |
| `FailoverRuns.HeartbeatUndoesFailover` | core/internal/broker/cluster_runtime.go:229-246 | a behaviour in which the suspect's heartbeat comes after the fence and the suspect still leads at the end |
| `Controller.MetadataStore.Apply` | core/internal/controlplane/raft_store.go:28-81 | the in-place update is the command's function, and succeeds exactly when the command is accepted |
| `Controller.ElectFromReplicas` | core/internal/controlplane/controller.go:193-200 | the loop finds the first eligible replica |
| `Controller.SelectEligibleReplicas` | core/internal/controlplane/controller.go:202-210 | the loop lists the eligible replicas |
| `Controller.ChooseLeader` | core/internal/controlplane/controller.go:164-177 | target and ISR are those of the elected partition |
| `Controller.Controller.CreateTopic` | core/internal/controlplane/controller.go:18-51 | the loops build a topic with partitions 0 to n-1, led by nobody, each with replicas 0 to rf-1 all in sync, and errors change nothing |
| `Controller.Controller.RegisterBroker` | core/internal/controlplane/controller.go:53-77 | registers an unfenced broker heard from now, and errors change nothing |
| `Controller.Controller.SetPartitionLeader` | core/internal/controlplane/controller.go:86-105 | exactly when it succeeds, and its whole effect |
| `Controller.Controller.SetBrokerFence` | core/internal/controlplane/controller.go:107-118 | exactly when it succeeds, and its whole effect |
| `Controller.Controller.ReconcileBrokerHealth` | core/internal/controlplane/controller.go:120-145 | fences exactly the brokers whose last heartbeat is not within the timeout, and counts the changes exactly |
| `Controller.Controller.ElectTopicLeaders` | core/internal/controlplane/controller.go:147-183 | elects the whole topic or changes nothing, and counts the changes exactly |
| `Controller.Controller.TryFailover` | core/internal/broker/cluster_runtime.go:229-246 | fences the suspect and elects every topic, whatever the map order |

## Left out

- FetchCodec.TransferIsArrival: is stated for topics and values without white space, because they reach the broker as white-space separated request words.
- FetchCodec.FetchRoundTrip: is stated under the same condition.
- PartitionHistory.ConsumeSkipsByIndex: takes an empty cache for a partition without data; a partition whose last loadable record went with a deleted segment has an empty list instead, where a negative offset panics too.
- ReplicationProtocol.NextKeeps: has a safe topic and one fixed leader; the code has no log truncation and no leader epoch, so agreement across leaders is not something it decides.
- ReplicationTheorems.AckAllDurable: says nothing of a record at or after a node's first unreadable one; `ReplicationWitnesses.CommittedThenLost` shows that such records can be lost.
- StorageEngine.PartitionLog.constructor: takes files with non-negative segment ids, which are the only ones the broker writes; a foreign file with a negative id would list segment 0 twice.
- StorageEngine.PartitionLog.ProduceToPartition: is one partition's object with the source's loops; the same call over all partitions is `StorageEngine.Storage.ProduceToPartition`.
- StorageEngine.PartitionLog.AppendReplica: likewise, for `StorageEngine.Storage.AppendReplicated`.
- CatchUp.CatchesUpIff: has a manager that knows the whole log; one that knows less serves what follows a known offset and then nothing, which `FetchCycles.FetchExact` and `FetchCycles.FetchProgress` state cycle by cycle.
- GroupExact.OneMayCommit: has nobody silent, because with a silent member the next call expires it and begins another generation; `GroupExact.CommitExact` covers that call.
- KeyRouting.RoutesApart: has a power of two of partitions, because for other counts the remainder depends on all digits of the hash and no such rule holds.
- FailoverRuns.SuspectNeedsHelp: goes one way, because a command that restores the suspect can itself come too late or be overtaken by the election.
- Controller.Controller.ElectTopicLeaders: takes the snapshot and its updates as one step; `FailoverRuns` has them apart, with other commands in between.
- Controller.Controller.ReconcileBrokerHealth: takes the snapshot and its fences as one step.
- Controller.Controller.TryFailover: is one step, and leaves out the role updates on the replication manager, which use the snapshot taken before the election and so miss newly won partitions until the next reconciliation.
- GroupCoordinator.ComputeAssignments: sorts the set of member ids, which is the source's sort on the duplicate-free lists that every reachable group has.
- Text is one byte per character: multi-byte text and the 64-bit limits of number parsing are not modelled.
- File-system failures, fsync and torn writes: every file operation succeeds, and JSON gives back what was written.
- Same-node replica mirrors and the offset and time index files, which nothing reads back into the log.
- The nested topic and partition maps are one map over pairs or one object per partition; locks appear as atomic methods or protocol steps.
- The runtime's failure counting and ticking, initial leader placement of implicitly created topics, the simulated replica commands, committed offsets, configuration, logging, alerts and the client libraries, which would add only easy members.
