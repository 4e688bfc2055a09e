# NexGuard Sentinel: a verified model

This project models the parts of NexGuard Sentinel whose correctness depends on what happens over
time: the durable store of the signing agent, the recovery controller, its backup directory, and the
two contracts together with the ordering key of their indexer. Dafny proves what these parts keep
over all runs. `dafny verify dfyconfig.toml` checks everything.

## What is modelled

**The durable store.** Seven SQL tables are changed by five transactions. `StoreTables` gives each
operation as one step on the tables; `DurableStore` is the class that changes the tables in the order
of the SQL statements, each method proved equal to its step. `StoreInvariants` lists what every step
keeps, as relations between tables: cursors and events, incidents and owned events, statuses and
columns, audit log and intents, audit log and outbox. `StoreTheorems` and `StoreDelivery` draw the
conclusions for whole runs. `StoreProcesses` is the level below: any number of processes, each
transaction a sequence of single statements on a working copy, one writer at a time, readers at any
moment, and a crash or an error possible between any two statements. `StoreConcurrency` proves that
the file and all answers are those of the completed operations, run one at a time in commit order, so
that the results about runs hold of the concurrent system, and `StoreProgress` that every call can be
carried through. `StoreCalls` reads the tables from the other side: every column, every line of the
audit log and every answer is determined by the arguments of the calls that completed before.

**The recovery controller.** `Throttle` is the decision at the top of a recovery attempt: a deque of
recent attempts, a cooldown and a latch, related to the full history of attempts. `Scheduling` has
the timing loops. `Recovery` and `Incidents` are the two stateful objects, `Controller` the one that
wires them together, and `ControllerTheorems` the accounting over runs of health results.
`RecoveryAnswers` and `ControllerAnswers` say when an attempt is tried, when it succeeds and for which
reason it fails, and which good results take a backup.

**The backup directory.** `Backups` treats a backup as a list of single renames and removals, any
prefix of which may be all that happens. `BackupRuns` follows the directory and the live
configuration over runs of backups, crashes, failed renames, restores and outside edits; `BackupStore`
is the object whose methods do the operations one by one with a budget that may run out anywhere.
`BackupFiles` says which checksum files verify and what failed renames leave. `BackupNames` shows that the order of names is the order of time. SHA-256 and the configuration check
are unknown functions.

**The chain.** `Contracts` has Guardian and DemoVault as objects that share an event log, a
transaction function both are proved against, and the replay of the log. `ContractLog` shows that the
owner and the log decide every transaction, and who may do what. `OrderingKey` has the
indexer's entity, its identity and its sequence number, and what they give the store's cursor.

## Where a property needs a condition

- The block number of a cursor is independent of delivery order exactly when all new events at the
  highest sequence of the source carry the same block (`StoreDelivery.CursorRowIndependentIff`, with
  an example of the contrary in `CursorBlockMayDependOnOrder`). Keys made by the indexer meet it.
- The key gives back block and log index, and orders like the chain, exactly when the log index is
  below 1,000,000 (`OrderingKey.KeyDecodesIff`, `OrderingKey.KeyOrderIsChainOrderIff`).
- A crash between the two renames of a backup whose name is already in use is harmless exactly when
  the digests of old and new contents agree (`Backups.RepeatedNameIsSafeIff`). The other results about
  the directory therefore take snapshot times to increase.
- A failed rename leaves the directory as it was exactly in the cases of
  `BackupFiles.FailedRenameIsUndoneIff`: a second rename that fails for a name in use keeps the new
  checksum file.
- A transaction hash is any text of 66 characters that Python reads as a hexadecimal number after its
  prefix, which lets signs, spaces, underscores and a second prefix pass; for plain letters and digits
  it is exactly hexadecimal digits (`PyText.PlainTextParsesIff`).
- Recovery tests the window before the cooldown, so a call during the cooldown with a full window
  latches instead of being deferred (`Throttle.ManualIff`).
- Health checks start on their deadlines exactly as long as no check with its callback takes longer
  than the interval (`Scheduling.OnTimeIff`); the comment on `run` promises only that lateness does
  not accumulate, which is `Scheduling.LatenessNext`.
- Recovery tries the newest complete backup and no older one.

## Model

| member | source | states |
|---|---|---|
| PyText.DecRoundTrip | sentinel/store.py:113-129 | A sequence number stored as text reads back as the same number, however large, so cursors compare as numbers and not as texts |
| PyText.DecInjective | sentinel/store.py:103-108 | Comparing stored sequence texts is comparing the numbers |
| PyText.DigestFileReadsBack | services/nexguard-controller/app/backup.py:170-181 | A checksum file written by a backup passes every test of the reader: length, hexadecimal, stripping and case |
| PyText.PlainTextParsesIff | sentinel/store.py:184-184 | For a text of letters and digits with no second prefix, reading it as a hexadecimal number succeeds if and only if every character is a hexadecimal digit |
| StoreTables.ReserveGrantedIff | sentinel/store.py:131-166 | A reservation is granted if and only if no latch and no unfinished intent stands in the way, both identifiers are new, and the events are distinct, stored and unowned |
| DurableStore.StateStore.constructor | sentinel/store.py:17-51 | A new store has empty tables |
| DurableStore.StateStore.Audit | sentinel/store.py:90-94 | One row is appended to the log and nothing else changes |
| DurableStore.StateStore.Ingest | sentinel/store.py:96-122 | Event and cursor change together as in the atomic step; a replay is answered False, a conflicting one raises, both without a trace |
| DurableStore.StateStore.FirstObstacle | sentinel/store.py:149-153 | The loop reports the first owned or unknown event in the order given |
| DurableStore.StateStore.Link | sentinel/store.py:162-164 | Exactly the requested events become owned by the intent |
| DurableStore.StateStore.Grant | sentinel/store.py:154-165 | Incident, intent, ownership and audit rows of a granted reservation, and nothing else, are added |
| DurableStore.StateStore.Reserve | sentinel/store.py:131-166 | Reservation as one atomic step, with all its refusals and exceptions in the source's order |
| DurableStore.StateStore.Prepare | sentinel/store.py:168-179 | Preparation as one atomic step, raising unless the intent is reserved |
| DurableStore.StateStore.Broadcast | sentinel/store.py:181-192 | Broadcast as one atomic step, raising on a bad hash or an intent that is not prepared |
| DurableStore.StateStore.Finish | sentinel/store.py:194-225 | Conclusion as one atomic step over intents, latch, audit log and outbox, raising in every case the source refuses |
| StoreInvariants.EveryStepIsAChange | sentinel/store.py:96-225 | Whatever is called, the tables change in one of four ways under conditions that protect the invariants, or not at all |
| StoreInvariants.StoringKeepsCursors | sentinel/store.py:111-121 | Storing an event keeps every cursor at the largest stored sequence of its source |
| StoreInvariants.ChangeKeepsPartition | sentinel/store.py:136-166 | Every change keeps the partition of owned events among intents and the one-to-one relation to incidents |
| StoreInvariants.ChangeKeepsLifecycle | sentinel/store.py:139-220 | Every change keeps at most one intent unfinished, columns that fit the status, and a set latch while there is doubt |
| StoreInvariants.ChangeKeepsHistory | sentinel/store.py:89-94 | Every change appends exactly the audit row from which it can be replayed |
| StoreInvariants.ChangeKeepsWalk | sentinel/store.py:165-221 | Every change moves an intent along one edge of its automaton |
| StoreInvariants.ChangeKeepsConsistent | sentinel/store.py:96-225 | Every change keeps all relations between the tables |
| StoreInvariants.RunKeepsConsistent | sentinel/store.py:96-225 | So does every run of calls |
| StoreInvariants.ReplayedOutboxIsProjection | sentinel/store.py:221-225 | The outbox that replay produces is the in-order projection of the log onto outcome rows |
| StoreTheorems.ReachableIsConsistent | sentinel/store.py:96-225 | All relations between the tables hold after any calls whatever on an empty store |
| StoreTheorems.AuditIsCompleteHistory | sentinel/store.py:89-225 | Replaying the audit log from nothing yields every intent's status, hash, evidence and whether its nonce is set, the latch with its reason, and the outbox |
| StoreTheorems.OwnershipIsAPartition | sentinel/store.py:136-166 | Intents and incidents correspond one to one, an incident lists exactly the events its intent owns, the lists add up to the ownership table, and there are no more intents than owned events nor more of those than events |
| StoreTheorems.RunExtends | sentinel/store.py:96-225 | Log and outbox only grow; events, owners and incidents never change; nonce and hash are written once; settled intents rest; cursors never go back; the latch stays |
| StoreTheorems.IntentLifecycle | sentinel/store.py:131-225 | At most one intent is unfinished, the audit rows of each are a path of one automaton ending where the intent stands, and the status fixes which columns are set |
| StoreTheorems.LatchIsPermanent | sentinel/store.py:139-146 | Once latched, no reservation in any later state of any run is granted |
| StoreTheorems.DoubtWithoutHashIsForever | sentinel/store.py:203-220 | An indeterminate intent without a transaction hash stays so for ever, and the store stays closed |
| StoreTheorems.EventGrantedOnce | sentinel/store.py:149-164 | In any run no event is granted to two reservations |
| StoreTheorems.UnlatchedProgress | sentinel/store.py:139-220 | From any unlatched state at most two calls settle the unfinished intent without latching, after which new events can be reserved |
| StoreProcesses.StatementsRunOut | sentinel/store.py:78-87 | Every transaction reaches its end after finitely many statements |
| StoreProcesses.ScreeningStatements | sentinel/store.py:149-153 | The interleaved ownership and existence queries, in order, screen the events |
| StoreProcesses.OwnerStatements | sentinel/store.py:162-164 | The inserts of ownership rows, one by one, succeed and own exactly the events |
| StoreProcesses.StatementsAddUp | sentinel/store.py:78-225 | The single statements of any transaction, with rollback on an exception, do what the atomic step does |
| StoreProcesses.ActionKeepsSound | sentinel/store.py:78-87 | Every statement, commit, failure, crash and answer keeps the committed file equal to the run of completed calls |
| StoreProcesses.HistoryIsSound | sentinel/store.py:78-225 | This holds in every reachable state of any number of processes |
| StoreConcurrency.EveryHistoryIsSerial | sentinel/store.py:78-225 | The file and every value returned to any caller are those of the completed calls run one at a time in commit order; each returned value has its own place in that order, not before its call |
| StoreConcurrency.EveryCommittedStateIsConsistent | sentinel/store.py:78-225 | Every state ever committed by interleaved processes satisfies all relations between the tables |
| StoreConcurrency.UnfinishedCallsLeaveNoTrace | sentinel/store.py:81-87 | However many statements are executed, nothing but a commit changes the file |
| StoreConcurrency.EventGrantedOnceByAllProcesses | sentinel/store.py:131-166 | No interleaving of processes grants one event to two reservations |
| StoreConcurrency.NoGrantAfterDoubt | sentinel/store.py:139-146 | No interleaving grants a reservation after an indeterminate outcome was recorded |
| StoreCalls.TextIsParsed | sentinel/store.py:196-200 | The four outcome texts stand for the four outcomes one to one, and no other text stands for any |
| StoreCalls.FinishRecordsTheNamedOutcome | sentinel/store.py:194-225 | The outcome a caller names is the one recorded in the intent, the new audit row and the new outbox row, with its evidence, and only doubt sets the latch; otherwise the call raises and changes nothing |
| StoreCalls.UnknownOutcomeIsRefused | sentinel/store.py:196-200 | Any other outcome text raises and changes nothing |
| StoreCalls.RowsAreTheCompletedCalls | sentinel/store.py:131-225 | After any calls an intent exists exactly if a reservation was granted, and its incident, nonce, fee data, hash, status and evidence are what the last completed calls said |
| StoreCalls.ClosedIff | sentinel/store.py:194-214 | An intent stands closed with an outcome if and only if its last completed conclusion named that outcome |
| StoreCalls.ReadRowIsTheCompletedCalls | sentinel/store.py:227-230 | Reading an intent returns exactly that row, or nothing if no reservation of it was granted |
| StoreCalls.PrepareCompletesIff | sentinel/store.py:168-179 | A preparation completes if and only if the nonce is not negative and the intent was reserved and neither prepared nor concluded before |
| StoreCalls.BroadcastCompletesIff | sentinel/store.py:181-192 | A broadcast completes if and only if the hash is one and the intent was prepared and neither broadcast nor concluded before |
| StoreCalls.FinishCompletesIff | sentinel/store.py:194-214 | A conclusion completes if and only if there is evidence, the intent was reserved and not closed, a receipt follows a broadcast, and nothing preceded an already desired outcome |
| StoreCalls.LogIsTheCompletedCalls | sentinel/store.py:89-225 | The audit log is line by line, in the texts of the table, what the completed calls wrote; the outbox is their outcomes in order; the latch holds the evidence of the last doubt |
| StoreCalls.LatchedIff | sentinel/store.py:232-234 | The store says it is latched if and only if a conclusion naming doubt has completed |
| StoreCalls.EventsAreTheAcceptedDeliveries | sentinel/store.py:100-114 | An event is stored exactly if a delivery of it was accepted, with the source, sequence, block and payload of that delivery |
| StoreCalls.DeliveryIsAnswered | sentinel/store.py:96-122 | A delivery is answered True the first time, False whenever it repeats what was accepted, and raises if it is malformed or contradicts it |
| StoreCalls.IncidentsAreTheGrantedReservations | sentinel/store.py:155-157 | The incident of a granted reservation keeps for ever the events it was granted for, in their order |
| StoreCalls.ReserveIsAnswered | sentinel/store.py:131-166 | Which of True, False and the two exceptions a reservation meets, told by the first event in the way and not by the loop |
| StoreCalls.UnfinishedIff | sentinel/store.py:139-146 | An intent keeps the store closed exactly while it was reserved and not concluded, or last concluded with doubt |
| StoreProgress.StatementsReachTheEnd | sentinel/store.py:78-87 | A transaction executed to its end holds the working copy and the reply of its call |
| StoreProgress.HolderCanComplete | sentinel/store.py:78-87 | From any reachable state the holder of the lock can go on to a commit or rollback that carries out its call in one step and frees the lock |
| StoreProgress.StoppingFreesTheFile | sentinel/store.py:78-87 | A crash or error of the holder frees the lock and leaves the file and the order of completed calls as they were |
| StoreProgress.EveryCallCanComplete | sentinel/store.py:78-87 | From any reachable state an idle process can make any call, a writer if the lock is free and a reader always, and it is carried out, logged and answered |
| StoreDelivery.RunDelivers | sentinel/store.py:100-114 | Any list of deliveries without conflicts adds exactly its events and touches only events and cursors |
| StoreDelivery.DeliveryOrderIsIrrelevant | sentinel/store.py:96-122 | Two delivery lists of the same events, in any order and with any repetition, give the same event table and the same cursor sequences |
| StoreDelivery.ConflictingReplayChangesNothing | sentinel/store.py:102-109 | A replay that differs in source, sequence, block or payload raises and changes nothing |
| StoreDelivery.CursorIsMaximum | sentinel/store.py:115-129 | The cursor reported for a source is the largest sequence among its stored events, with the block of such an event, and there is one exactly when the source has an event |
| StoreDelivery.FinalCursorIsTop | sentinel/store.py:115-121 | After deliveries with something new for a source the cursor stands at one of its highest new events |
| StoreDelivery.CursorRowIndependentIff | sentinel/store.py:115-121 | The whole cursor row, block included, is independent of order and repetition if and only if the new events at the highest sequence agree on the block |
| StoreDelivery.CursorBlockMayDependOnOrder | sentinel/store.py:115-121 | Two events that share the highest sequence but not the block leave different cursors in different orders |
| OrderingKey.Subgraph.HandleWithdrawal | subgraph/src/demo-vault.ts:8-25 | One entity is saved under its identity with all fields of the event, unless the log index does not fit 32 bits |
| OrderingKey.KeyDecodesIff | subgraph/src/demo-vault.ts:13-17 | Division gives back block and log index if and only if the log index is below the factor |
| OrderingKey.KeyOrderIsChainOrderIff | subgraph/src/demo-vault.ts:6-13 | Sequence order is the lexicographic order of block and log index if and only if the log index is below the factor |
| OrderingKey.IdentityDecodes | subgraph/src/demo-vault.ts:9-11 | The identity decodes to transaction hash and log index, so that different withdrawals never share one |
| OrderingKey.EntityTellsEvent | subgraph/src/demo-vault.ts:8-25 | The whole event, parameters included, is recovered from its entity, and the redundant fields agree |
| OrderingKey.TableIsTheWithdrawals | subgraph/src/demo-vault.ts:8-25 | After handling the withdrawals of a chain, repeated or not, the table holds exactly one entity for each |
| OrderingKey.KeyedCursor | subgraph/src/demo-vault.ts:13-14 | With keyed deliveries the cursor's block is its sequence divided by the factor and does not depend on order or repetition |
| OrderingKey.IndexedCursorIndependent | subgraph/src/demo-vault.ts:8-25 | Feeding the indexed withdrawals of one chain to an empty store in any order, any number of times, ends at one cursor row whose block is the sequence divided by the factor |
| BackupNames.PaddedOrder | services/nexguard-controller/app/backup.py:137-138 | Zero-padded numbers of one width compare as texts like numbers |
| BackupNames.NamesAreChronological | services/nexguard-controller/app/backup.py:136-155 | Lexicographic order of backup names is chronological order, and different times have different names |
| Backups.SortedIsIncreasing | services/nexguard-controller/app/backup.py:151-155 | The listing has exactly the complete backups, in strictly increasing order |
| Backups.IncreasingIsUnique | services/nexguard-controller/app/backup.py:151-155 | Only one listing of given backups is in order |
| Backups.PairVerifies | services/nexguard-controller/app/backup.py:165-181 | A backup whose checksum file holds the digest of its bytes verifies |
| Backups.BackupIsListedLast | services/nexguard-controller/app/backup.py:60-70 | The second rename adds the new backup at the end of the listing and changes no other entry |
| Backups.LoneChecksumIsUnseen | services/nexguard-controller/app/backup.py:69-76 | A checksum without its backup, written or cleaned up, is not seen in the listing |
| Backups.PruningTrims | services/nexguard-controller/app/backup.py:104-107 | After any number of removals the listing has lost the oldest entries only, in order, and the rest is untouched |
| Backups.PlanPrefix | services/nexguard-controller/app/backup.py:110-143 | After any number of its file operations a backup is either not listed, or listed last with a bounded number of oldest entries gone; at the end the manifest describes the directory |
| Backups.EveryPrefixIsSafe | services/nexguard-controller/app/backup.py:60-143 | With a fresh later name, after every single rename or removal, clean-up included, every listed backup verifies, the listing is the end of the old one or of the old one with the new name, as many remain as retention or the old listing demand, and a restorable backup is never lost |
| Backups.RepeatedNameIsSafeIff | services/nexguard-controller/app/backup.py:69-70 | With a name already in use, a crash between the renames leaves every listed backup verifiable if and only if the digests agree |
| BackupFiles.VerifiesIff | services/nexguard-controller/app/backup.py:165-181 | A backup verifies if and only if its checksum file holds the digest of its bytes, in either case and between any white space |
| BackupFiles.FailedRenameLeaves | services/nexguard-controller/app/backup.py:68-76 | What the directory is after a failed rename and its clean-up, in each case |
| BackupFiles.FailedRenameIsUndoneIff | services/nexguard-controller/app/backup.py:68-76 | A failed rename leaves the directory as it was if and only if the name was new and had no checksum file, or was in use and its checksum file was not changed |
| BackupFiles.PruningLeavesNoOrphan | services/nexguard-controller/app/backup.py:104-107 | At no point of pruning is there a checksum file without its backup |
| BackupFiles.OnlyTheNewChecksumIsAlone | services/nexguard-controller/app/backup.py:60-107 | At whatever point a backup stops, the only checksum file without its backup can be the new one, between the two renames |
| BackupRuns.SaveKeepsMirror | services/nexguard-controller/app/backup.py:110-143 | A backup stopped anywhere keeps the listing a final stretch of the completed snapshots with their bytes |
| BackupRuns.DeedKeepsSound | services/nexguard-controller/app/backup.py:110-162 | So does every backup, crash, failed rename, restore and edit of the configuration |
| BackupRuns.RunIsSound | services/nexguard-controller/app/backup.py:110-162 | And every run of them with increasing snapshot times; all snapshots passed the configuration check |
| BackupRuns.NewestIsRestorable | services/nexguard-controller/app/recovery.py:38-68 | What a restore finds is exactly the most recent snapshot whose second rename completed |
| BackupRuns.RestoreRoundTrip | services/nexguard-controller/app/recovery.py:38-68 | In any run a restore yields the bytes of the most recent completed snapshot, which pass the check, or changes nothing if there is none; backups never touch the configuration |
| BackupRuns.CompletedBackupsFormAQueue | services/nexguard-controller/app/backup.py:79-155 | After any completed backups the directory lists exactly the last ones up to retention, oldest first, with unchanged bytes, and the manifest gives their names, digests and the latest |
| BackupStore.FileSystem.constructor | services/nexguard-controller/app/backup.py:184-191 | The object starts with the given directory and configuration and nothing done |
| BackupStore.FileSystem.Operate | services/nexguard-controller/app/backup.py:56-57 | One rename or removal is done and recorded, or nothing if the process was stopped |
| BackupStore.FileSystem.WritePair | services/nexguard-controller/app/backup.py:60-76 | Both renames in order, and the clean-up of a failed one, as a prefix of the plan |
| BackupStore.FileSystem.Prune | services/nexguard-controller/app/backup.py:104-107 | The loop removes checksum and backup of the oldest entries in turn, as a stretch of the plan |
| BackupStore.FileSystem.PruneAndRecord | services/nexguard-controller/app/backup.py:141-142 | Pruning and manifest complete the plan or stop within it |
| BackupStore.FileSystem.BackUp | services/nexguard-controller/app/backup.py:135-143 | The operations done are exactly a prefix of the plan, and all of it if and only if a name is returned |
| BackupStore.FileSystem.CreateBackup | services/nexguard-controller/app/backup.py:110-143 | The same with all refusals: unhealthy, retention below one, missing or invalid configuration, none of which touches the directory |
| BackupStore.FileSystem.GetLatestBackup | services/nexguard-controller/app/backup.py:158-162 | The last entry of the listing, or nothing |
| BackupStore.FileSystem.RestoreBackup | services/nexguard-controller/app/recovery.py:38-68 | The configuration becomes the backup's bytes if the backup verifies and no error occurs, and is untouched otherwise |
| BackupStore.TailOfPlan | services/nexguard-controller/app/backup.py:140-143 | After the pair come exactly the removals of the oldest entries beyond retention, then the manifest |
| Throttle.DecideTracks | services/nexguard-controller/app/recovery.py:120-140 | One decision keeps the deque equal to the young end of the full history, and the history within both throttles |
| Throttle.RunTracks | services/nexguard-controller/app/recovery.py:120-140 | So does every run: any limit-plus-one consecutive attempt starts span the window, and any two are a cooldown apart |
| Throttle.DequeIsLiveHistory | services/nexguard-controller/app/recovery.py:121-122 | Before every decision the deque is exactly the part of all attempts ever started that is younger than the window |
| Throttle.SlidingWindowSafety | services/nexguard-controller/app/recovery.py:120-140 | For any calls with a clock that never goes back, no half-open interval as long as the window holds more attempt starts than the limit |
| Throttle.RateBounds | services/nexguard-controller/app/recovery.py:120-140 | Attempt starts within a closed span are bounded by limit and window, and by the cooldown if there is one |
| Throttle.ManualStays | services/nexguard-controller/app/recovery.py:124-134 | Once manual intervention is required it stays so and no attempt is started again |
| Throttle.ManualIff | services/nexguard-controller/app/recovery.py:124-137 | Manual intervention is required if and only if some call found the window full, cooldown or not |
| Throttle.DecideByHistory | services/nexguard-controller/app/recovery.py:120-140 | The decision follows from the attempts started before and not from how the deque was kept |
| Throttle.ManualByHistory | services/nexguard-controller/app/recovery.py:124-134 | Manual intervention is required if and only if at some call the attempts younger than the window were as many as the limit |
| Throttle.VerdictByHistory | services/nexguard-controller/app/recovery.py:120-140 | In any run each call is refused, latched, deferred or started exactly as the history of attempts demands |
| Throttle.StartsIff | services/nexguard-controller/app/recovery.py:120-140 | An attempt starts if and only if manual intervention is not required, fewer attempts than the limit are younger than the window, and the last is at least a cooldown old; otherwise the history does not grow |
| Scheduling.PollingIsBounded | services/nexguard-controller/app/docker_manager.py:92-103 | Polling stops after at most one poll more than the intervals that fit; a negative answer means all polls were negative and the deadline had passed |
| Scheduling.SettlesOnce | services/nexguard-controller/app/docker_manager.py:96-103 | A course of polls settles one answer after one number of polls |
| Scheduling.AnswerIff | services/nexguard-controller/app/docker_manager.py:92-103 | The answer is positive if and only if some poll is positive and all before it were negative and before the deadline |
| Scheduling.PollsFollowTheClock | services/nexguard-controller/app/docker_manager.py:96-103 | Each poll comes one interval, or the rest to the deadline, after the poll before it ended, plus what the sleep overran |
| Scheduling.PollingBoundIsReached | services/nexguard-controller/app/docker_manager.py:92-103 | With polls and sleeps that take exactly what they should and nothing ever up, the bound on the number of polls is reached |
| Scheduling.WaitForRunning | services/nexguard-controller/app/docker_manager.py:83-103 | The loop raises on invalid arguments, and otherwise gives the answer within that bound and for that reason |
| Scheduling.AwaitReadiness | services/nexguard-controller/app/recovery.py:211-218 | The readiness loop gives the answer within the same bound and for the same reason |
| Scheduling.RunChecks | services/nexguard-controller/app/health_monitor.py:102-114 | Every check starts at the later of its deadline and the end of the check before |
| Scheduling.LatenessNext | services/nexguard-controller/app/health_monitor.py:102-114 | Lateness grows by what a check takes and shrinks by the interval, never below zero |
| Scheduling.CheckStartIsMaximum | services/nexguard-controller/app/health_monitor.py:102-114 | The start of a check is the maximum over earlier deadlines plus all durations since |
| Scheduling.OnTimeIff | services/nexguard-controller/app/health_monitor.py:102-114 | All checks start exactly on their deadlines if and only if none takes longer than the interval |
| Recovery.RecoveryManager.constructor | services/nexguard-controller/app/recovery.py:94-104 | A new manager is ready, with an empty history |
| Recovery.RecoveryManager.DropOld | services/nexguard-controller/app/recovery.py:121-122 | The loop drops the leading attempts older than the window and no others |
| Recovery.RecoveryManager.Admit | services/nexguard-controller/app/recovery.py:120-140 | Refuse, latch, defer or start, as the attempts started before demand; the history grows exactly by a started attempt, and deque, history and both throttles stay in step |
| Recovery.RecoveryManager.RestoreIfNeeded | services/nexguard-controller/app/recovery.py:144-170 | A bad configuration is replaced by the newest backup if that verifies, and otherwise nothing changes |
| Recovery.RecoveryManager.RestartAndWait | services/nexguard-controller/app/recovery.py:172-228 | One restart, then success only if the container runs and a health check succeeds before the deadlines |
| Recovery.RecoveryManager.AttemptRecovery | services/nexguard-controller/app/recovery.py:117-228 | State, result, configuration and restarts of a whole attempt, with the history still within both throttles |
| Recovery.RestoredMeansNewestSnapshot | services/nexguard-controller/app/recovery.py:144-170 | A reported restore means the configuration is the most recent completed snapshot and passes the check; any other result leaves it untouched |
| RecoveryAnswers.NewestIsLast | services/nexguard-controller/app/backup.py:158-162 | The last of the listing is the complete backup whose name comes after all others |
| RecoveryAnswers.RestorationIs | services/nexguard-controller/app/recovery.py:144-170 | With a bad configuration the newest complete backup is put back exactly if it verifies and nothing fails |
| RecoveryAnswers.RecoverySucceedsIff | services/nexguard-controller/app/recovery.py:117-228 | A recovery succeeds if and only if the attempt was started, the configuration was valid or restored, no call to Docker raised, and container and health came up before their deadlines |
| RecoveryAnswers.AttemptIsAnswered | services/nexguard-controller/app/recovery.py:117-228 | The exact condition of each reason, of a reported restore, of the restart, and of the configuration left behind |
| Incidents.IncidentManager.constructor | services/nexguard-controller/app/incident.py:58-61 | No failures and no incident at first |
| Incidents.IncidentManager.RecordFailure | services/nexguard-controller/app/incident.py:63-91 | The counter grows; an incident is opened and returned exactly when it reaches the threshold with none open |
| Incidents.IncidentManager.RecordSuccess | services/nexguard-controller/app/incident.py:93-114 | The counter is reset and an open incident is returned closed |
| Controller.EditsComeFirst | services/nexguard-controller/app/main.py:141-143 | A result after an outside edit of the configuration acts as the edit followed by the result |
| Controller.ControllerRuntime.constructor | services/nexguard-controller/app/main.py:102-124 | The wired objects show the idle state |
| Controller.ControllerRuntime.HandleGood | services/nexguard-controller/app/main.py:146-168 | Incident, backup directory and time of the last backup after a good result; the time moves only if the backup completed |
| Controller.ControllerRuntime.HandleBad | services/nexguard-controller/app/main.py:170-194 | Incident, throttle, configuration and counters after a bad result, with recovery tried only while an incident is open and not latched |
| Controller.ControllerRuntime.HandleHealthResult | services/nexguard-controller/app/main.py:141-194 | All objects after any health result follow the state function the accounting is proved about |
| ControllerTheorems.CompletesIff | services/nexguard-controller/app/incident.py:63-91 | A result completes a stretch of threshold length exactly when it is a failure and the counter stands one below the threshold |
| ControllerTheorems.ReachingNext | services/nexguard-controller/app/incident.py:63-91 | The number of stretches that reach the threshold grows exactly then |
| ControllerTheorems.RunIsBooked | services/nexguard-controller/app/main.py:141-194 | In every run the counter is the length of the stretch of failures under way and the books below balance |
| ControllerTheorems.IncidentAccounting | services/nexguard-controller/app/main.py:141-194 | An incident is open if and only if the counter has reached the threshold; incidents opened are as many as maximal failure stretches reaching it, and equal recoveries plus closings by good results plus one if open |
| ControllerTheorems.RestartsOnlyInIncidents | services/nexguard-controller/app/main.py:170-178 | The container is restarted only at a failure within a stretch that has reached the threshold |
| ControllerTheorems.NothingAfterManual | services/nexguard-controller/app/main.py:175-176 | After manual intervention is required, no run restarts, recovers or calls recovery again |
| ControllerTheorems.ControllerKeepsWindow | services/nexguard-controller/app/main.py:178-178 | Whatever the health results, attempt starts keep the sliding window and restarts never outnumber them |
| ControllerTheorems.RunKeepsDisk | services/nexguard-controller/app/main.py:154-160 | Over all runs of the controller the backup directory mirrors the completed snapshots |
| ControllerTheorems.ControllerRestoresNewest | services/nexguard-controller/app/main.py:170-178 | In any run a reported restore puts back the most recent completed snapshot, valid; every other result leaves the configuration alone |
| ControllerAnswers.LastBackupIsRemembered | services/nexguard-controller/app/main.py:154-160 | The remembered time is that of the last backup that completed |
| ControllerAnswers.SnapshotTakenIff | services/nexguard-controller/app/main.py:146-168 | In any run a good result takes a snapshot of the configuration if and only if that is valid and none is listed, none has completed, or the last completed one is as old as the interval; every other result leaves the directory alone |
| ControllerAnswers.GoodResultLeavesAFreshBackup | services/nexguard-controller/app/main.py:146-168 | After a good result with a valid configuration and an undisturbed save a backup is listed and the last completed one is younger than the interval |
| ControllerAnswers.RecoveryTriedIff | services/nexguard-controller/app/main.py:170-178 | Recovery is called at a result if and only if it is the latest of a stretch of at least threshold failures and manual intervention is not required |
| ControllerAnswers.ResultOfAttempt | services/nexguard-controller/app/main.py:178-187 | The container is restarted exactly when an attempt starts with a usable configuration, and a recovery is counted and the incident ended exactly when container and health then come up |
| ControllerAnswers.OpenIncidentNamesItsResult | services/nexguard-controller/app/incident.py:63-91 | An open incident carries the identifier, reason and time of the failure that reached the threshold in the stretch under way |
| Contracts.Guardian.constructor | contracts/src/Guardian.sol:29-35 | Deployment leaves one keeper, not paused, and one log entry |
| Contracts.Guardian.SetKeeper | contracts/src/Guardian.sol:47-52 | Storage, log and every revert of the transaction |
| Contracts.Guardian.Pause | contracts/src/Guardian.sol:54-65 | Storage, log and every revert, in the source's order of checks |
| Contracts.Guardian.Unpause | contracts/src/Guardian.sol:67-73 | Storage, log and every revert of the transaction |
| Contracts.DemoVault.constructor | contracts/src/DemoVault.sol:29-32 | No credit at first, and the log shared with the guardian |
| Contracts.DemoVault.FaucetCredit | contracts/src/DemoVault.sol:40-45 | Ledger, log and every revert, 256-bit overflow included |
| Contracts.DemoVault.Withdraw | contracts/src/DemoVault.sol:47-49 | Ledger, log and every revert for the sender's own credit |
| Contracts.DemoVault.UnsafeWithdrawFrom | contracts/src/DemoVault.sol:53-55 | The same for the credit of any account |
| Contracts.DemoVault.WithdrawFrom | contracts/src/DemoVault.sol:57-65 | Ledger and logged remaining credit change together, or the transaction reverts |
| Contracts.CoveredNext | contracts/src/DemoVault.sol:57-65 | A logged withdrawal stays explained by the log before it |
| Contracts.TransactionKeepsLedger | contracts/src/DemoVault.sol:40-65 | Every transaction keeps the ledger equal to the replayed log and the total equal to issued less withdrawn |
| Contracts.TransactionKeepsPauses | contracts/src/Guardian.sol:47-73 | Every transaction keeps the count of pauses, unpauses and references, the separation of roles, and withdrawals out of paused stretches |
| Contracts.RunAgrees | contracts/src/Guardian.sol:29-73 | Both hold after any calls by anyone |
| Contracts.LogReplaysToLedger | contracts/src/DemoVault.sol:40-65 | Replaying the log gives every account's credit and every logged remaining credit, and total credit is issued less withdrawn |
| Contracts.PauseSafety | contracts/src/Guardian.sol:29-73 | No withdrawal is logged between a pause and the next unpause; pauses exceed unpauses by one while paused and by none otherwise; each pause used its own reference; the owner is never a keeper |
| ContractLog.StateIsTheLog | contracts/src/Guardian.sol:21-73 | In every state reached, keepers, used references, the pause and the ledger are what the log says, and the owner is the deployed one |
| ContractLog.LogDecidesTransaction | contracts/src/Guardian.sol:29-73 | Owner and log alone decide every transaction of both contracts: it succeeds if and only if it is allowed, adding one entry that says what was done, and otherwise changes nothing and names a requirement it violates |
| ContractLog.EveryEntryIsEntitled | contracts/src/Guardian.sol:37-73 | Over all runs only the owner's transactions set keepers and unpause, a pause is sent by an address the log before it shows as keeper, and whoever triggers a withdrawal receives it |
| ContractLog.KeepersAreLogged | contracts/src/Guardian.sol:47-52 | Replaying the keeper entries gives exactly the keepers, of whom the owner is never one |

## Left out

- The columns `created_at` and `at`, and the outbox columns for delivery, which no modelled code reads.
- The JSON text of `source_ids`, of outbox payloads and of the manifest: their contents are modelled as values.
- SQLite itself: one writer at a time, rollback, primary keys and a reader's view of committed state are taken as given; so are unlimited sizes for block numbers, nonces and the digits of a sequence text.
- The checks of schema version and path when a store is opened.
- Characters outside ASCII in names, hashes and checksum files; a checksum file with such a character is modelled as unreadable.
- Temporary files, file modes and ownership, `fsync`, and errors before the first rename other than as a backup that stops with nothing done.
- Times before the year 1000, whose names have a width that depends on the platform.
- SHA-256 and the configuration check, which are unknown functions; digests are known only to be 64 lower-case hexadecimal digits.
- A configuration that changes between the check and the backup within one health result.
- Clocks as floating-point numbers: times are whole microseconds, and a sleeper is exact in the monitor and may overrun in the polling loops.
- Gauges, notifications and log lines, apart from the counters of incidents and recoveries.
- An error of `get_latest_backup` inside `handle_health_result`, which would end the monitor's loop.
- The constructors' exceptions for invalid settings, and reverting deployments of the contracts: both are preconditions of the constructors here.
- The memory of a restarted controller process: runs of the controller have no restarts, runs of the backup directory do.
- The guards of `restart_container` and everything Docker does; the outcomes of its calls are inputs.
- The byte order of `concatI32`, taken to be lowest byte first (graph-ts is not part of this model), and the text of an entity's identity, which is any injective naming.
- Gas, and addresses and words of a fixed width.
- The gateway simulator, configuration loading, deployment scripts, HTTP endpoints and dashboards.
