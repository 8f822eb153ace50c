# iConnect: verified model of the configuration protocol

iConnect is a mesh VPN daemon (`iconnectd`) with a web console (`iconnect-web`). The console keeps three things
in step for every device: the network configs an external webhook wants, the rows of a config table, and the
instances a remote daemon runs. This project models that protocol and the pieces around it in Dafny 4.11 and
proves what they keep. Verify it with `dafny verify dfyconfig.toml`.

## How the model is laid out

| file | what it models |
|---|---|
| `ConfigTable`, `WebReconcile` | the config table, and applying a webhook's list of configs to one device |
| `ReconcileRound`, `RoundMeaning`, `ReconcileRuns`, `ReconcileHazards`, `StaleSync`, `ReconcileTask` | one round of the reconcile task against a client, what it does to every row and instance, runs of rounds, traces in which its cleanup guard fails, and the task as an object |
| `HeartbeatSession`, `HeartbeatProgress`, `HeartbeatTable`, `HeartbeatRaces`, `HeartbeatToClient` | concurrent heartbeats of one session, split at their awaits; what a heartbeat that succeeds has done, what their recorded revision says about the table, and what the client runs afterwards |
| `InstanceLifecycle`, `LifecycleRuns`, `LifecycleProgress`, `LifecycleHazards`, `InstanceInfo` | instance threads, watcher tasks, deletes, daemon guards and the shutdown `wait`; the manager's lookups |
| `NetworkConfigs`, `ConfigConversion`, `ConversionMeaning`, `ConversionReimport`, `ConversionParts`, `ConversionLaws`, `ConversionSettles`, `ConfigLoader` | the stored and the flat form of a network config, `gen_config` and `new_from_config`, and what each makes of every input |
| `Text`, `Addresses`, `Wrappers` | splitting, numbers, IPv4 networks and socket addresses as text |
| `ClientIndex`, `PacketCompressor`, `TableLayout`, `TableMeaning`, `PortList`, `JsonPointer` | the index of connected clients, packet compression, table fitting, port lists, dotted claim paths |

Code that changes things in place is modelled by classes and by methods with loops, each proved equal to a
function on values; the laws are proved about those functions. For the main operations these include a law that says,
for every input and without naming the function, what its result is: `RoundMeaning`, `FilledIn`, `HeartbeatProgress`,
`LifecycleProgress`, `ConversionMeaning`, `ConversionReimport`, `TableMeaning`. Concurrency is a state machine: every atomic
action is a step, a step that is not enabled does nothing, and a run is any list of steps.

Answers of the outside world are parameters: which database statements fail, what a client answers to a call,
the clock, random identifiers and keys. Parsers of URLs, UUIDs, IPv6 text and keys are functions of which only
their documented contract is assumed (`NetworkConfigs.Lawful`, `Addresses.Ipv6LibOk`), and so is the codec
(`PacketCompressor.Inverts`).

## Promises that do not hold as stated, and when they do

- The cleanup guard of the reconcile task skips needed cleanups after a failed delete, an Ok answer to a delete that
  keeps an instance running, an outdated report or missing metadata: `FailedDeleteHazard`, `KeptInstanceHazard`,
  `StaleReportHazard` and `NoMetadataHazard`. Daemons answer Ok while they keep instances whose config must not be
  deleted (iconnectd/src/rpc_service/instance_manage.rs:449-454 and 484-494), so the main results name such a set of
  instances. `GuardSafeIff` ties the invariant to the promise, and `SafeAfterRoundIff`, `StaleReportIff` and
  `NoMetadataIff` say exactly when a round leaves the guard safe.
- A delete can hit an instance whose row has just become web-owned, exactly when the source sync fails after promoting
  it (`PromotedRowHazard`, `DeletesWebRowIff`).
- The recorded revision of a session describes the table exactly when the last touch of each row of the device did
  what the last committer wants (`RecordDescribesTableIff`, and `RacersIff` and `RaceIff` for heartbeats that race). It does
  after an undisturbed reconcile (`UndisturbedCommit`); `WrongRevisionRun` is a session in which it does not.
- A source sync can undo an edit made since its listing, exactly under the condition of `EditSurvivesIff`; a deleted row
  can come back (`DeletedRowReturns`).
- A reconcile is exact only for a real device id (`ExactIffRealDevice`): the nil id lists every device.
- `wait` can sleep forever when an instance has no watcher, or when a delete slips in between storing an instance
  and starting its watcher (`UnwatchedHazard`, `RacingDeleteHazard`, `WakeupPendingIff`).
- The two config conversions undo each other exactly on the representable configs (`ConversionLaws.RoundTripIff`).
  Re-importing an export is stable unless the config holds an IPv6 port forward or a padded `*` whitelist
  (`ReimportStableIff`); two rounds always settle (`TwoRoundsSettle`).
- Importing a flat config can panic (`PanicsIff`, `BadPortPanics`).
- A packet that compresses more than 32-fold and is longer than 64 KiB is sent compressed and cannot be
  decompressed (`PacketCompressor.RoundTripIff`, `LongRunIsLost`).

Where the code and its own words disagree, the model follows the code: `process_secure_mode_cfg`
(iconnectd/src/common/config.rs:507-521) reports a public key that does not match the generated one, but only
compares the key with its own re-encoding, so any canonical key passes; `new_from_config` never reports the
encryption and compression algorithms that `gen_config` accepts.

## Model

| member | source | states |
|---|---|---|
| ConfigTable.Db.InsertOrUpdate | iconnect-web/src/db/mod.rs:148-191 | an upsert changes one row: the config, the source text, the update time and, if it is new, the creation time, and enables it; a failed statement changes nothing; the history records every table |
| ConfigTable.Db.Delete | iconnect-web/src/db/mod.rs:193-211 | exactly the given ids of one user and device are removed, in one statement, and every other row is as it was |
| ConfigTable.Db.UpdateState | iconnect-web/src/db/mod.rs:213-234 | one row gets the given disabled flag and a new update time, and keeps everything else; other rows are as they were; a missing row is no error |
| ConfigTable.Db.List | iconnect-web/src/db/mod.rs:236-262 | the listing holds exactly the rows of the user on the device that are in the asked state, each once; the nil device spans all devices |
| WebReconcile.PlanConfigs | iconnect-web/src/client_manager/session.rs:221-242 | the loop computes the plan, and rejects exactly the lists with a malformed entry that is not a user's |
| WebReconcile.NormaliseIff | iconnect-web/src/client_manager/session.rs:171-193 | a stored config is the desired JSON object with the instance id filled in, and with the network's name as instance name where there was none; every other field is as it was |
| WebReconcile.UnfillableIff | iconnect-web/src/client_manager/session.rs:171-193 | a desired config is turned down if and only if no network config is its filled-in form |
| WebReconcile.RejectedIff | iconnect-web/src/client_manager/session.rs:221-242 | a list is rejected if and only if some entry has a bad id, or no user owns the id and its config is malformed |
| WebReconcile.PlanMeaning | iconnect-web/src/client_manager/session.rs:221-242 | the plan's ids are the desired ids no user owns, each with the config of its last entry in the list |
| WebReconcile.AppliedRows | iconnect-web/src/client_manager/session.rs:244-272 | after the writes the web-owned ids of the device are the planned ones; users' rows and other scopes are untouched |
| WebReconcile.ReconcileExact | iconnect-web/src/client_manager/session.rs:195-272 | a successful reconcile leaves exactly the desired ids that no user owns as web-owned rows, enabled, with the filled-in config of their last entry and their creation time kept; users own what they owned before |
| WebReconcile.ExactIffRealDevice | iconnect-web/src/db/mod.rs:253-257 | the exactness promise holds for all tables and lists if and only if the device id is not nil |
| WebReconcile.ReconcileIdempotent | iconnect-web/src/client_manager/session.rs:195-272 | reconciling the same list again plans the same configs and changes update times only |
| WebReconcile.PlanDependsOnUsers | iconnect-web/src/client_manager/session.rs:230-238 | the plan depends on the table only through which ids users own |
| WebReconcile.PartialWritesProtect | iconnect-web/src/client_manager/session.rs:244-257 | after writing any part of a plan, users' rows and other scopes are unchanged |
| WebReconcile.WritePlan | iconnect-web/src/client_manager/session.rs:244-257 | success, if and only if no write of the plan fails, writes the whole plan; at any failure, and in every table on the way, some part of the plan has been written and nothing else |
| WebReconcile.ApplyPlan | iconnect-web/src/client_manager/session.rs:244-272 | success is the applied plan, and happens if and only if no write and no needed delete fails; every table on the way holds part of the plan or all of it without the stale rows |
| WebReconcile.ReconcileWebSourceConfigs | iconnect-web/src/client_manager/session.rs:195-272 | for any device: it is done if and only if the listing works, no entry that is not a user's is malformed, and no write or needed delete fails; rejection iff malformed and then nothing is written; success is exact, with the filled-in configs; every intermediate table protects users' rows and other scopes |
| ReconcileRuns.SyncMeaning | iconnect-web/src/client_manager/session.rs:640-691 | a sync gets through the metadata up to the first unreadable row or failed write, promotes the rows reported as web up to there, and does nothing else |
| ReconcileRuns.SyncedKeepsRows | iconnect-web/src/client_manager/session.rs:640-691 | syncing never adds, removes, disables or rewrites a row, and touches neither web-owned rows nor other scopes |
| RoundMeaning.TableAfter | iconnect-web/src/client_manager/session.rs:640-691 | the table after any round, row by row: an enabled user's row that the sync reaches is the web's, with its config kept and a new update time, and every other row is as it was |
| RoundMeaning.StartsIff | iconnect-web/src/client_manager/session.rs:891-932 | whatever the client said, an instance is asked for if and only if its row is enabled and readable and the heartbeat did not report it |
| RoundMeaning.StartedFor | iconnect-web/src/client_manager/session.rs:786-800 | an instance is started for the web if and only if its row is the web's, or the sync went through and made it so |
| RoundMeaning.RuntimeAfter | iconnect-web/src/client_manager/session.rs:835-932 | what runs after any round, instance by instance, and with which source |
| RoundMeaning.StartedRuns | iconnect-web/src/client_manager/session.rs:891-932 | every enabled readable row that was not reported and whose start is answered Ok runs after the round |
| RoundMeaning.DeletesIff | iconnect-web/src/client_manager/session.rs:835-875 | an instance is deleted if and only if the cache does not hold the enabled web rows, the instance is known to run as web, and it has no enabled web row |
| RoundMeaning.CacheAfter | iconnect-web/src/client_manager/session.rs:835-936 | the cache stays if the cleanup is skipped or its delete fails, and holds exactly the enabled web rows otherwise |
| RoundMeaning.FailedIff | iconnect-web/src/client_manager/session.rs:871-936 | a round is no full success if and only if its delete fails, or some enabled unreported row is unreadable or does not start |
| StaleSync.SyncAmongIsSync | iconnect-web/src/client_manager/session.rs:640-691 | a sync among edits is, without edits, the sync of a round |
| StaleSync.RowAfterEdit | iconnect-web/src/client_manager/session.rs:652-688 | what a row edited during the sync becomes: the edited row, or the listed config, web-owned and enabled, if the sync writes it afterwards |
| StaleSync.EditSurvivesIff | iconnect-web/src/client_manager/session.rs:652-688 | an edit of a row during the sync survives if and only if the sync does not write the row afterwards or the edit left what it writes |
| StaleSync.DeletedRowReturns | iconnect-web/src/client_manager/session.rs:672-688 | a row deleted after the listing and reported as web comes back with its old config |
| ReconcileRuns.WebAfterRound | iconnect-web/src/client_manager/session.rs:766-936 | which instances run as web after any round, in terms of those before, what the delete call really stopped, and the starts |
| ReconcileRuns.SkipIsHarmless | iconnect-web/src/client_manager/session.rs:835-889 | with the guard invariant, a skipped cleanup had nothing to delete but instances that cannot be deleted |
| ReconcileRuns.FinalAssignmentIsIdle | iconnect-web/src/client_manager/session.rs:934-936 | the last assignment of a round never changes the cache |
| ReconcileRuns.GuardInvKept | iconnect-web/src/client_manager/session.rs:766-936 | a round with current reports, whose delete call stops everything except the instances that cannot be deleted, keeps the guard invariant |
| ReconcileRuns.GuardInvKeptIff | iconnect-web/src/client_manager/session.rs:871-889 | for any informed round, with failing starts and unreadable rows: the invariant survives if and only if an Ok delete keeps nothing deletable running, and a failed delete had nothing to do, nothing was cached, or every web config started was cached |
| ReconcileRuns.FailedDeleteKeepsIff | iconnect-web/src/client_manager/session.rs:871-932 | after a failed delete the cache stays, and the invariant survives if and only if there was nothing to delete, nothing was cached, or what the round starts was cached already |
| ReconcileRuns.OkDeleteKeepsIff | iconnect-web/src/client_manager/session.rs:871-889 | with an Ok answer the invariant survives if and only if the client kept running nothing it was asked to delete, beyond what cannot be deleted |
| ReconcileRuns.GuardInvOverRuns | iconnect-web/src/client_manager/session.rs:693-938 | the invariant holds after every benign run, with the table edited freely between rounds and any fixed set of instances that cannot be deleted |
| ReconcileRuns.GuardSound | iconnect-web/src/client_manager/session.rs:835-889 | in every benign run of a fresh task, whenever the guard skips a cleanup, the cleanup would have asked only for instances that cannot be deleted, and stopped nothing |
| ReconcileRuns.GuardRefinesUnguarded | iconnect-web/src/client_manager/session.rs:835-889 | over every benign run, instances that cannot be deleted included, the guarded task leaves the same table and instances as one that cleans up every time |
| ReconcileRuns.RoundConverges | iconnect-web/src/client_manager/session.rs:766-936 | a failure-free round leaves every enabled row running, and a web instance outside the enabled web rows only if it cannot be deleted and has no enabled row |
| ReconcileRuns.ConvergesIff | iconnect-web/src/client_manager/session.rs:766-936 | with an Ok answer the client ends up strictly in step if and only if nothing it was asked to delete is kept |
| ReconcileRuns.InStepIsQuiet | iconnect-web/src/client_manager/session.rs:766-936 | in step, a further round starts and writes nothing, and asks for no delete when the guard skips or every instance can be deleted |
| ReconcileRuns.ConvergesThenRests | iconnect-web/src/client_manager/session.rs:766-936 | the round after a converged one, on an unedited table, issues no delete, no run and no write, even while instances that cannot be deleted run |
| ReconcileRuns.DeleteSafety | iconnect-web/src/client_manager/session.rs:835-875 | whatever the client answers, a deleted instance was reported or stored as web, had no enabled web row when the round began, and unless the sync failed has no enabled row when the request is sent |
| ReconcileRuns.DeletesWebRowIff | iconnect-web/src/client_manager/session.rs:786-800 | a deleted instance has an enabled web row when the request is sent if and only if the sync failed after promoting that very row |
| ReconcileRuns.EndToEnd | iconnect-web/src/client_manager/session.rs:195-272 | after any exact reconcile of D, whenever its rows were written, and one failure-free round, every id of D that no user owns runs, and every web instance is one of them or cannot be deleted |
| HeartbeatToClient.CommittedConfigsRun | iconnect-web/src/client_manager/session.rs:431-450 | an undisturbed heartbeat followed by a failure-free round: its revision is recorded, its configs that no user owns run, and no other web instance runs unless it cannot be deleted |
| ReconcileHazards.GuardSafeIff | iconnect-web/src/client_manager/session.rs:835-889 | the guard is safe, for every edit of the table and every informed answer, if and only if its invariant holds |
| ReconcileHazards.BrokenInvIsUnsafe | iconnect-web/src/client_manager/session.rs:835-889 | when the invariant is broken there is an edit and an informed answer with which the guard skips a needed cleanup |
| ReconcileHazards.SafeAfterRoundIff | iconnect-web/src/client_manager/session.rs:871-932 | an informed round leaves the guard safe under exactly the conditions of `GuardInvKeptIff` |
| ReconcileHazards.StaleReportIff | iconnect-web/src/client_manager/session.rs:766-833 | with an outdated heartbeat, any delete outcome and any set of undeletable instances, the exact condition for the guard to stay safe: skipped, or cleaned with nothing deletable kept or missed, or failed with nothing cached or everything started cached |
| ReconcileHazards.NoMetadataIff | iconnect-web/src/client_manager/session.rs:619-631 | the same exact condition without metadata, where a cleanup misses the undesired web instances that have no web row |
| ReconcileHazards.FailedDeleteHazard | iconnect-web/src/client_manager/session.rs:871-888 | a run with a failed delete after which the guard skips a needed cleanup |
| ReconcileHazards.KeptInstanceHazard | iconnectd/src/rpc_service/instance_manage.rs:449-454 | a run without any failed call: the client answers Ok but keeps an instance that must not be deleted, and the guard skips from then on |
| ReconcileHazards.PromotedRowHazard | iconnect-web/src/client_manager/session.rs:786-800 | a benign round that asks for the delete of an instance whose enabled row it has just made web-owned |
| ReconcileHazards.StaleReportHazard | iconnect-web/src/client_manager/session.rs:766-833 | a run with an outdated heartbeat after which the guard skips a needed cleanup |
| ReconcileHazards.NoMetadataHazard | iconnect-web/src/client_manager/session.rs:619-631 | a run without metadata after which the guard skips a needed cleanup |
| ReconcileTask.Client.ListMeta | iconnectd/src/rpc_service/instance_manage.rs:575-605 | the metadata tells the source of exactly the requested instances that run |
| ReconcileTask.Client.DeleteInstances | iconnectd/src/rpc_service/instance_manage.rs:438-532 | an Ok answer stops the listed instances except those whose config must not be deleted; an error stops those removed before it |
| ReconcileTask.Client.RunInstance | iconnectd/src/rpc_service/instance_manage.rs:168-336 | a started instance runs with the source it was sent, a healthy one is left alone, and one that was to be replaced is lost when neither the start nor the restore succeeds |
| ReconcileTask.RowsById | iconnect-web/src/client_manager/session.rs:594-617 | the loop over a listing yields the rows of the scope by instance id |
| ReconcileTask.SyncRunningConfigSources | iconnect-web/src/client_manager/session.rs:640-691 | the loop over the metadata, which stops at the first failure, is the specified sync |
| ReconcileTask.Task.StartMissing | iconnect-web/src/client_manager/session.rs:891-932 | exactly the enabled readable rows that do not run are started, and the round fails iff a row is unreadable or a start fails |
| ReconcileTask.Task.CleanupPhase | iconnect-web/src/client_manager/session.rs:835-889 | what is deleted, when the cache moves and when it stays |
| ReconcileTask.Task.RunRound | iconnect-web/src/client_manager/session.rs:754-936 | sync, cleanup and starts on the objects are the specified round, whose effect on every row and instance `RoundMeaning` gives; which failed listings end it, and what the table holds then |
| ReconcileTask.Task.OnHeartbeat | iconnect-web/src/client_manager/session.rs:693-938 | one iteration of the task on the database, the client and the cache is the specified round; it stops early exactly when the user is unknown or a listing it needs fails, and then touches neither client nor cache |
| HeartbeatSession.StepKeepsInv | iconnect-web/src/client_manager/session.rs:293-505 | every step of every interleaved heartbeat keeps the session invariant |
| HeartbeatSession.InvOverRuns | iconnect-web/src/client_manager/session.rs:293-505 | the invariant holds after every interleaving |
| HeartbeatSession.SessionIdentity | iconnect-web/src/client_manager/session.rs:444-489 | a stored request exists iff a token does; the assertion and the two error branches about tokens are unreachable |
| HeartbeatSession.TokenSetOnce | iconnect-web/src/client_manager/session.rs:444-489 | token and binding version, once set, never change in any run |
| HeartbeatSession.OneConnectPerSession | iconnect-web/src/client_manager/session.rs:132-161 | a session in which a heartbeat succeeded made exactly one connect notification, matched by the disconnect on drop |
| HeartbeatSession.OmittedConfigsNeverWipe | iconnect-web/src/client_manager/session.rs:274-291 | in every run only a heartbeat whose response carries configs changes a stored row |
| HeartbeatSession.AppliedOnlyAfterReconcile | iconnect-web/src/client_manager/session.rs:431-450 | a revision is recorded only by a heartbeat that completed the reconcile of a response with that revision |
| HeartbeatProgress.NewRevisionIsApplied | iconnect-web/src/client_manager/session.rs:431-450 | over every run: a heartbeat that succeeds with a response whose revision is not the one it read as applied has completed the reconcile of that response and recorded its revision |
| HeartbeatProgress.NewRevisionSucceeds | iconnect-web/src/client_manager/session.rs:293-505 | a heartbeat with a new revision and a well-formed list, whose steps meet no failure, succeeds, records the revision and leaves the table an exact reconcile |
| HeartbeatProgress.OldRevisionSucceeds | iconnect-web/src/client_manager/session.rs:431-450 | a heartbeat whose response has the applied revision succeeds without touching the table or the record |
| HeartbeatProgress.OnlyCommitSucceeds | iconnect-web/src/client_manager/session.rs:444-489 | in any state a step makes a heartbeat succeed only if it is its own commit |
| HeartbeatProgress.WebhookAskedIff | iconnect-web/src/client_manager/session.rs:319-328 | the webhook is asked if and only if it is enabled and no heartbeat has committed yet, or this is the 1st, 11th, 21st … counted one, modulo 2^32 |
| HeartbeatProgress.ResolveMeans | iconnect-web/src/client_manager/session.rs:336-405 | which answers settle the user, and what the heartbeat knows then; every other answer ends it |
| HeartbeatProgress.TokenOfFirstCommit | iconnect-web/src/client_manager/session.rs:444-489 | over every run the session's token and binding version are those of the first heartbeat that commits |
| HeartbeatTable.UndisturbedCommit | iconnect-web/src/client_manager/session.rs:431-450 | a heartbeat whose reconcile is not disturbed in the table, however the steps of others interleave, records the revision of its response over a table that is an exact reconcile of that response, each config with its instance filled in |
| HeartbeatRaces.RowFollowsLastTouch | iconnect-web/src/client_manager/session.rs:244-272 | over every run of any heartbeats and edits, a row is what its last touch left, or what it was |
| HeartbeatRaces.RowDescribedIff | iconnect-web/src/client_manager/session.rs:431-450 | one row after the last commit: it is what the committing heartbeat wants if and only if nobody touched it or its last touch did what that heartbeat wants |
| HeartbeatRaces.RecordDescribesTableIff | iconnect-web/src/client_manager/session.rs:431-450 | over every run after the listing of the heartbeat that commits last: its revision is recorded, and the table holds what its response asks for if and only if the last touch of each row of the device did what it wants |
| HeartbeatRaces.RacersIff | iconnect-web/src/client_manager/session.rs:431-450 | any number of racing heartbeats with any plans and stale sets: a row is what the last committer wants if and only if the last to touch it is that heartbeat or wants the same |
| HeartbeatRaces.RaceIff | iconnect-web/src/client_manager/session.rs:431-450 | over every list of steps of two racers for one instance: the stored config is that of the last committer if and only if it also wrote last or the configs are equal |
| HeartbeatRaces.RaceRecordsTheWrongRevision | iconnect-web/src/client_manager/session.rs:431-450 | two racing heartbeats that want different configs: the one that writes first and commits last records its revision, and the stored config is not its own |
| HeartbeatRaces.RaceIsReachable | iconnect-web/src/client_manager/session.rs:293-442 | two first heartbeats of a session whose responses differ reach that race from an empty table |
| HeartbeatRaces.WrongRevisionRun | iconnect-web/src/client_manager/session.rs:293-505 | a whole session on an empty table that ends with one revision recorded and the config of the other stored |
| LifecycleRuns.StepKeepsInv | iconnectd/src/instance_manager.rs:68-108 | every step of thread, watcher, delete, guard holder and waiter keeps the invariant |
| LifecycleRuns.InvOverRuns | iconnectd/src/instance_manager.rs:68-153 | the invariant holds after every interleaving |
| LifecycleRuns.WakeupPendingIff | iconnectd/src/instance_manager.rs:345-359 | when all is quiet, a blocked `wait` without a permit has a pending step towards one if and only if the instance it saw has, or will have, a watcher |
| LifecycleRuns.NoLostWakeup | iconnectd/src/instance_manager.rs:345-359 | with every instance watched and deletes kept apart from starts, a blocked `wait` always has a permit or a pending step |
| LifecycleRuns.DebtFalls | iconnectd/src/launcher.rs:243-266 | the pending step brings the permit closer and no step of anyone takes it farther away |
| LifecycleRuns.BoundedWakeup | iconnectd/src/instance_manager.rs:68-108 | however the others behave, at most six steps of the chain separate a blocked `wait` from its permit |
| LifecycleRuns.DebtPaid | iconnectd/src/instance_manager.rs:68-108 | when the chain has no step left and its instance was watched, the permit is there |
| LifecycleRuns.SleepsForGood | iconnectd/src/instance_manager.rs:345-359 | a `wait` whose instance nobody will post for stays asleep in every run without an explicit stop check, a dropped guard or the watcher of another instance |
| LifecycleRuns.ExitIsJustified | iconnectd/src/instance_manager.rs:345-359 | `wait` leaves only after a check that found no guard held and everything stopped that was there when it looked; `PassLeavesIff` is the converse |
| LifecycleProgress.CheckLeavesIff | iconnectd/src/instance_manager.rs:345-359 | a check of the guards leaves if and only if the scan saw nothing running and no guard is held |
| LifecycleProgress.PassLeavesIff | iconnectd/src/instance_manager.rs:345-359 | a whole pass over the present instances, in any order, leaves if and only if nothing runs and no guard is held |
| LifecycleProgress.WakesAndLeaves | iconnectd/src/instance_manager.rs:345-359 | a blocked `wait` with a permit leaves in its next pass if nothing runs and no guard is held |
| LifecycleProgress.StartIsWatched | iconnectd/src/instance_manager.rs:68-86 | a start puts a running instance with a waiting watcher into the map and changes nothing else |
| LifecycleProgress.StopIsNoticed | iconnectd/src/instance_manager.rs:87-106 | a watched instance that stops is no longer running, its failure is recorded if it failed, and `wait` gets its permit |
| LifecycleProgress.DropIsNoticed | iconnectd/src/instance_manager.rs:23-28 | dropping a guard releases it and leaves `wait` its permit |
| LifecycleProgress.ErrorsIff | iconnectd/src/instance_manager.rs:87-153 | over every run there is an error message for an instance if and only if its failure was recorded and no delete or retain that hits it has cleaned up since |
| LifecycleProgress.OnlyVictimsGo | iconnectd/src/instance_manager.rs:131-153 | an instance leaves the map only by a delete or retain that hits it, after its thread has ended |
| LifecycleProgress.RemovalIsComplete | iconnectd/src/instance_manager.rs:131-153 | over every run of all parties, once a delete or retain is done with the map, no instance it hits that was there when it began is left |
| LifecycleProgress.RemovalPass | iconnectd/src/instance_manager.rs:131-153 | a whole undisturbed delete or retain removes exactly its victims and their messages and changes nothing else |
| LifecycleRuns.ErrorsBelongToInstances | iconnectd/src/instance_manager.rs:87-106 | in every run, with no delete or retain in progress, errors are kept for present instances only |
| LifecycleRuns.RemovalFinishes | iconnectd/src/instance_manager.rs:131-153 | a delete or retain whose instances are gone, whoever removed them, finishes |
| LifecycleHazards.UnwatchedHazard | iconnectd/src/instance_manager.rs:110-129 | an instance started without a watcher leaves `wait` asleep, with no step of its chain left, in every continuation in which no other party posts |
| LifecycleHazards.RacingDeleteHazard | iconnectd/src/instance_manager.rs:68-86 | a delete between storing an instance and starting its watcher loses the wakeup, and `wait` sleeps on in the same way |
| InstanceInfo.Manager.GetNetworkInfo | iconnectd/src/instance_manager.rs:235-250 | a recorded error comes before running information, as an answer that carries the message and nothing else |
| InstanceInfo.Manager.CollectNetworkInfos | iconnectd/src/instance_manager.rs:155-174 | the bulk answer agrees with the point lookup for every id, in both directions; a recorded error is its message and nothing else |
| InstanceInfo.Manager.DeleteNetworkInstance | iconnectd/src/instance_manager.rs:143-153 | deleted ids are unknown afterwards and every other lookup is unchanged |
| InstanceInfo.Manager.RetainNetworkInstance | iconnectd/src/instance_manager.rs:131-141 | retained ids keep their lookup and every other id is unknown afterwards |
| ConfigLoader.GenConfig | iconnectd/src/launcher.rs:629-1007 | the step-by-step import is the specified conversion, with its errors and its panic; `ConversionMeaning.ImportIff` says what that is for every flat config |
| ConfigLoader.NewFromConfig | iconnectd/src/launcher.rs:1009-1169 | the export is the specified one; reading stores a fresh instance id where there is none and cleans the host name, and exporting again gives the same |
| ConfigLoader.Loader.GetHostname | iconnectd/src/common/config.rs:663-684 | the name read, and the cleaned name written back |
| ConfigLoader.Loader.GetId | iconnectd/src/common/config.rs:832-842 | the id read, and a fresh one stored where there was none |
| ConfigLoader.ReadingIsInvisible | iconnectd/src/common/config.rs:663-684 | what reading changes in a stored config does not change what is exported, and reading again changes nothing |
| ConfigConversion.AddProxyNetworks | iconnectd/src/launcher.rs:725-727 | the loop over proxy entries adds each once, and fails at the first bad one |
| ConversionParts.ProxyRoundTrip | iconnectd/src/launcher.rs:595-623 | a printed proxy network, mapped or not, is read back as it was |
| ConversionParts.ProxiesReadBackIff | iconnectd/src/common/config.rs:771-807 | a proxy list is read back if and only if mapped lengths match, no entry repeats and there are no allow lists |
| ConversionParts.ForwardsReadBack | iconnectd/src/launcher.rs:729-751 | exactly the forwards with two IPv4 addresses survive |
| ConversionParts.Ipv4ReadsBackIff | iconnectd/src/common/config.rs:698-711 | a stored address survives if and only if it is canonical, no host address and not overruled by DHCP |
| ConversionParts.HostnameSettles | iconnectd/src/common/config.rs:663-684 | a reported host name stays the same when stored and reported again |
| ConversionParts.TidyIff | iconnectd/src/launcher.rs:1153-1166 | splitting at white space and joining with single spaces fixes exactly the tidy texts |
| Text.SplitSpacesSkips | iconnectd/src/launcher.rs:1153-1166 | white space before a word is passed over, however much there is |
| ConversionParts.WhitelistNormalises | iconnectd/src/launcher.rs:939-945 | both conversions bring any whitelist into its tidy form with the same words, and a second trip leaves it alone |
| ConversionParts.SwitchesReadBack | iconnectd/src/launcher.rs:1118-1149 | every exported switch, the MTU cast and the receive limit included, is read back as it was |
| ConversionParts.MappedReadBackIff | iconnectd/src/common/config.rs:95-108 | mapped listeners are read back if and only if each is valid |
| ConversionLaws.GenIff | iconnectd/src/launcher.rs:629-1007 | an import gives a config if and only if every part of the flat form gives that config's part |
| ConversionMeaning.ImportIff | iconnectd/src/launcher.rs:629-1007 | for every flat config and every stored config: the import gives it if and only if each of its fields is what the raw texts, numbers and switches of the flat form say |
| ConversionMeaning.ImportedPeers | iconnectd/src/launcher.rs:680-719 | method 2 has no peers; method 1 the parsed non-empty peer URLs in order, none if there are none; any other method the public server alone, which must parse |
| ConversionMeaning.Ipv4Iff | iconnectd/src/launcher.rs:665-678 | the stored address: none under DHCP or without one, otherwise the dotted address with a length of 0 to 32, 24 unless given |
| ConversionMeaning.SecureModeIff | iconnectd/src/common/config.rs:490-525 | which keys are accepted, kept and made, in credential mode and otherwise |
| ConversionMeaning.ProxiesIff | iconnectd/src/common/config.rs:771-807 | the stored proxy networks are the first occurrences of the networks in the texts; a list is refused if and only if a text is no network or pair of networks of one length |
| ConversionMeaning.ProxyIff | iconnectd/src/launcher.rs:595-623 | an entry is read as a network, or as two with an arrow between them, if and only if it is their text |
| ConversionMeaning.KeepForwardsIff | iconnectd/src/launcher.rs:729-751 | the stored port forwards are those that can be read, in order |
| ConversionMeaning.VpnIff | iconnectd/src/launcher.rs:753-775 | the stored VPN portal: the client network of length 24 unless given, listening on every address |
| ConversionMeaning.FlagsIff | iconnectd/src/launcher.rs:840-1005 | every flag of an import, switch by switch, with its value where the flat form leaves it out |
| ConversionMeaning.PanicsBeforeIff | iconnectd/src/launcher.rs:802-808 | an import panics if and only if the proxy is enabled with a number that is no port and the config without it and what follows it is imported |
| ConversionReimport.ReimportIff | iconnectd/src/launcher.rs:1009-1169 | for every well-typed stored config: the config that its export is read back as, field by field, what absent fields turn into, and which exports are refused |
| ConversionReimport.ProxiesReimportIff | iconnectd/src/launcher.rs:1056-1067 | exported proxy networks are refused if a mapped length differs, and otherwise stored once each, without what they allow |
| ConversionReimport.DropControlsSplits | iconnectd/src/common/config.rs:663-684 | control characters are dropped from a host name one by one, and no others |
| ConversionLaws.SecureModeSurvivesIff | iconnectd/src/common/config.rs:490-525 | secure mode survives if and only if its keys are complete, with the derived key in credential mode |
| ConversionLaws.SocksSurvivesIff | iconnectd/src/launcher.rs:802-808 | a SOCKS5 URL survives if and only if it is the URL of a port |
| ConversionLaws.RoundTripIff | iconnectd/src/launcher.rs:1009-1169 | a stored config survives export and import unchanged if and only if it is representable |
| ConversionLaws.PanicsIff | iconnectd/src/launcher.rs:802-808 | an import panics if and only if it gets as far as an enabled SOCKS5 proxy with a number that is no port |
| ConversionSettles.BadPortPanics | iconnectd/src/launcher.rs:802-808 | a stand-alone network with a SOCKS5 proxy on port 70000 panics |
| ConversionSettles.GenGenerates | iconnectd/src/launcher.rs:629-1007 | what holds of every config an import returns |
| ConversionSettles.ReimportStableIff | iconnectd/src/launcher.rs:1009-1169 | the export of any imported config is accepted again, and re-exporting gives the same flat config if and only if there is no IPv6 forward and no padded `*` |
| ConversionSettles.CredentialModeKept | iconnectd/src/launcher.rs:645-663 | a config in credential mode keeps its private key and stays without a secret |
| ConversionSettles.TwoRoundsSettle | iconnectd/src/launcher.rs:1009-1169 | from any imported config, two rounds of export and import reach a config that every further round leaves unchanged |
| ConversionSettles.PaddedStarIsLost | iconnectd/src/launcher.rs:1153-1166 | a concrete whitelist that two exports report differently |
| ConversionSettles.Ipv6ForwardIsLost | iconnectd/src/launcher.rs:729-751 | a bracketed IPv6 forward is stored once and gone after a round |
| Addresses.InetRoundTrip | iconnectd/src/launcher.rs:665-678 | a printed network or address with length is parsed back as it was |
| Addresses.V4Iff | iconnectd/src/launcher.rs:665-678 | an address is read from its dotted text and from no other |
| Addresses.InetIff | iconnectd/src/launcher.rs:665-678 | a network is read exactly from its address alone when its length is 32, or from the address, a slash and a numeral of its length |
| Addresses.SocketIff | iconnectd/src/launcher.rs:735-738 | an address and a port read as a dotted socket address when the address is dotted, and else as the library reads them |
| Addresses.SocketRoundTripIff | iconnectd/src/launcher.rs:1068-1082 | address and port joined with a colon are parsed back if and only if the address is IPv4 |
| ClientIndex.Storage.UpdateClient | iconnect-web/src/client_manager/storage.rs:55-77 | the nested maps stay in order and hold what the history of calls leaves in a flat map |
| ClientIndex.Storage.RemoveClient | iconnect-web/src/client_manager/storage.rs:48-86 | the same for a departure; a user without machines is dropped |
| ClientIndex.Storage.GetClientUrl | iconnect-web/src/client_manager/storage.rs:92-102 | the lookup agrees with the flat map |
| ClientIndex.Storage.ListUserClients | iconnect-web/src/client_manager/storage.rs:104-115 | one URL for each of the user's slots in the flat map, and no other |
| ClientIndex.Storage.ListClients | iconnect-web/src/client_manager/storage.rs:117-129 | every token of the flat map once, and no other |
| ClientIndex.UpdateRefines | iconnect-web/src/client_manager/storage.rs:55-77 | a report does to the nested maps what it does to the flat one, and keeps them filed by their own keys |
| ClientIndex.RemoveRefines | iconnect-web/src/client_manager/storage.rs:48-86 | a departure does to the nested maps what it does to the flat one, leaving no empty inner map |
| ClientIndex.EntryIsNewest | iconnect-web/src/client_manager/storage.rs:55-67 | after any calls an entry is the newest report to its slot since the slot was last empty, the earliest one on ties |
| ClientIndex.EmptyIff | iconnect-web/src/client_manager/storage.rs:48-86 | a slot is empty if and only if every report to it was followed by the departure of the client whose report the slot then held |
| ClientIndex.TokensMatch | iconnect-web/src/client_manager/storage.rs:55-77 | after any calls every token is filed under its own user and machine |
| ClientIndex.SupersededLeave | iconnect-web/src/client_manager/storage.rs:48-53 | the late departure of a superseded connection leaves the newer entry in place |
| PacketCompressor.DecompressRaw | iconnectd/src/common/compressor.rs:60-90 | the buffer loop is the specified sequence of attempts |
| PacketCompressor.DecompressRawIff | iconnectd/src/common/compressor.rs:69-88 | the loop recovers the data if and only if it fits 32 times the compressed length or 64 KiB |
| PacketCompressor.CompressesIff | iconnectd/src/common/compressor.rs:95-130 | a packet is compressed if and only if that is asked for, not done yet and possible, and the result with its tail is no longer than the header says; when the call fails |
| PacketCompressor.DecompressesIff | iconnectd/src/common/compressor.rs:132-175 | a packet is decompressed if and only if its tail is right and the first buffer that is not too small yields as many bytes as the header says |
| PacketCompressor.ZcPacket.CompressInPlace | iconnectd/src/common/compressor.rs:95-130 | the new packet and the result of compressing in place |
| PacketCompressor.ZcPacket.DecompressInPlace | iconnectd/src/common/compressor.rs:132-175 | the new packet and the result of decompressing in place |
| PacketCompressor.CompressShrinks | iconnectd/src/common/compressor.rs:111-114 | a compressed packet is no longer than its header says, and the header is untouched |
| PacketCompressor.CompressTwice | iconnectd/src/common/compressor.rs:100-106 | compressing is idempotent |
| PacketCompressor.FailuresChangeNothing | iconnectd/src/common/compressor.rs:132-175 | a call that fails leaves the packet as it was; a decompressed packet has its header's length |
| PacketCompressor.RoundTripIff | iconnectd/src/common/compressor.rs:95-175 | decompressing a compressed packet restores it if and only if it was left alone, or its header is right and it fits the largest buffer; otherwise an error is reported |
| PacketCompressor.SmallPacketsRoundTrip | iconnectd/src/common/compressor.rs:69-74 | payloads of at most 64 KiB always come back |
| PacketCompressor.LongRunIsLost | iconnectd/src/common/compressor.rs:69-88 | a payload over 64 KiB that any codec brings under a thirty-second part of its length is sent compressed and cannot be decompressed |
| TableLayout.TableTotalWidth | iconnectd/src/cli.rs:2797-2808 | the loop computes the width of the columns still shown and their frame |
| TableMeaning.TotalWidthIsDrawn | iconnectd/src/cli.rs:2797-2808 | the computed width is the length of a line of the drawn table |
| TableMeaning.SameNameIff | iconnectd/src/cli.rs:2752-2764 | column names are the same if and only if they differ at most in the case of ASCII letters |
| TableLayout.HeaderIndices | iconnectd/src/cli.rs:2752-2764 | the indices are in range and distinct, one for each name that has a column, in the order the names introduce them |
| TableLayout.SelectColumnsToDrop | iconnectd/src/cli.rs:2766-2795 | the dropped columns are those of the shortest prefix of the list after which the table fits, or of the whole list, each once even if the list repeats it |
| TableLayout.FittingIsMonotone | iconnectd/src/cli.rs:2782-2792 | once a prefix fits every longer one does, so dropping stops where fitting starts |
| TableLayout.ApplyColumnDrops | iconnectd/src/cli.rs:2721-2727 | removing columns one by one in descending order leaves exactly the columns that were not dropped |
| TableLayout.OptionalColumnTargets | iconnectd/src/cli.rs:2810-2857 | the loops compute the columns to truncate and their widths |
| TableLayout.TruncationFitsIff | iconnectd/src/cli.rs:2845-2851 | with the chosen width the table fits if and only if it fits with the optional columns at six characters |
| TableMeaning.PerColumnIff | iconnectd/src/cli.rs:2845-2851 | the width of an optional column is the largest from 6 to 24 for which there is room in every one, and 6 when there is none |
| TableMeaning.RequiredIs | iconnectd/src/cli.rs:2836-2843 | the required width is that of the table with nothing in its optional columns |
| TableMeaning.ChosenWidthIsLargest | iconnectd/src/cli.rs:2845-2851 | one character more in each of the optional columns would not fit |
| TableLayout.TargetsCut | iconnectd/src/cli.rs:2853-2856 | carrying out the truncations cuts exactly the optional columns still shown |
| TableLayout.LayoutFitsIff | iconnectd/src/cli.rs:2695-2719 | the table fits in the end if and only if it fits after the drops, or with the optional columns at their least width |
| PortList.ParsePortList | iconnectd/src/cli.rs:2609-2638 | the loop yields the canonical texts of the list's entries, or an error |
| PortList.SpecGrammarIff | iconnectd/src/cli.rs:2611-2635 | an item is read as an entry if and only if it is, between white space, a numeral up to 65535, or two in order with a hyphen; a numeral is decimal digits after zeros and a plus sign |
| Text.ParseUnsignedIff | iconnectd/src/cli.rs:2611-2635 | a number is read exactly from the texts that write it, a plus sign, zeros and its decimal digits, and only up to the maximum |
| Text.TrimIff | iconnectd/src/cli.rs:2611-2612 | trimming finds the one text without white space at its ends that white space surrounds |
| PortList.AcceptedIff | iconnectd/src/cli.rs:2609-2638 | a list is accepted if and only if every item means something |
| PortList.ReparseIsStable | iconnectd/src/cli.rs:2609-2638 | the canonical texts joined with commas are read as the same entries |
| PortList.SamePorts | iconnectd/src/cli.rs:2609-2638 | the canonical list allows exactly the ports of the text it came from |
| JsonPointer.DotPathToJsonPointer | iconnect-web/src/restful/oidc.rs:100-115 | the nested loops build the JSON Pointer of the path's segments |
| JsonPointer.UnescapeEscape | iconnect-web/src/restful/oidc.rs:103-110 | the two passes of section 4 of RFC 6901 undo the escaping |
| JsonPointer.PointerNamesPath | iconnect-web/src/restful/oidc.rs:100-115 | the reference tokens of the encoded path are the dot-separated segments |
| JsonPointer.PointerIsInjective | iconnect-web/src/restful/oidc.rs:100-115 | different paths have different JSON Pointers |
| JsonPointer.IndexIff | iconnect-web/src/restful/oidc.rs:638-642 | an array element is named by its decimal index and by nothing else |
| JsonPointer.UserNameIff | iconnect-web/src/restful/oidc.rs:638-642 | the user name is a text if and only if it is not empty and the path leads to it, segment by segment, through fields and decimal indices |

## Left out

- ReconcileTask.Task.OnHeartbeat: a nil machine id is excluded, because the listings of the task then span every device of the user and an instance id no longer names one row; `ExactIffRealDevice` shows what that breaks.
- ReconcileTask.Task.RunRound: excludes a nil machine id for the same reason.
- ReconcileTask.Task.CleanupPhase: excludes a nil machine id for the same reason.
- ReconcileTask.RowsById: excludes a nil machine id for the same reason.
- HeartbeatSession.StepKeepsInv: a nil machine id lists its own scope only, where the source lists every device; the session's identity does not depend on it.
- ReconcileTask.Client.RunInstance: the daemon's checks before it overwrites a config file are not modelled; their outcome is an answer.
- ConfigLoader.GenConfig: the flags and the port forwards are computed in one expression each instead of field by field.
- TableLayout.OptionalColumnTargets: a truncated column is taken to be exactly as wide as its target, as the table library promises, and columns are named by index where the source names them by header.
- LifecycleRuns.NoLostWakeup: instance ids are never reused, and atomic actions are sequentially consistent.
- Edits of the table during a round of the reconcile task: the runs edit it between rounds; what an edit during the sync becomes is stated by `StaleSync.RowAfterEdit`.
- SQL text, migrations and JSON encoding: the table is a map with a unique key and a config is an opaque value that round-trips.
- URL, UUID, IPv6, CIDR, base64 and zstd libraries: only their parse, print and codec contracts are used.
- The lock of the config loader: its methods are modelled as one atomic call each.
- `netns`, the static IPv6 address, the port whitelists, the STUN servers and the config source: the flat form has no place for them, which `RoundTripIff` states.
- The event log of an instance (a queue of twenty entries): it would only add easy members.
- HTTP routing, login, captchas, RPC transport and the rest of the OpenID Connect exchange: thin layers over libraries.
- Real time, retries and scheduling: replaced by steps that may happen in any order.
- The tunnels, peers, routing and encryption of the mesh itself: not part of this model.
