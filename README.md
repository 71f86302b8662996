# HelenusDB evolve, modelled in Dafny

HelenusDB evolve is a schema-migration library for Cassandra. A client registers
migrations, each with a version, an applicability test `isApplicable(from, to)`
and an action `migrate(session)`. The client then calls `migrate(session)`, which:

- takes a lock row in a lock table, or waits while another client holds it;
- reads the current version from an append-only history table, creating the
  tables when they do not exist yet;
- merges the registered migrations with those discovered on the classpath and
  sorts them;
- runs each applicable migration in list order and records every attempt as a
  history row;
- releases the lock.

`ScriptMigration` is the common kind of migration. It splits a CQL script on
`;` and runs the statements one by one.

This project models:

- the metadata and lock store (`MetadataStrategy` and its one implementation,
  `CassandraMetadataStrategy`);
- `ScriptMigration`;
- the `Migration` contract;
- the two orchestrator classes, `CassandraEvolve` and `HelenusDbEvolve`. They
  are the same code twice, so their shared private steps are modelled once.

Modules:

- `Wrappers` holds `Option` and `Result`. `Exceptions` holds `Failure`, one
  constructor per exception the code can raise.
- `Migrations` models the `Migration` contract. `compareTo` is instantiated as
  a comparison of versions. `Collections.sort` is a stable insertion sort,
  ascending or in reverse order.
- `MetadataStore` gives each of the seven store operations as a pure
  transition on a `StoreState`. A `StoreState` holds the tables, the two lazily
  prepared statements and a ghost trace of the calls made. The lemmas about
  the lock, the history and statement preparation are stated here.
- `Cql` is the session: the tables, the statements executed so far, and an
  oracle that decides which statement the database rejects. `Sleep` stands
  for `Thread.sleep`, during which other clients may insert or delete the lock
  row.
- `CassandraMetadata` is the `CassandraMetadataStrategy` class. Its
  `updateStatement` and `lockCheckStatement` fields are assigned on first use.
  Each method is proved to make exactly the `MetadataStore` transition.
- `ScriptMigrations` holds Java's `String.split(";")` as a function, with its
  round trip. It also holds the `ScriptMigration` class, whose `migrate` loop
  is proved to run the statements in order up to the first one rejected.
- `Orchestration` is the specification of one `migrate` call: `Hold`,
  `Process`, `CurrentVersion`, `InitializeMetadata`, `Merge`, `RunAndRelease`,
  `Locked` and `Migrate`. It also holds the lemmas about what that call does:
  - the protocol of store calls;
  - which migrations run and what is recorded;
  - when the lock is released and when it is not.
- `Evolve` holds the imperative orchestrator. It has the `hold` do-while loop,
  the `process` for-loop with its early return, and the body of `migrate`
  with its `try`/`finally`. It also has the classes `CassandraEvolve` and
  `HelenusDbEvolve`, each with a `migrations` set and a metadata strategy
  replaced by `setConfiguration`. Every method is proved to make exactly the
  transition `Orchestration` specifies.
- `Corrected` is the orchestrator as its documentation intends it, with the
  intended properties proved. It also holds concrete scenarios in which the
  code as written and the corrected orchestrator part ways (see Findings).

The environment enters as an `Env` value. It fixes:

- the clock reading when the lock is taken;
- whether each `create table` is reported as applied;
- what the script loader returns, or that it threw `IOException`;
- for each position of the sorted list, what `migrate` did and whether its
  history insert was applied;
- the course of the waiting loop: an interrupt, or a sleep after which the
  lock row is as other clients left it.

`isApplicable` is a parameter of type `Applicability`.

The `Evolve` classes and `Orchestration` model the code as written, including
the behaviour listed under Findings. The intended behaviour is read from the
source itself:

- the target is the newest version: the doc comment of `migrate` promises to
  migrate the database "to the latest version" (CassandraEvolve.java:130);
- the lock is given back once taken: `releaseLock` sits in a `finally` block
  (CassandraEvolve.java:175-178), which the code reaches only on some paths;
- migrations run oldest first. No line of the source states this; it is this
  model's reading of a version-numbered migration scheme.

The `Corrected` module is that intended behaviour, with its properties proved.

## Model

| member | source | states |
|---|---|---|
| Migrations.CompareTo | src/main/java/com/helenusdb/evolve/Migration.java:5-6 | `compareTo` as a comparison of versions: negative, zero or positive as the first version is below, equal to or above the second. Its preorder laws are `CompareToIsTotalPreorder`. |
| Migrations.CompareToIsTotalPreorder | src/main/java/com/helenusdb/evolve/Migration.java:5-6 | `compareTo` (by version) is a total preorder: sign-antisymmetric, transitive and total. It is 0 exactly for equal versions. |
| Migrations.Sort | src/main/java/com/helenusdb/evolve/CassandraEvolve.java:157 | The sorted list is ordered by `compareTo`, in reverse when asked. It is a permutation of its input. |
| Migrations.SortedEnds | src/main/java/com/helenusdb/evolve/CassandraEvolve.java:157-158 | The last element of the reverse-sorted list has the smallest version. The last of the ascending list has the largest. |
| Migrations.ExtremesOfPermutation | src/main/java/com/helenusdb/evolve/CassandraEvolve.java:154-157 | Lists with the same elements have the same smallest and the same largest version. |
| MetadataStore.ExistsOp | src/main/java/com/helenusdb/evolve/metadata/CassandraMetadataStrategy.java:25-29 | `exists`: answers whether the history table exists and records the call; no table changes. |
| MetadataStore.GetCurrentVersionOp | src/main/java/com/helenusdb/evolve/metadata/CassandraMetadataStrategy.java:31-35 | `getCurrentVersion`: the version of the newest history row; a missing table or an empty history is an error. Proved about it: `NewestVersionIsDetermined`, `CurrentVersionIsLatestInstalled`. |
| MetadataStore.InitializeOp | src/main/java/com/helenusdb/evolve/metadata/CassandraMetadataStrategy.java:37-68 | `initialize`: creates the history table, then the lock table, each unless it exists; an unapplied creation raises its own failure. Proved about it: `InitializeIdempotent`. |
| MetadataStore.UpdateOp | src/main/java/com/helenusdb/evolve/metadata/CassandraMetadataStrategy.java:70-84 | `update`: appends one history record when the insert is applied, preparing the insert on first use. Proved about it: `UpdateAppendsOne`. |
| MetadataStore.AcquireLockOp | src/main/java/com/helenusdb/evolve/metadata/CassandraMetadataStrategy.java:86-93 | `acquireLock`: the conditional insert of the lock row stamped with the clock. Proved about it: `AcquireLockIffFree`, `NoTwoAcquires`. |
| MetadataStore.IsLockedOp | src/main/java/com/helenusdb/evolve/metadata/CassandraMetadataStrategy.java:95-107 | `isLocked`: whether the lock row exists, preparing the count query on first use. Proved about it: `IsLockedReadsLockRow`. |
| MetadataStore.ReleaseLockOp | src/main/java/com/helenusdb/evolve/metadata/CassandraMetadataStrategy.java:109-120 | `releaseLock`: the conditional delete of the lock row; a missing row raises. Proved about it: `ReleaseLockRemovesRow`, `ReleaseThenAcquire`. |
| MetadataStore.Newest | src/main/java/com/helenusdb/evolve/metadata/CassandraMetadataStrategy.java:48-49 | The row read first under the clustering order (installed_on DESC, version DESC) is a history row, and no row sorts before it. |
| MetadataStore.NewestVersionIsDetermined | src/main/java/com/helenusdb/evolve/metadata/CassandraMetadataStrategy.java:31-35 | Every row that nothing sorts before has the same version, so the version read is well defined. |
| MetadataStore.AcquireLockIffFree | src/main/java/com/helenusdb/evolve/metadata/CassandraMetadataStrategy.java:86-93 | `acquireLock` answers true exactly when the lock table exists and holds no lock row. The row then holds the clock reading. A false answer leaves the tables unchanged. The history is never touched. |
| MetadataStore.NoTwoAcquires | src/main/java/com/helenusdb/evolve/metadata/CassandraMetadataStrategy.java:88-92 | Of two consecutive acquires, at most one succeeds. |
| MetadataStore.ReleaseThenAcquire | src/main/java/com/helenusdb/evolve/metadata/CassandraMetadataStrategy.java:109-120 | After a successful release, the next acquire succeeds. |
| MetadataStore.ReleaseLockRemovesRow | src/main/java/com/helenusdb/evolve/metadata/CassandraMetadataStrategy.java:109-120 | `releaseLock` succeeds exactly when a lock row exists, and then removes it. Otherwise it throws and changes no table. |
| MetadataStore.IsLockedReadsLockRow | src/main/java/com/helenusdb/evolve/metadata/CassandraMetadataStrategy.java:95-107 | `isLocked` answers whether a lock row exists. It changes no table. |
| MetadataStore.UpdateAppendsOne | src/main/java/com/helenusdb/evolve/metadata/CassandraMetadataStrategy.java:70-84 | `update` succeeds exactly when the history table exists and the write is applied. It then appends exactly the given record, and otherwise leaves the history unchanged. An unapplied write is `UpdateFailed`. The lock row is untouched. |
| MetadataStore.CurrentVersionIsLatestInstalled | src/main/java/com/helenusdb/evolve/metadata/CassandraMetadataStrategy.java:31-35 | After appending a record installed later than all others, `getCurrentVersion` answers that record's version, whatever its success flag. |
| MetadataStore.InitializeIdempotent | src/main/java/com/helenusdb/evolve/metadata/CassandraMetadataStrategy.java:37-68 | With both creations applied, `initialize` creates both tables and keeps the history and the lock row. Calling it a second time changes no table. |
| MetadataStore.PreparedStatementsAreLazy | src/main/java/com/helenusdb/evolve/metadata/CassandraMetadataStrategy.java:72-111 | The insert and the lock count are prepared on first use only. The conditional insert and delete of the lock row are prepared on every call. |
| CassandraMetadata.CassandraMetadataStrategy.constructor | src/main/java/com/helenusdb/evolve/metadata/CassandraMetadataStrategy.java:19-23 | A new strategy has no prepared statement. |
| CassandraMetadata.CassandraMetadataStrategy.Exists | src/main/java/com/helenusdb/evolve/metadata/CassandraMetadataStrategy.java:25-29 | Answers whether the history table exists. It makes the `ExistsOp` transition. |
| CassandraMetadata.CassandraMetadataStrategy.GetCurrentVersion | src/main/java/com/helenusdb/evolve/metadata/CassandraMetadataStrategy.java:31-35 | Makes the `GetCurrentVersionOp` transition: the newest row's version. A missing table and a missing row are errors. |
| CassandraMetadata.CassandraMetadataStrategy.Initialize | src/main/java/com/helenusdb/evolve/metadata/CassandraMetadataStrategy.java:37-68 | Makes the `InitializeOp` transition. Each unapplied creation throws its own exception. |
| CassandraMetadata.CassandraMetadataStrategy.Update | src/main/java/com/helenusdb/evolve/metadata/CassandraMetadataStrategy.java:70-84 | Makes the `UpdateOp` transition, preparing the insert once. |
| CassandraMetadata.CassandraMetadataStrategy.AcquireLock | src/main/java/com/helenusdb/evolve/metadata/CassandraMetadataStrategy.java:86-93 | Makes the `AcquireLockOp` transition. |
| CassandraMetadata.CassandraMetadataStrategy.IsLocked | src/main/java/com/helenusdb/evolve/metadata/CassandraMetadataStrategy.java:95-107 | Makes the `IsLockedOp` transition, preparing the count once. |
| CassandraMetadata.CassandraMetadataStrategy.ReleaseLock | src/main/java/com/helenusdb/evolve/metadata/CassandraMetadataStrategy.java:109-120 | Makes the `ReleaseLockOp` transition. |
| ScriptMigrations.Pieces | src/main/java/com/helenusdb/evolve/ScriptMigration.java:34 | The script cut at every `;` gives at least one piece. |
| ScriptMigrations.PiecesHaveNoDelimiter | src/main/java/com/helenusdb/evolve/ScriptMigration.java:34 | No piece contains `;`. |
| ScriptMigrations.Split | src/main/java/com/helenusdb/evolve/ScriptMigration.java:34 | No command contains `;`. |
| ScriptMigrations.JoinPieces | src/main/java/com/helenusdb/evolve/ScriptMigration.java:34 | Joining the pieces with `;` gives back the script. |
| ScriptMigrations.PiecesOfJoin | src/main/java/com/helenusdb/evolve/ScriptMigration.java:34 | Pieces without `;`, joined and cut again, come back unchanged. |
| ScriptMigrations.SplitRoundTrip | src/main/java/com/helenusdb/evolve/ScriptMigration.java:34 | Joining the commands with `;` gives back the script minus its trailing run of `;`. |
| ScriptMigrations.SplitKeepsInteriorPieces | src/main/java/com/helenusdb/evolve/ScriptMigration.java:34 | When the script contains `;`, the commands are the pieces up to the last non-empty one. Interior empty pieces are kept, and every dropped piece is empty. |
| ScriptMigrations.SplitEdgeCases | src/main/java/com/helenusdb/evolve/ScriptMigration.java:34 | A lone `;` gives no command. An empty script gives one empty command. |
| ScriptMigrations.SplitKeepsInteriorEmpty | src/main/java/com/helenusdb/evolve/ScriptMigration.java:34 | `a;;b;` gives the commands `a`, the empty command and `b`. |
| ScriptMigrations.FirstRejected | src/main/java/com/helenusdb/evolve/ScriptMigration.java:36-45 | The position where the loop stops lies between the start and the end of the command list. |
| ScriptMigrations.FirstRejectedIsFirst | src/main/java/com/helenusdb/evolve/ScriptMigration.java:36-45 | That position is the first command the database rejects: every command before it is accepted, and it is rejected. |
| ScriptMigrations.ScriptMigration.constructor | src/main/java/com/helenusdb/evolve/ScriptMigration.java:15-18 | A new migration has a null script. |
| ScriptMigrations.ScriptMigration.SetScript | src/main/java/com/helenusdb/evolve/ScriptMigration.java:25-28 | Sets the script. |
| ScriptMigrations.ScriptMigration.Migrate | src/main/java/com/helenusdb/evolve/ScriptMigration.java:30-48 | Runs the commands in order, each once, up to and including the first one rejected, and leaves all of them run. Answers true exactly when none is rejected. A null script runs nothing and answers false. |
| Orchestration.Hold | src/main/java/com/helenusdb/evolve/CassandraEvolve.java:183-200 | `hold`: sleeps, then polls `isLocked`, until the lock row is gone, the sleep is interrupted or the polling fails. Proved about it: `HoldOnlyPolls`. |
| Orchestration.Process | src/main/java/com/helenusdb/evolve/CassandraEvolve.java:235-255 | `process`: runs each applicable migration in list order and records it, stopping at the first that fails, throws or is not recorded. Proved about it: `ProcessMeetsExpectation`, `ProcessResult`. |
| Orchestration.CurrentVersion | src/main/java/com/helenusdb/evolve/CassandraEvolve.java:275-283 | `getCurrentVersion`: `UNINITIALIZED` when the history table is missing, otherwise the store's answer. |
| Orchestration.InitializeMetadata | src/main/java/com/helenusdb/evolve/CassandraEvolve.java:294-298 | `initializeMetadata`: creates the tables and answers version 0. |
| Orchestration.ResolveVersion | src/main/java/com/helenusdb/evolve/CassandraEvolve.java:146-151 | The current version, with the tables created when it reads `UNINITIALIZED`. Proved about it: `ResolvedVersion`, `ResolveFollowsShape`. |
| Orchestration.Merge | src/main/java/com/helenusdb/evolve/CassandraEvolve.java:153-157 | Registered then discovered migrations, sorted in reverse `compareTo` order. Proved about it: `MergeKeepsEverything`. |
| Orchestration.LatestVersion | src/main/java/com/helenusdb/evolve/CassandraEvolve.java:158 | The version of the last element of the merged list. Proved about it: `LatestIsMinimum`. |
| Orchestration.RunAndRelease | src/main/java/com/helenusdb/evolve/CassandraEvolve.java:164-178 | The `try`/`finally` block: `process`, then `releaseLock` whatever happened, with a false answer raised as `Aborted`. Proved about it: `RunAndReleaseOutcome`, `RunAndReleaseCalls`. |
| Orchestration.Locked | src/main/java/com/helenusdb/evolve/CassandraEvolve.java:146-179 | Everything `migrate` does after taking the lock. Proved about it: `FailuresBeforeTryKeepLock`, `UpToDateKeepsLock`, `BehindRunsAndReleases`, `LockedFollowsProtocol`. |
| Orchestration.Migrate | src/main/java/com/helenusdb/evolve/CassandraEvolve.java:135-180 | One `migrate` call: the lock attempt, then waiting or the locked part. Proved about it: `MigrateFollowsProtocol`, `ProtocolGuarantees`, `FreeLockIsTaken`, `HeldLockOnlyWaits`. |
| Orchestration.HoldOnlyPolls | src/main/java/com/helenusdb/evolve/CassandraEvolve.java:183-200 | `hold` only polls `isLocked`, at least once unless the first sleep is interrupted, and writes no table. It fails exactly when the lock table is missing. It ends `Unlocked` only when the lock row is gone. |
| Orchestration.ApplicablePositions | src/main/java/com/helenusdb/evolve/CassandraEvolve.java:237-239 | Lists positions in the list whose migration `isApplicable(from, to)` admits. |
| Orchestration.ApplicablePositionsIncrease | src/main/java/com/helenusdb/evolve/CassandraEvolve.java:237 | The applicable positions come in list order. |
| Orchestration.ApplicablePositionsComplete | src/main/java/com/helenusdb/evolve/CassandraEvolve.java:239 | Every applicable position is among them. |
| Orchestration.FirstBad | src/main/java/com/helenusdb/evolve/CassandraEvolve.java:247-250 | Finds the first attempt that does not let the loop go on: every attempt before it succeeded and was recorded, and this one did not. |
| Orchestration.ProcessGoodStep | src/main/java/com/helenusdb/evolve/CassandraEvolve.java:239-251 | A migration that succeeds and is recorded lets `process` go on with the next position. |
| Orchestration.ProcessBadStep | src/main/java/com/helenusdb/evolve/CassandraEvolve.java:243-250 | A migration that fails, throws or is not recorded ends `process` at once. |
| Orchestration.ProcessMeetsExpectation | src/main/java/com/helenusdb/evolve/CassandraEvolve.java:235-255 | `process` attempts exactly the applicable migrations, in list order, up to the first one that fails, throws or cannot be recorded. It makes one `update` per attempt that returned, with the record of that migration and attempt, and appends those records. A thrown migration writes nothing and its exception propagates. The lock row is untouched. |
| Orchestration.ProcessResult | src/main/java/com/helenusdb/evolve/CassandraEvolve.java:247-254 | `process` answers true exactly when every applicable migration succeeded and was recorded. It answers false exactly when the first one that did not succeed returned false and was recorded. |
| Orchestration.ProcessOnlyUpdates | src/main/java/com/helenusdb/evolve/CassandraEvolve.java:245 | `process` calls only `update`, and leaves the lock row and the tables' existence alone. |
| Orchestration.RecordsFollowListOrder | src/main/java/com/helenusdb/evolve/CassandraEvolve.java:237-245 | The records of a run follow the list order: non-increasing versions over a reverse-sorted list, non-decreasing over an ascending one. |
| Orchestration.ResolvedVersion | src/main/java/com/helenusdb/evolve/CassandraEvolve.java:146-151 | The version compared is never `UNINITIALIZED`. Without a history table it is 0, after the tables are created. Otherwise it is the newest record's version. The lock row and the history are unchanged. |
| Orchestration.MergeKeepsEverything | src/main/java/com/helenusdb/evolve/CassandraEvolve.java:153-157 | The merged list holds every registered and every discovered migration, duplicates included, in reverse `compareTo` order. It is empty only when both inputs are. |
| Orchestration.LatestIsMinimum | src/main/java/com/helenusdb/evolve/CassandraEvolve.java:157-158 | The "latest" version is the smallest version of all migrations. |
| Orchestration.LatestIsMinimumExample | src/main/java/com/helenusdb/evolve/CassandraEvolve.java:157-158 | With versions 1 and 2, the target is 1. |
| Orchestration.ResolveFollowsShape | src/main/java/com/helenusdb/evolve/CassandraEvolve.java:275-298 | Resolving the version calls `exists` first. `getCurrentVersion` is called only when `exists` found the table, and `initialize` only after an "uninitialised" answer. |
| Orchestration.RunAndReleaseCalls | src/main/java/com/helenusdb/evolve/CassandraEvolve.java:164-178 | The `try`/`finally` block makes `update` calls and then exactly one release. |
| Orchestration.LockedFollowsProtocol | src/main/java/com/helenusdb/evolve/CassandraEvolve.java:146-179 | Under the lock, the calls are the version resolution, then updates, then possibly one release as the last call. |
| Orchestration.MigrateFollowsProtocol | src/main/java/com/helenusdb/evolve/CassandraEvolve.java:135-180 | Every `migrate` makes one lock attempt first. After it comes nothing if the attempt threw, only polls if another client holds the lock, and the locked protocol if the lock was acquired. |
| Orchestration.LockedProtocolGuarantees | src/main/java/com/helenusdb/evolve/CassandraEvolve.java:146-179 | Under the lock, there is no acquire and no poll. The release can only be the last call. `getCurrentVersion` only follows `exists` = true. `initialize` only follows an "uninitialised" answer. |
| Orchestration.ProtocolGuarantees | src/main/java/com/helenusdb/evolve/metadata/MetadataStrategy.java:7-13 | `acquireLock` is called once and first. `releaseLock` is called at most once, last, and only after an acquire answered true. `getCurrentVersion` is called only after `exists` answered true. `initialize` is called only after `exists` was false or the version read was -1. `update` is called only under the lock. `isLocked` is called only after an acquire answered false. |
| Orchestration.MissingLockTableFailsFirst | src/main/java/com/helenusdb/evolve/CassandraEvolve.java:138-151 | Without a lock table, `migrate` fails at the lock attempt and never creates a table. |
| Orchestration.HeldLockOnlyWaits | src/main/java/com/helenusdb/evolve/CassandraEvolve.java:138-144 | While another client holds the lock, `migrate` only waits and writes no table. It returns `Unlocked` only after seeing the lock row gone. |
| Orchestration.FreeLockIsTaken | src/main/java/com/helenusdb/evolve/CassandraEvolve.java:138 | A free lock is taken, stamped with the clock, and the rest runs under it. |
| Orchestration.FailuresBeforeTryKeepLock | src/main/java/com/helenusdb/evolve/CassandraEvolve.java:146-158 | Failures before the `try` (resolving the version, discovery, an empty list) propagate with the lock still held and the history untouched. |
| Orchestration.UpToDateKeepsLock | src/main/java/com/helenusdb/evolve/CassandraEvolve.java:160-179 | When the version is not below the target, `migrate` returns normally. It appends no history record and keeps the lock, though resolving the version may have created the tables. |
| Orchestration.BehindRunsAndReleases | src/main/java/com/helenusdb/evolve/CassandraEvolve.java:160-179 | When the version is below the target, the lock is released whatever the migrations do. The run is `Migrated` exactly when every applicable migration succeeded and was recorded. A migration that returned false gives `Aborted`. A throw or an unrecorded attempt gives that failure. |
| Orchestration.RunAndReleaseOutcome | src/main/java/com/helenusdb/evolve/CassandraEvolve.java:164-178 | With the lock row held, the `try`/`finally` block appends what `process` records and deletes the lock row. The outcome is `Migrated` exactly when every applicable migration succeeded and was recorded, `Aborted` exactly when `process` answered false, and the failure itself when one was raised. |
| Orchestration.RunOrderIsDescending | src/main/java/com/helenusdb/evolve/CassandraEvolve.java:157 | The migrations that run are recorded in non-increasing version order. |
| Orchestration.EmptyHistoryThrowsWithLockHeld | src/main/java/com/helenusdb/evolve/metadata/CassandraMetadataStrategy.java:31-35 | An existing but empty history table makes `migrate` take the lock, then throw, leaving the lock held. |
| Evolve.Added | src/main/java/com/helenusdb/evolve/CassandraEvolve.java:112 | `Set.add` on the registered migrations: the migration joins unless already present. Proved about it: `AddedIsSetInsertion`. |
| Evolve.AddedAll | src/main/java/com/helenusdb/evolve/CassandraEvolve.java:125 | `Set.addAll`: each migration of the collection added in turn. Proved about it: `AddedAllIsUnion`. |
| Evolve.AddedIsSetInsertion | src/main/java/com/helenusdb/evolve/CassandraEvolve.java:110-114 | Registering keeps the set free of duplicates and adds exactly the migration. Registering it again changes nothing. |
| Evolve.AddedAllIsUnion | src/main/java/com/helenusdb/evolve/CassandraEvolve.java:123-127 | Registering a collection adds exactly its members and keeps the set free of duplicates. |
| Evolve.Hold | src/main/java/com/helenusdb/evolve/CassandraEvolve.java:183-200 | The do-while loop makes exactly the transition of `Orchestration.Hold`. It is also `HelenusDbEvolve.hold`. |
| Evolve.Process | src/main/java/com/helenusdb/evolve/CassandraEvolve.java:235-255 | The for-loop with early return makes exactly the transition of `Orchestration.Process`. It is also `HelenusDbEvolve.process`. |
| Evolve.GetCurrentVersion | src/main/java/com/helenusdb/evolve/CassandraEvolve.java:275-283 | Returns `UNINITIALIZED` without a history table, and otherwise the store's answer. |
| Evolve.InitializeMetadata | src/main/java/com/helenusdb/evolve/CassandraEvolve.java:294-298 | Creates the tables and then answers version 0. |
| Evolve.MigrateWith | src/main/java/com/helenusdb/evolve/CassandraEvolve.java:135-180 | The body of `migrate` makes exactly the transition of `Orchestration.Migrate`. |
| Evolve.MigrateLocked | src/main/java/com/helenusdb/evolve/CassandraEvolve.java:146-179 | Everything `migrate` does once it holds the lock makes exactly the transition of `Orchestration.Locked`. |
| Evolve.ResolveVersion | src/main/java/com/helenusdb/evolve/CassandraEvolve.java:146-151 | Reading the current version, and creating the tables on an "uninitialised" answer, makes exactly the transition of `Orchestration.ResolveVersion`. |
| Evolve.RunAndRelease | src/main/java/com/helenusdb/evolve/CassandraEvolve.java:162-178 | The `try`/`finally` block makes exactly the transition of `Orchestration.RunAndRelease`: `process`, then the release whatever `process` did. |
| Evolve.CassandraEvolve.constructor | src/main/java/com/helenusdb/evolve/CassandraEvolve.java:61-76 | A new orchestrator has no migrations and a fresh strategy; the set invariant `Valid` (no migration twice) holds. |
| Evolve.CassandraEvolve.SetConfiguration | src/main/java/com/helenusdb/evolve/CassandraEvolve.java:85-90 | Replaces the strategy with a fresh one, keeps the migrations and returns this object. |
| Evolve.CassandraEvolve.Register | src/main/java/com/helenusdb/evolve/CassandraEvolve.java:110-114 | Adds the migration to the set and returns this object with set semantics: afterwards a migration is registered exactly when it was before or is among those added, and none occurs twice. |
| Evolve.CassandraEvolve.RegisterAll | src/main/java/com/helenusdb/evolve/CassandraEvolve.java:123-127 | Adds every migration of the collection and returns this object with set semantics: afterwards a migration is registered exactly when it was before or is among those added, and none occurs twice. |
| Evolve.CassandraEvolve.Migrate | src/main/java/com/helenusdb/evolve/CassandraEvolve.java:135-180 | Makes exactly the transition of `Orchestration.Migrate` over the registered migrations. |
| Evolve.HelenusDbEvolve.constructor | src/main/java/com/helenusdb/evolve/HelenusDbEvolve.java:35-49 | A new orchestrator has no migrations and a fresh strategy; the set invariant `Valid` holds. |
| Evolve.HelenusDbEvolve.SetConfiguration | src/main/java/com/helenusdb/evolve/HelenusDbEvolve.java:51-55 | Replaces the strategy with a fresh one and keeps the migrations. |
| Evolve.HelenusDbEvolve.Register | src/main/java/com/helenusdb/evolve/HelenusDbEvolve.java:62-66 | Adds the migration to the set and returns this object with set semantics: afterwards a migration is registered exactly when it was before or is among those added, and none occurs twice. |
| Evolve.HelenusDbEvolve.RegisterAll | src/main/java/com/helenusdb/evolve/HelenusDbEvolve.java:68-72 | Adds every migration of the collection and returns this object with set semantics: afterwards a migration is registered exactly when it was before or is among those added, and none occurs twice. |
| Evolve.HelenusDbEvolve.Migrate | src/main/java/com/helenusdb/evolve/HelenusDbEvolve.java:74-119 | Makes exactly the transition of `Orchestration.Migrate` over the registered migrations. |
| Corrected.FixedCurrentVersion | src/main/java/com/helenusdb/evolve/metadata/CassandraMetadataStrategy.java:31-35 | The corrected read of the current version: an empty history is version 0. Proved about it: `FixedEmptyHistoryIsVersionZero`. |
| Corrected.FixedMerge | src/main/java/com/helenusdb/evolve/CassandraEvolve.java:153-157 | The corrected merge: registered then discovered migrations in ascending `compareTo` order. Proved about it: `TargetIsMaximum`, `FixedRunOrderAscending`. |
| Corrected.TargetVersion | src/main/java/com/helenusdb/evolve/CassandraEvolve.java:158 | The corrected target: the version of the last element of the ascending list. Proved about it: `TargetIsMaximum`. |
| Corrected.FixedBody | src/main/java/com/helenusdb/evolve/CassandraEvolve.java:146-174 | The corrected work under the lock: read the version, merge, run when behind. Proved about it: `FixedBodyKeepsLock`. |
| Corrected.FixedLocked | src/main/java/com/helenusdb/evolve/CassandraEvolve.java:146-179 | The corrected locked part: the body, then the release on every path. Proved about it: `FixedAlwaysReleases`. |
| Corrected.FixedMigrate | src/main/java/com/helenusdb/evolve/CassandraEvolve.java:135-180 | The corrected `migrate`: create the tables, take the lock, then the locked part. Proved about it: `FixedProvisionsBeforeLocking`, `CorrectedRunsBoth`. |
| Corrected.TargetIsMaximum | src/main/java/com/helenusdb/evolve/CassandraEvolve.java:157-158 | Sorted in ascending order, the target is the largest version of all migrations. |
| Corrected.FixedRunOrderAscending | src/main/java/com/helenusdb/evolve/CassandraEvolve.java:157 | The migrations that run are recorded oldest first. |
| Corrected.FixedEmptyHistoryIsVersionZero | src/main/java/com/helenusdb/evolve/CassandraEvolve.java:146 | An empty history reads as version 0. |
| Corrected.FixedBodyKeepsLock | src/main/java/com/helenusdb/evolve/CassandraEvolve.java:146-172 | The work done under the lock writes history at most. It leaves the lock row and the tables' existence alone. |
| Corrected.FixedAlwaysReleases | src/main/java/com/helenusdb/evolve/CassandraEvolve.java:160-179 | Once the lock is taken, it is given back on every path. The outcome is the body's outcome. |
| Corrected.FixedProvisionsBeforeLocking | src/main/java/com/helenusdb/evolve/CassandraEvolve.java:135-151 | On a keyspace never provisioned, the tables are created, the lock is taken and freed, and the run starts from 0. It is `Migrated` exactly when every applicable migration up to the largest version succeeded and was recorded. |
| Corrected.MergedScenario | src/main/java/com/helenusdb/evolve/CassandraEvolve.java:154-157 | Versions 1 and 2 sort as 2, 1 as written and as 1, 2 corrected. |
| Corrected.AsWrittenSkipsAndWedges | src/main/java/com/helenusdb/evolve/CassandraEvolve.java:135-180 | Scenario from version 0, with versions 1 and 2 registered: the first run applies only version 1. The second run is up to date and keeps the lock. The third can only wait. |
| Corrected.CorrectedFirstRun | src/main/java/com/helenusdb/evolve/CassandraEvolve.java:135-180 | Corrected, the same first run applies versions 1 then 2 and frees the lock. |
| Corrected.CorrectedRerun | src/main/java/com/helenusdb/evolve/CassandraEvolve.java:135-180 | Corrected, a run after that is up to date and frees the lock. |
| Corrected.CorrectedRunsBoth | src/main/java/com/helenusdb/evolve/CassandraEvolve.java:135-180 | The two corrected runs in sequence. |

## Left out

- `MigrationConfiguration` (keyspace and table names, script locations) is not part of this model. `setConfiguration` is modelled only as replacing the metadata strategy. `getConfiguration` is not modelled.
- `ClasspathMigrationLoader`, `AbstractMigration`, `Metadata` and `MigrationException` are not part of this model:
  - discovery is an input that may fail (`IOException`);
  - `compareTo` is taken to compare versions;
  - `equals` is value equality of the `Migration` datatype;
  - a history record is built from the migration's version, description, script and hash.
- `isApplicable` and `migrate` of other migration kinds are inputs of `migrate`: an `Applicability` and an `Attempt` per position. `ScriptMigration.migrate` is modelled on its own, and its result is not tied to those attempts.
- The CQL text and the driver (`execute`, `prepare`, `ResultSet`) are replaced by the tables they read and write. Three quirks in the text are outside the model:
  - `exists` and `getCurrentVersion` look in the session's keyspace while the other statements use the configured one (CassandraMetadataStrategy.java lines 27, 33, 50 and 75);
  - `getCurrentVersion` interpolates the key unquoted (line 33);
  - `isLocked` reads its `count(*)` column, a `bigint`, with `getInt` (line 106), while `exists` reads the same kind of column with `getLong` (line 28). `IsLockedOp` answers whether the count is positive, as if the read succeeded.
- Transport errors of the driver are not modelled. Neither is the collapse of two history rows with equal (installed_on, version) under upsert.
- The null-row branch of `isLocked` is not modelled. A `count(*)` query always returns one row, so the branch cannot be taken.
- `wasApplied` of each conditional statement is derived from the tables. For the `create table` and history inserts it is an input.
- `Thread.sleep`, interrupts and `System.currentTimeMillis` are inputs:
  - the clock at the lock attempt;
  - the install time and duration of each attempt;
  - a finite sequence of waiting-loop steps.
- Evolve.Hold: the source loops while the lock is held, with no bound. The model's finite sequence of steps can end with the lock still held, and the wait then ends `StillLocked`.
- Real concurrency between clients is not modelled. Another client acts only by moving the lock row while this one sleeps. Lightweight transactions are taken to be atomic.
- The `HashSet` of registered migrations is a duplicate-free sequence in registration order. Java's iteration order is unspecified. It only matters for the relative order of migrations with equal versions, which the stable sort keeps.
- A statement run by `ScriptMigration` does not change the modelled tables. The history and lock tables are written only through the metadata strategy.
- Logging is not modelled.

## Findings

| source | as written | input that shows it | evidently intended | confidence | as-written member | corrected member |
|---|---|---|---|---|---|---|
| src/main/java/com/helenusdb/evolve/CassandraEvolve.java:157-158 | The target `latestVersion` is the last element of a list sorted in reverse order, which is the smallest version. | Migrations 1 and 2 registered on a keyspace at version 0: the target is 1, so version 2 never runs. | The target is the largest version. | not executed | Orchestration.LatestIsMinimum | Corrected.TargetIsMaximum |
| src/main/java/com/helenusdb/evolve/CassandraEvolve.java:157,237 | Migrations run in descending version order. | Any run with two applicable migrations: the newer one runs first. | Migrations run oldest first. | not executed | Orchestration.RunOrderIsDescending | Corrected.FixedRunOrderAscending |
| src/main/java/com/helenusdb/evolve/CassandraEvolve.java:160-179 | `releaseLock` is called only when the current version is below the target, so an up-to-date run keeps the lock. | The second run of the scenario above: `UpToDate`, with the lock row left in place. Every later run only waits. | The lock is released on every path once it is taken. | not executed | Corrected.AsWrittenSkipsAndWedges | Corrected.CorrectedRunsBoth |
| src/main/java/com/helenusdb/evolve/CassandraEvolve.java:146-158 | Exceptions from resolving the version, discovery or an empty list of migrations escape before the `try`, with the lock held. | A loader that throws `IOException` after the lock is taken. | The lock is released on these paths too. | not executed | Orchestration.FailuresBeforeTryKeepLock | Corrected.FixedAlwaysReleases |
| src/main/java/com/helenusdb/evolve/CassandraEvolve.java:138,148-151 | The lock is taken before the tables are created, so on a keyspace never provisioned the lock attempt fails on the missing lock table. | A keyspace with neither table: `migrate` raises at `acquireLock` and creates nothing. | The tables are created (idempotently) before the lock is taken. | not executed | Orchestration.MissingLockTableFailsFirst | Corrected.FixedProvisionsBeforeLocking |
| src/main/java/com/helenusdb/evolve/metadata/CassandraMetadataStrategy.java:31-35 | On an existing but empty history table, `rs.one()` is null and `getCurrentVersion` throws. `migrate` then fails with the lock held. | Both tables exist, with no history row and no lock row. | An empty history counts as version 0. | not executed | Orchestration.EmptyHistoryThrowsWithLockHeld | Corrected.FixedEmptyHistoryIsVersionZero |
