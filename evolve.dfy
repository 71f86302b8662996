/**
 * The two orchestrator classes, `CassandraEvolve` and `HelenusDbEvolve`, and
 * the private helpers they share line for line (`hold`, `process`,
 * `getCurrentVersion`, `initializeMetadata` and the body of `migrate`),
 * written once here. Each method is proved to make exactly the transition
 * that module Orchestration specifies.
 */
module Evolve {
  import opened Wrappers
  import opened Exceptions
  import opened Migrations
  import opened MetadataStore
  import opened Cql
  import opened CassandraMetadata
  import Orchestration

  // ---------------------------------------------------------------------------
  // The registered set
  // ---------------------------------------------------------------------------

  predicate Distinct(s: seq<Migration>)
  {
    forall i, j :: 0 <= i < j < |s| ==> s[i] != s[j]
  }

  /** `Set.add`: the migration joins the set unless it is already there. */
  function Added(registered: seq<Migration>, m: Migration): seq<Migration>
  {
    if m in registered then registered else registered + [m]
  }

  /** `Set.addAll`: each migration of the collection in turn. */
  function AddedAll(registered: seq<Migration>, ms: seq<Migration>): seq<Migration>
    decreases |ms|
  {
    if ms == [] then registered else AddedAll(Added(registered, ms[0]), ms[1..])
  }

  /** Adding keeps the set free of duplicates, adds exactly `m`, and adding again changes nothing. */
  lemma {:induction false} AddedIsSetInsertion(registered: seq<Migration>, m: Migration)
    requires Distinct(registered)
    ensures Distinct(Added(registered, m))
    ensures forall x :: x in Added(registered, m) <==> x in registered || x == m
    ensures Added(Added(registered, m), m) == Added(registered, m)
  {
    if m !in registered {
      var r := registered + [m];
      forall i, j | 0 <= i < j < |r| ensures r[i] != r[j] {
        if j == |registered| {
          assert r[i] == registered[i];
        }
      }
      assert m in r;
    }
  }

  /** Adding a collection adds exactly its members and keeps the set free of duplicates. */
  lemma {:induction false} AddedAllIsUnion(registered: seq<Migration>, ms: seq<Migration>)
    requires Distinct(registered)
    ensures Distinct(AddedAll(registered, ms))
    ensures forall x :: x in AddedAll(registered, ms) <==> x in registered || x in ms
    decreases |ms|
  {
    if ms != [] {
      AddedIsSetInsertion(registered, ms[0]);
      AddedAllIsUnion(Added(registered, ms[0]), ms[1..]);
      assert ms == [ms[0]] + ms[1..];
      forall x ensures x in ms <==> x == ms[0] || x in ms[1..] {
        if x in ms {
          var k :| 0 <= k < |ms| && ms[k] == x;
          if k > 0 {
            assert ms[1..][k - 1] == x;
          }
        }
      }
    }
  }

  // ---------------------------------------------------------------------------
  // The shared steps of `migrate`
  // ---------------------------------------------------------------------------

  /** `hold`: sleep, then poll the lock, while it is held. */
  method Hold(metadata: CassandraMetadataStrategy, session: CqlSession, ticks: seq<Orchestration.Tick>)
    returns (r: Result<Orchestration.HoldEnd, Failure>)
    modifies metadata, session
    ensures (r, metadata.State(session)) == Orchestration.Hold(ticks, old(metadata.State(session)))
    ensures session.executed == old(session.executed)
  {
    ghost var spec := Orchestration.Hold(ticks, metadata.State(session));
    var i := 0;
    while true
      invariant 0 <= i <= |ticks|
      invariant Orchestration.Hold(ticks[i..], metadata.State(session)) == spec
      invariant session.executed == old(session.executed)
      decreases |ticks| - i
    {
      if i == |ticks| {
        return Ok(Orchestration.StillLocked);
      }
      match ticks[i]
      case Interrupt =>
        return Ok(Orchestration.Interrupted);
      case Slept(row) =>
        session.Sleep(row);
      var locked := metadata.IsLocked(session);
      if locked.Err? {
        return Err(locked.error);
      }
      if !locked.value {
        return Ok(Orchestration.Unlocked);
      }
      assert ticks[i..][1..] == ticks[i + 1..];
      i := i + 1;
    }
  }

  /**
   * `process`: runs each applicable migration of the list in order and
   * records it, stopping at the first one that fails.
   */
  method Process(metadata: CassandraMetadataStrategy, session: CqlSession, all: seq<Migration>, from: int, to: int,
                 app: Applicability, attempts: nat -> Orchestration.Attempt)
    returns (r: Result<bool, Failure>)
    modifies metadata, session
    ensures (r, metadata.State(session)) == Orchestration.Process(all, 0, from, to, app, attempts, old(metadata.State(session)))
    ensures session.executed == old(session.executed)
  {
    ghost var spec := Orchestration.Process(all, 0, from, to, app, attempts, metadata.State(session));
    for i := 0 to |all|
      invariant Orchestration.Process(all, i, from, to, app, attempts, metadata.State(session)) == spec
      invariant session.executed == old(session.executed)
    {
      var migration := all[i];
      if app(migration, from, to) {
        var attempt := attempts(i);
        if attempt.result == RunResult.Threw {
          return Err(MigrationThrew(migration.version));
        }
        var updated := metadata.Update(session, Orchestration.RecordOf(migration, attempt), attempt.recorded);
        if updated.Err? {
          return Err(updated.error);
        }
        if attempt.result == Failed {
          return Ok(false);
        }
      }
    }
    return Ok(true);
  }

  /** `getCurrentVersion`: `UNINITIALIZED` when the history table does not exist. */
  method GetCurrentVersion(metadata: CassandraMetadataStrategy, session: CqlSession) returns (r: Result<int, Failure>)
    modifies metadata
    ensures (r, metadata.State(session)) == Orchestration.CurrentVersion(old(metadata.State(session)))
  {
    var found := metadata.Exists(session);
    if !found {
      return Ok(Orchestration.Uninitialized);
    }
    r := metadata.GetCurrentVersion(session);
  }

  /** `initializeMetadata`: creates the tables; the current version is then 0. */
  method InitializeMetadata(metadata: CassandraMetadataStrategy, session: CqlSession, env: Orchestration.Env)
    returns (r: Result<int, Failure>)
    modifies metadata, session
    ensures (r, metadata.State(session)) == Orchestration.InitializeMetadata(old(metadata.State(session)), env)
    ensures session.executed == old(session.executed)
  {
    var created := metadata.Initialize(session, env.metadataCreated, env.lockTableCreated);
    if created.Err? {
      return Err(created.error);
    }
    r := Ok(0);
  }

  /** The body of `migrate`, common to both orchestrator classes. */
  method MigrateWith(metadata: CassandraMetadataStrategy, session: CqlSession, registered: seq<Migration>,
                     app: Applicability, env: Orchestration.Env)
    returns (outcome: Orchestration.Outcome)
    modifies metadata, session
    ensures (outcome, metadata.State(session)) == Orchestration.Migrate(registered, app, env, old(metadata.State(session)))
    ensures session.executed == old(session.executed)
  {
    var acquired := metadata.AcquireLock(session, env.lockedAt);
    if acquired.Err? {
      return Orchestration.Raised(acquired.error);
    }
    if !acquired.value {
      var held := Hold(metadata, session, env.ticks);
      if held.Err? {
        return Orchestration.Raised(held.error);
      }
      return Orchestration.Waited(held.value);
    }
    outcome := MigrateLocked(metadata, session, registered, app, env);
  }

  /** What the body of `migrate` does once `acquireLock` answered true. */
  method MigrateLocked(metadata: CassandraMetadataStrategy, session: CqlSession, registered: seq<Migration>,
                       app: Applicability, env: Orchestration.Env)
    returns (outcome: Orchestration.Outcome)
    modifies metadata, session
    ensures (outcome, metadata.State(session)) == Orchestration.Locked(registered, app, env, old(metadata.State(session)))
    ensures session.executed == old(session.executed)
  {
    var current := ResolveVersion(metadata, session, env);
    if current.Err? {
      return Orchestration.Raised(current.error);
    }
    var currentVersion := current.value;
    if env.discovered.None? {
      return Orchestration.Raised(DiscoveryFailed);
    }
    var allMigrations := Orchestration.Merge(registered, env.discovered.value);
    if allMigrations == [] {
      return Orchestration.Raised(NoMigrations);
    }
    var latestVersion := allMigrations[|allMigrations| - 1].version;
    if currentVersion < latestVersion {
      outcome := RunAndRelease(metadata, session, allMigrations, currentVersion, latestVersion, app, env);
      return;
    }
    return Orchestration.UpToDate;
  }

  /** The current version, initialising the store when it reads `UNINITIALIZED`. */
  method ResolveVersion(metadata: CassandraMetadataStrategy, session: CqlSession, env: Orchestration.Env)
    returns (r: Result<int, Failure>)
    modifies metadata, session
    ensures (r, metadata.State(session)) == Orchestration.ResolveVersion(old(metadata.State(session)), env)
    ensures session.executed == old(session.executed)
  {
    r := GetCurrentVersion(metadata, session);
    if r == Ok(Orchestration.Uninitialized) {
      r := InitializeMetadata(metadata, session, env);
    }
  }

  /** The `try { process ... } finally { releaseLock }` block. */
  method RunAndRelease(metadata: CassandraMetadataStrategy, session: CqlSession, all: seq<Migration>, from: int, to: int,
                       app: Applicability, env: Orchestration.Env)
    returns (outcome: Orchestration.Outcome)
    modifies metadata, session
    ensures (outcome, metadata.State(session)) == Orchestration.RunAndRelease(all, from, to, app, env, old(metadata.State(session)))
    ensures session.executed == old(session.executed)
  {
    var processed := Process(metadata, session, all, from, to, app, env.attempts);
    // finally
    var released := metadata.ReleaseLock(session);
    if released.Err? {
      return Orchestration.Raised(released.error);
    }
    if processed.Err? {
      return Orchestration.Raised(processed.error);
    }
    if !processed.value {
      return Orchestration.Raised(Aborted);
    }
    return Orchestration.Migrated;
  }

  // ---------------------------------------------------------------------------
  // The orchestrator classes
  // ---------------------------------------------------------------------------

  class CassandraEvolve {
    /** The registered migrations (a `HashSet`), in the order they were first added. */
    var migrations: seq<Migration>
    /** The metadata strategy made by the last `setConfiguration`. */
    var metadata: CassandraMetadataStrategy

    /** The registered migrations form a set: none occurs twice. */
    predicate Valid()
      reads this
    {
      Distinct(migrations)
    }

    constructor ()
      ensures Valid() && migrations == []
      ensures fresh(metadata) && metadata.calls == [] && metadata.prepares == 0
      ensures !metadata.updateStatement && !metadata.lockCheckStatement
    {
      migrations := [];
      metadata := new CassandraMetadataStrategy();
    }

    /** `setConfiguration`: a new metadata strategy, with nothing prepared yet; returns this object. */
    method SetConfiguration() returns (self: CassandraEvolve)
      requires Valid()
      modifies this
      ensures Valid() && self == this && migrations == old(migrations)
      ensures fresh(metadata) && metadata.calls == [] && metadata.prepares == 0
      ensures !metadata.updateStatement && !metadata.lockCheckStatement
    {
      metadata := new CassandraMetadataStrategy();
      self := this;
    }

    method Register(migration: Migration) returns (self: CassandraEvolve)
      requires Valid()
      modifies this
      ensures Valid() && self == this && metadata == old(metadata)
      ensures migrations == Added(old(migrations), migration)
      ensures forall x :: x in migrations <==> x in old(migrations) || x == migration
    {
      AddedIsSetInsertion(migrations, migration);
      migrations := Added(migrations, migration);
      self := this;
    }

    method RegisterAll(ms: seq<Migration>) returns (self: CassandraEvolve)
      requires Valid()
      modifies this
      ensures Valid() && self == this && metadata == old(metadata)
      ensures migrations == AddedAll(old(migrations), ms)
      ensures forall x :: x in migrations <==> x in old(migrations) || x in ms
    {
      AddedAllIsUnion(migrations, ms);
      migrations := AddedAll(migrations, ms);
      self := this;
    }

    /** `migrate(session)`, with each migration's `isApplicable` as `app` and the environment's answers as `env`. */
    method Migrate(session: CqlSession, app: Applicability, env: Orchestration.Env) returns (outcome: Orchestration.Outcome)
      modifies metadata, session
      ensures (outcome, metadata.State(session)) == Orchestration.Migrate(migrations, app, env, old(metadata.State(session)))
      ensures session.executed == old(session.executed)
    {
      outcome := MigrateWith(metadata, session, migrations, app, env);
    }
  }

  class HelenusDbEvolve {
    /** The registered migrations (a `HashSet`), in the order they were first added. */
    var migrations: seq<Migration>
    /** The metadata strategy made by the last `setConfiguration`. */
    var metadata: CassandraMetadataStrategy

    /** The registered migrations form a set: none occurs twice. */
    predicate Valid()
      reads this
    {
      Distinct(migrations)
    }

    constructor ()
      ensures Valid() && migrations == []
      ensures fresh(metadata) && metadata.calls == [] && metadata.prepares == 0
      ensures !metadata.updateStatement && !metadata.lockCheckStatement
    {
      migrations := [];
      metadata := new CassandraMetadataStrategy();
    }

    /** `setConfiguration`: a new metadata strategy, with nothing prepared yet (returns nothing here). */
    method SetConfiguration()
      requires Valid()
      modifies this
      ensures Valid() && migrations == old(migrations)
      ensures fresh(metadata) && metadata.calls == [] && metadata.prepares == 0
      ensures !metadata.updateStatement && !metadata.lockCheckStatement
    {
      metadata := new CassandraMetadataStrategy();
    }

    method Register(migration: Migration) returns (self: HelenusDbEvolve)
      requires Valid()
      modifies this
      ensures Valid() && self == this && metadata == old(metadata)
      ensures migrations == Added(old(migrations), migration)
      ensures forall x :: x in migrations <==> x in old(migrations) || x == migration
    {
      AddedIsSetInsertion(migrations, migration);
      migrations := Added(migrations, migration);
      self := this;
    }

    method RegisterAll(ms: seq<Migration>) returns (self: HelenusDbEvolve)
      requires Valid()
      modifies this
      ensures Valid() && self == this && metadata == old(metadata)
      ensures migrations == AddedAll(old(migrations), ms)
      ensures forall x :: x in migrations <==> x in old(migrations) || x in ms
    {
      AddedAllIsUnion(migrations, ms);
      migrations := AddedAll(migrations, ms);
      self := this;
    }

    /** `migrate(session)`: the same steps as `CassandraEvolve.migrate`. */
    method Migrate(session: CqlSession, app: Applicability, env: Orchestration.Env) returns (outcome: Orchestration.Outcome)
      modifies metadata, session
      ensures (outcome, metadata.State(session)) == Orchestration.Migrate(migrations, app, env, old(metadata.State(session)))
      ensures session.executed == old(session.executed)
    {
      outcome := MigrateWith(metadata, session, migrations, app, env);
    }
  }
}
