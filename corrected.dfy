/**
 * The orchestrator as its documentation intends it: bring the database up to
 * the newest version, with a lock that keeps two clients from migrating at
 * once and that is given back when this client is done. Beside it, concrete
 * scenarios of the model as written show where the two differ.
 *
 * The corrections: the tables are created (idempotently) before the lock is
 * taken; an empty history counts as version 0; the migrations are sorted in
 * ascending order, so that they run oldest first and the target is the
 * largest version; and the lock, once taken, is released on every path.
 */
module Corrected {
  import opened Wrappers
  import opened Exceptions
  import opened Migrations
  import opened MetadataStore
  import opened Orchestration

  /** The current version, with an empty history read as version 0. */
  function FixedCurrentVersion(s: StoreState): (Result<int, Failure>, StoreState)
  {
    var (c, s1) := GetCurrentVersionOp(s);
    if c == Err(NoCurrentVersionRow) then (Ok(0), s1) else (c, s1)
  }

  /** Registered then discovered migrations, sorted in ascending order. */
  function FixedMerge(registered: seq<Migration>, discovered: seq<Migration>): seq<Migration>
  {
    Sort(registered + discovered, false)
  }

  /** The version of the last migration of the ascending list. */
  function TargetVersion(all: seq<Migration>): int
    requires all != []
  {
    all[|all| - 1].version
  }

  /** Everything between taking and releasing the lock. */
  function FixedBody(registered: seq<Migration>, app: Applicability, env: Env, s: StoreState): (Outcome, StoreState)
  {
    var (c, s1) := FixedCurrentVersion(s);
    if c.Err? then (Raised(c.error), s1)
    else if env.discovered.None? then (Raised(DiscoveryFailed), s1)
    else
      var all := FixedMerge(registered, env.discovered.value);
      if all == [] then (Raised(NoMigrations), s1)
      else if c.value < TargetVersion(all) then
        var (p, s2) := Process(all, 0, c.value, TargetVersion(all), app, env.attempts, s1);
        (if p.Err? then Raised(p.error) else if !p.value then Raised(Aborted) else Migrated, s2)
      else (UpToDate, s1)
  }

  /** The body under the lock, with the release in a `finally` around all of it. */
  function FixedLocked(registered: seq<Migration>, app: Applicability, env: Env, s: StoreState): (Outcome, StoreState)
  {
    var (o, s1) := FixedBody(registered, app, env, s);
    var (rel, s2) := ReleaseLockOp(s1);
    (if rel.Err? then Raised(rel.error) else o, s2)
  }

  /** `migrate` as intended: provision, then lock, then run under the lock. */
  function FixedMigrate(registered: seq<Migration>, app: Applicability, env: Env, s: StoreState): (Outcome, StoreState)
  {
    var (init, s1) := InitializeOp(s, env.metadataCreated, env.lockTableCreated);
    if init.Err? then (Raised(init.error), s1)
    else
      var (acquired, s2) := AcquireLockOp(s1, env.lockedAt);
      match acquired
      case Err(e) => (Raised(e), s2)
      case Ok(got) =>
        if got then FixedLocked(registered, app, env, s2)
        else
          var (h, s3) := Hold(env.ticks, s2);
          match h
          case Err(e) => (Raised(e), s3)
          case Ok(end) => (Waited(end), s3)
  }

  // ---------------------------------------------------------------------------
  // What the corrections achieve
  // ---------------------------------------------------------------------------

  /** The target is the largest version of all migrations. */
  lemma {:induction false} TargetIsMaximum(registered: seq<Migration>, discovered: seq<Migration>)
    requires registered + discovered != []
    ensures FixedMerge(registered, discovered) != []
    ensures TargetVersion(FixedMerge(registered, discovered)) == MaxVersion(registered + discovered)
  {
    var all := registered + discovered;
    assert FixedMerge(registered, discovered) == Sort(all, false);
    SortedEnds(all);
  }

  /** The migrations that run are recorded oldest first. */
  lemma {:induction false} FixedRunOrderAscending(registered: seq<Migration>, discovered: seq<Migration>, from: int, to: int, app: Applicability, attempts: nat -> Attempt)
    ensures var all := FixedMerge(registered, discovered);
            var rs := Records(all, ApplicablePositions(all, 0, from, to, app), attempts);
      forall k, l :: 0 <= k < l < |rs| ==> rs[k].version <= rs[l].version
  {
    RecordsFollowListOrder(FixedMerge(registered, discovered), 0, from, to, app, attempts, false);
  }

  /** An empty history is version 0, not a missing row. */
  lemma {:induction false} FixedEmptyHistoryIsVersionZero(s: StoreState)
    requires s.tables.metadataTable && s.tables.history == []
    ensures FixedCurrentVersion(s).0 == Ok(0)
  {
  }

  /** The body writes history records at most; the lock row and the tables' existence are left alone. */
  lemma {:induction false} FixedBodyKeepsLock(registered: seq<Migration>, app: Applicability, env: Env, s: StoreState)
    ensures var s' := FixedBody(registered, app, env, s).1;
      && s'.tables.lock == s.tables.lock && s'.tables.lockTable == s.tables.lockTable
      && s'.tables.metadataTable == s.tables.metadataTable
  {
    var (c, s1) := FixedCurrentVersion(s);
    if c.Ok? && env.discovered.Some? {
      var all := FixedMerge(registered, env.discovered.value);
      if all != [] && c.value < TargetVersion(all) {
        ProcessOnlyUpdates(all, c.value, TargetVersion(all), app, env.attempts, s1);
      }
    }
  }

  /**
   * Whatever the body does, a run that took the lock gives it back: the lock
   * row is gone at the end and the release reported no failure.
   */
  lemma {:induction false} FixedAlwaysReleases(registered: seq<Migration>, app: Applicability, env: Env, s: StoreState)
    requires s.tables.lockTable && s.tables.lock.Some?
    ensures var (o, s') := FixedLocked(registered, app, env, s);
      && s'.tables.lock.None?
      && s'.tables.lockTable && s'.tables.metadataTable == s.tables.metadataTable
      && o == FixedBody(registered, app, env, s).0
  {
    FixedBodyKeepsLock(registered, app, env, s);
  }

  /**
   * On a keyspace that was never provisioned, the tables are created first
   * and the run goes through: it takes the lock, starts from version 0, and
   * leaves the lock free. It reports success exactly when every migration up
   * to the largest version succeeded and was recorded.
   */
  lemma {:induction false} FixedProvisionsBeforeLocking(registered: seq<Migration>, app: Applicability, env: Env, s: StoreState)
    requires s.tables == Tables(false, false, None, [])
    requires env.metadataCreated && env.lockTableCreated
    requires env.discovered.Some? && registered + env.discovered.value != []
    requires MaxVersion(registered + env.discovered.value) > 0
    ensures var (o, s') := FixedMigrate(registered, app, env, s);
            var all := FixedMerge(registered, env.discovered.value);
            var to := MaxVersion(registered + env.discovered.value);
      && s'.tables.metadataTable && s'.tables.lockTable && s'.tables.lock.None?
      && (o == Migrated <==> forall j :: 0 <= j < |all| && app(all[j], 0, to) ==> Good(env.attempts(j)))
  {
    TargetIsMaximum(registered, env.discovered.value);
    var s1 := InitializeOp(s, true, true).1;
    var s2 := AcquireLockOp(s1, env.lockedAt).1;
    assert s2.tables == Tables(true, true, Some(env.lockedAt), []);
    assert FixedMigrate(registered, app, env, s) == FixedLocked(registered, app, env, s2);
    FixedAlwaysReleases(registered, app, env, s2);
    var all := FixedMerge(registered, env.discovered.value);
    var to := TargetVersion(all);
    var s3 := FixedCurrentVersion(s2).1;
    assert FixedCurrentVersion(s2).0 == Ok(0);
    assert s3.tables.metadataTable;
    ProcessResult(all, 0, to, app, env.attempts, s3);
    var p := Process(all, 0, 0, to, app, env.attempts, s3).0;
    assert FixedBody(registered, app, env, s2).0
      == if p.Err? then Raised(p.error) else if !p.value then Raised(Aborted) else Migrated;
  }

  // ---------------------------------------------------------------------------
  // A concrete run, as written and corrected
  // ---------------------------------------------------------------------------

  const First: Migration := Migration(1, "first", None, None)
  const Second: Migration := Migration(2, "second", None, None)
  /** The record of an earlier run that left the keyspace at version 0. */
  const Baseline: Metadata := Metadata(0, "baseline", None, None, 0, 0, true)

  /** Every attempt succeeds at time 10 and is recorded. */
  function Smooth(i: nat): Attempt
  {
    Attempt(Succeeded, 10, 1, true)
  }

  /** The default applicability of a migration: its version lies in (from, to]. */
  function Default(m: Migration, from: int, to: int): bool
  {
    InRange(m, from, to)
  }

  function ScenarioEnv(): Env
  {
    Env(5, true, true, Some([]), Smooth, [])
  }

  function ScenarioStart(): StoreState
  {
    StoreState(Tables(true, true, None, [Baseline]), false, false, [], 0)
  }

  lemma {:induction false} MergedScenario()
    ensures Merge([First, Second], []) == [Second, First]
    ensures FixedMerge([First, Second], []) == [First, Second]
  {
    assert [First, Second] + [] == [First, Second];
    assert [First, Second][1..] == [Second];
    assert [Second][1..] == [];
    assert Sort([Second], true) == [Second];
    assert Sort([Second], false) == [Second];
    assert Insert(First, [Second], true) == [Second] + Insert(First, [], true);
  }

  /**
   * As written, registering versions 1 and 2 on a keyspace at version 0 runs
   * only version 1 (the target is the smallest version); the next run then
   * finds itself up to date and keeps the lock; the run after that can only
   * wait for a lock nobody will release.
   */
  lemma {:induction false} AsWrittenSkipsAndWedges()
    ensures var (o1, s1) := Migrate([First, Second], Default, ScenarioEnv(), ScenarioStart());
      && o1 == Migrated
      && s1.tables == Tables(true, true, None, [Baseline, RecordOf(First, Smooth(1))])
      && var (o2, s2) := Migrate([First, Second], Default, ScenarioEnv(), s1);
         && o2 == UpToDate
         && s2.tables.lock == Some(5)
         && Migrate([First, Second], Default, ScenarioEnv(), s2).0 == Waited(StillLocked)
  {
    AsWrittenFirstRun();
    var s1 := Migrate([First, Second], Default, ScenarioEnv(), ScenarioStart()).1;
    AsWrittenSecondRun(s1);
    var s2 := Migrate([First, Second], Default, ScenarioEnv(), s1).1;
    AsWrittenThirdRun(s2);
  }

  /** The first run installs version 1 only and gives the lock back. */
  lemma {:induction false} AsWrittenFirstRun()
    ensures var (o1, s1) := Migrate([First, Second], Default, ScenarioEnv(), ScenarioStart());
      && o1 == Migrated
      && s1.tables == Tables(true, true, None, [Baseline, RecordOf(First, Smooth(1))])
  {
    MergedScenario();
    var env := ScenarioEnv();
    var s0 := ScenarioStart();
    var all := [Second, First];
    var s0' := AcquireLockOp(s0, 5).1;
    assert ResolveVersion(s0', env).0 == Ok(0);
    var r1 := RecordOf(First, Smooth(1));
    var sr := ResolveVersion(s0', env).1;
    assert Process(all, 1, 0, 1, Default, Smooth, sr).1.tables.history == [Baseline, r1];
  }

  /** With version 1 installed, the next run finds itself up to date and keeps the lock. */
  lemma {:induction false} AsWrittenSecondRun(s: StoreState)
    requires s.tables == Tables(true, true, None, [Baseline, RecordOf(First, Smooth(1))])
    ensures var (o, s') := Migrate([First, Second], Default, ScenarioEnv(), s);
      o == UpToDate && s'.tables.lock == Some(5)
  {
    MergedScenario();
    var env := ScenarioEnv();
    var s1 := AcquireLockOp(s, 5).1;
    assert Newest(s1.tables.history) == RecordOf(First, Smooth(1));
    assert ResolveVersion(s1, env).0 == Ok(1);
    ResolveFollowsShape(s1, env);
  }

  /** A lock row nobody releases leaves every later run waiting. */
  lemma {:induction false} AsWrittenThirdRun(s: StoreState)
    requires s.tables.lockTable && s.tables.lock == Some(5)
    ensures Migrate([First, Second], Default, ScenarioEnv(), s).0 == Waited(StillLocked)
  {
  }

  /** The history the corrected run leaves behind. */
  function CorrectedHistory(): seq<Metadata>
  {
    [Baseline, RecordOf(First, Smooth(0)), RecordOf(Second, Smooth(1))]
  }

  lemma {:induction false} CorrectedFirstRun()
    ensures var (o, s') := FixedMigrate([First, Second], Default, ScenarioEnv(), ScenarioStart());
      o == Migrated && s'.tables == Tables(true, true, None, CorrectedHistory())
  {
    MergedScenario();
    var env := ScenarioEnv();
    var s0 := ScenarioStart();
    var s1 := InitializeOp(s0, true, true).1;
    assert s1.tables == s0.tables;
    var s2 := AcquireLockOp(s1, 5).1;
    assert s2.tables.lock == Some(5);
    assert FixedCurrentVersion(s2).0 == Ok(0);
    var s3 := FixedCurrentVersion(s2).1;
    var r1 := RecordOf(First, Smooth(0));
    var r2 := RecordOf(Second, Smooth(1));
    var s4 := UpdateOp(s3, r1, true).1;
    assert s4.tables.history == [Baseline, r1];
    var s5 := UpdateOp(s4, r2, true).1;
    assert s5.tables.history == CorrectedHistory();
    assert Process([First, Second], 2, 0, 2, Default, Smooth, s5) == (Ok(true), s5);
    assert Process([First, Second], 1, 0, 2, Default, Smooth, s4) == (Ok(true), s5);
    assert Process([First, Second], 0, 0, 2, Default, Smooth, s3) == (Ok(true), s5);
    assert FixedBody([First, Second], Default, env, s2) == (Migrated, s5);
  }

  lemma {:induction false} CorrectedRerun(s: StoreState)
    requires s.tables == Tables(true, true, None, CorrectedHistory())
    ensures var (o, s') := FixedMigrate([First, Second], Default, ScenarioEnv(), s);
      o == UpToDate && s'.tables == s.tables
  {
    MergedScenario();
    var h := CorrectedHistory();
    assert Newest(h) == h[2] by {
      assert h[1..] == [h[1], h[2]];
      assert [h[1], h[2]][1..] == [h[2]];
    }
  }

  /**
   * Corrected, the same run applies versions 1 and 2 in that order and frees
   * the lock; the next run is up to date and frees the lock too.
   */
  lemma {:induction false} CorrectedRunsBoth()
    ensures var (o1, s1) := FixedMigrate([First, Second], Default, ScenarioEnv(), ScenarioStart());
      && o1 == Migrated
      && s1.tables == Tables(true, true, None, CorrectedHistory())
      && var (o2, s2) := FixedMigrate([First, Second], Default, ScenarioEnv(), s1);
         && o2 == UpToDate
         && s2.tables.lock.None?
  {
    CorrectedFirstRun();
    CorrectedRerun(FixedMigrate([First, Second], Default, ScenarioEnv(), ScenarioStart()).1);
  }
}
