/**
 * What one call of `migrate(session)` does, as a function of the store state
 * and of what the environment answers: the lock is tried (or else waited on),
 * the current version resolved, registered and discovered migrations merged
 * and sorted, the applicable ones run one by one with one history record per
 * attempt, and the lock released in a `finally`. Both orchestrator classes
 * (`CassandraEvolve`, `HelenusDbEvolve`) are proved to do exactly this.
 */
module Orchestration {
  import opened Wrappers
  import opened Exceptions
  import opened Migrations
  import opened MetadataStore

  /** `UNINITIALIZED`: the version that stands for "no history table yet". */
  const Uninitialized: int := -1

  /**
   * What happened when one migration was attempted: its `migrate` outcome, the
   * install time and duration that go into its record, and whether the driver
   * reports the history insert as applied.
   */
  datatype Attempt = Attempt(result: RunResult, installedAt: int, executionTime: int, recorded: bool)

  /** One sleep of the waiting loop: interrupted, or slept while other clients left the lock row as given. */
  datatype Tick = Interrupt | Slept(lockRow: Option<int>)

  /**
   * Everything `migrate` learns from outside the store state: the clock when it
   * takes the lock, whether each `create table` is reported applied, what the
   * script loader returns (None: it threw IOException), the attempt at each
   * position of the sorted list, and the course of the wait.
   */
  datatype Env = Env(
    lockedAt: int,
    metadataCreated: bool,
    lockTableCreated: bool,
    discovered: Option<seq<Migration>>,
    attempts: nat -> Attempt,
    ticks: seq<Tick>)

  /**
   * How the wait ended: the lock row was gone, the thread was interrupted, or
   * the modelled course of the wait ended with the lock still held (the loop
   * of the source would go on polling).
   */
  datatype HoldEnd = Unlocked | Interrupted | StillLocked

  /**
   * How `migrate` ended. The first three are normal returns: after waiting for
   * another client, with nothing to do, or after running migrations.
   */
  datatype Outcome = Waited(end: HoldEnd) | UpToDate | Migrated | Raised(failure: Failure)

  /** `new Metadata(migration, executionTime, wasSuccessful)`. */
  function RecordOf(m: Migration, a: Attempt): Metadata
  {
    Metadata(m.version, m.description, m.script, m.hash, a.installedAt, a.executionTime, a.result == Succeeded)
  }

  predicate Prefix(s: StoreState, s': StoreState)
  {
    |s.calls| <= |s'.calls| && s'.calls[..|s.calls|] == s.calls
  }

  /** The store calls made between two states. */
  function NewCalls(s: StoreState, s': StoreState): seq<Call>
    requires Prefix(s, s')
  {
    s'.calls[|s.calls|..]
  }

  predicate OnlyPolls(t: seq<Call>)
  {
    forall k :: 0 <= k < |t| ==> t[k] == IsLockedCall
  }

  predicate OnlyUpdates(t: seq<Call>)
  {
    forall k :: 0 <= k < |t| ==> t[k].UpdateCall?
  }

  // ---------------------------------------------------------------------------
  // The steps of `migrate`
  // ---------------------------------------------------------------------------

  /** `hold`: sleep, then poll `isLocked`, while it answers true. */
  function Hold(ticks: seq<Tick>, s: StoreState): (Result<HoldEnd, Failure>, StoreState)
    decreases |ticks|
  {
    if ticks == [] then (Ok(StillLocked), s)
    else match ticks[0]
      case Interrupt => (Ok(Interrupted), s)
      case Slept(row) =>
        var (r, s1) := IsLockedOp(s.(tables := OtherClients(s.tables, row)));
        if r.Err? then (Err(r.error), s1)
        else if !r.value then (Ok(Unlocked), s1)
        else Hold(ticks[1..], s1)
  }

  /**
   * `process`, from position `i` of the list on: each applicable migration is
   * run and recorded; a failure ends the loop with false.
   */
  function Process(ms: seq<Migration>, i: nat, from: int, to: int, app: Applicability, attempts: nat -> Attempt, s: StoreState)
    : (Result<bool, Failure>, StoreState)
    requires i <= |ms|
    decreases |ms| - i
  {
    if i == |ms| then (Ok(true), s)
    else if !app(ms[i], from, to) then Process(ms, i + 1, from, to, app, attempts, s)
    else
      var a := attempts(i);
      if a.result == RunResult.Threw then (Err(MigrationThrew(ms[i].version)), s)
      else
        var (u, s1) := UpdateOp(s, RecordOf(ms[i], a), a.recorded);
        if u.Err? then (Err(u.error), s1)
        else if a.result == Failed then (Ok(false), s1)
        else Process(ms, i + 1, from, to, app, attempts, s1)
  }

  /** The private `getCurrentVersion`: `UNINITIALIZED` when there is no history table. */
  function CurrentVersion(s: StoreState): (Result<int, Failure>, StoreState)
  {
    var (found, s1) := ExistsOp(s);
    if !found then (Ok(Uninitialized), s1) else GetCurrentVersionOp(s1)
  }

  /** `initializeMetadata`: creates the tables, then the current version is 0. */
  function InitializeMetadata(s: StoreState, env: Env): (Result<int, Failure>, StoreState)
  {
    var (r, s1) := InitializeOp(s, env.metadataCreated, env.lockTableCreated);
    if r.Err? then (Err(r.error), s1) else (Ok(0), s1)
  }

  /** The current version `migrate` goes on with, initialising the store when it reads `UNINITIALIZED`. */
  function ResolveVersion(s: StoreState, env: Env): (Result<int, Failure>, StoreState)
  {
    var (c, s1) := CurrentVersion(s);
    if c.Ok? && c.value == Uninitialized then InitializeMetadata(s1, env) else (c, s1)
  }

  /** Registered then discovered migrations, duplicates kept, sorted by `Collections.reverseOrder()`. */
  function Merge(registered: seq<Migration>, discovered: seq<Migration>): seq<Migration>
  {
    Sort(registered + discovered, true)
  }

  /** `allMigrations.get(allMigrations.size() - 1).getVersion()`. */
  function LatestVersion(all: seq<Migration>): int
    requires all != []
  {
    all[|all| - 1].version
  }

  /** The `try { process ... } finally { releaseLock }` block. */
  function RunAndRelease(all: seq<Migration>, from: int, to: int, app: Applicability, env: Env, s: StoreState)
    : (Outcome, StoreState)
  {
    var (p, s1) := Process(all, 0, from, to, app, env.attempts, s);
    var (rel, s2) := ReleaseLockOp(s1);
    var outcome :=
      if rel.Err? then Raised(rel.error)
      else if p.Err? then Raised(p.error)
      else if !p.value then Raised(Aborted)
      else Migrated;
    (outcome, s2)
  }

  /** Everything `migrate` does once it holds the lock. */
  function Locked(registered: seq<Migration>, app: Applicability, env: Env, s: StoreState): (Outcome, StoreState)
  {
    var (c, s1) := ResolveVersion(s, env);
    if c.Err? then (Raised(c.error), s1)
    else if env.discovered.None? then (Raised(DiscoveryFailed), s1)
    else
      var all := Merge(registered, env.discovered.value);
      if all == [] then (Raised(NoMigrations), s1)
      else if c.value < LatestVersion(all) then RunAndRelease(all, c.value, LatestVersion(all), app, env, s1)
      else (UpToDate, s1)
  }

  /** `migrate(session)`. */
  function Migrate(registered: seq<Migration>, app: Applicability, env: Env, s: StoreState): (Outcome, StoreState)
  {
    var (acquired, s1) := AcquireLockOp(s, env.lockedAt);
    if acquired.Err? then (Raised(acquired.error), s1)
    else if !acquired.value then
      var (h, s2) := Hold(env.ticks, s1);
      (if h.Err? then Raised(h.error) else Waited(h.value), s2)
    else Locked(registered, app, env, s1)
  }

  // ---------------------------------------------------------------------------
  // Waiting
  // ---------------------------------------------------------------------------

  /**
   * `hold` only polls `isLocked`, and at least once unless the first sleep is
   * interrupted; it writes no table (only other clients move the lock row).
   * It ends with `Unlocked` only when its last poll saw no lock row.
   */
  lemma {:induction false} HoldOnlyPolls(ticks: seq<Tick>, s: StoreState)
    ensures var (r, s') := Hold(ticks, s);
      && Prefix(s, s') && OnlyPolls(NewCalls(s, s'))
      && s'.tables.metadataTable == s.tables.metadataTable
      && s'.tables.lockTable == s.tables.lockTable
      && s'.tables.history == s.tables.history
      && s'.updatePrepared == s.updatePrepared
      && (NewCalls(s, s') == [] <==> ticks == [] || ticks[0].Interrupt?)
      && (r.Err? <==> !s.tables.lockTable && ticks != [] && ticks[0].Slept?)
      && (r == Ok(Unlocked) ==> s'.tables.lock.None? && exists k :: 0 <= k < |ticks| && ticks[k] == Slept(None))
    decreases |ticks|
  {
    if ticks != [] && ticks[0].Slept? {
      var (r, s1) := IsLockedOp(s.(tables := OtherClients(s.tables, ticks[0].lockRow)));
      assert s1.calls == s.calls + [IsLockedCall];
      if r == Ok(false) {
        assert ticks[0] == Slept(None);
      }
      if r.Ok? && r.value {
        HoldOnlyPolls(ticks[1..], s1);
        if Hold(ticks[1..], s1).0 == Ok(Unlocked) {
          var k :| 0 <= k < |ticks[1..]| && ticks[1..][k] == Slept(None);
          assert ticks[k + 1] == Slept(None);
        }
        var s' := Hold(ticks[1..], s1).1;
        assert s'.calls == s.calls + [IsLockedCall] + NewCalls(s1, s') by {
          assert s'.calls == s1.calls + NewCalls(s1, s');
        }
        assert NewCalls(s, s') == [IsLockedCall] + NewCalls(s1, s');
      }
    }
  }

  // ---------------------------------------------------------------------------
  // Running the migrations
  // ---------------------------------------------------------------------------

  /** The positions from `i` on whose migration `isApplicable(from, to)` admits, in list order. */
  function ApplicablePositions(ms: seq<Migration>, i: nat, from: int, to: int, app: Applicability): (r: seq<nat>)
    requires i <= |ms|
    ensures forall k :: 0 <= k < |r| ==> i <= r[k] < |ms| && app(ms[r[k]], from, to)
    decreases |ms| - i
  {
    if i == |ms| then []
    else if app(ms[i], from, to) then [i] + ApplicablePositions(ms, i + 1, from, to, app)
    else ApplicablePositions(ms, i + 1, from, to, app)
  }

  predicate Increasing(r: seq<nat>)
  {
    forall k, l :: 0 <= k < l < |r| ==> r[k] < r[l]
  }

  /** The applicable positions come in increasing order. */
  lemma {:induction false} ApplicablePositionsIncrease(ms: seq<Migration>, i: nat, from: int, to: int, app: Applicability)
    requires i <= |ms|
    ensures Increasing(ApplicablePositions(ms, i, from, to, app))
    decreases |ms| - i
  {
    if i < |ms| {
      ApplicablePositionsIncrease(ms, i + 1, from, to, app);
      var rest := ApplicablePositions(ms, i + 1, from, to, app);
      if app(ms[i], from, to) {
        var r := [i] + rest;
        assert ApplicablePositions(ms, i, from, to, app) == r;
        forall k, l | 0 <= k < l < |r| ensures r[k] < r[l] {
          assert r[l] == rest[l - 1];
          if k > 0 {
            assert r[k] == rest[k - 1];
          }
        }
      }
    }
  }

  /** Every applicable position from `i` on is among the applicable positions. */
  lemma {:induction false} ApplicablePositionsComplete(ms: seq<Migration>, i: nat, from: int, to: int, app: Applicability, j: nat)
    requires i <= j < |ms| && app(ms[j], from, to)
    ensures j in ApplicablePositions(ms, i, from, to, app)
    decreases |ms| - i
  {
    if i < j {
      ApplicablePositionsComplete(ms, i + 1, from, to, app, j);
    }
  }

  /** An attempt that lets the loop go on: the migration succeeded and its record was written. */
  predicate Good(a: Attempt)
  {
    a.result == Succeeded && a.recorded
  }

  /** The index in `ps` of the first attempt that is not good, or `|ps|` if all are. */
  function FirstBad(ps: seq<nat>, attempts: nat -> Attempt): (n: nat)
    ensures n <= |ps|
    ensures forall k :: 0 <= k < n ==> Good(attempts(ps[k]))
    ensures n < |ps| ==> !Good(attempts(ps[n]))
  {
    if ps == [] then 0
    else if !Good(attempts(ps[0])) then 0
    else 1 + FirstBad(ps[1..], attempts)
  }

  /** The records that attempts at the given positions produce. */
  function Records(ms: seq<Migration>, ps: seq<nat>, attempts: nat -> Attempt): (r: seq<Metadata>)
    requires forall k :: 0 <= k < |ps| ==> ps[k] < |ms|
    ensures |r| == |ps|
  {
    seq(|ps|, k requires 0 <= k < |ps| => RecordOf(ms[ps[k]], attempts(ps[k])))
  }

  function UpdateCalls(rs: seq<Metadata>): (t: seq<Call>)
    ensures |t| == |rs|
  {
    seq(|rs|, k requires 0 <= k < |rs| => UpdateCall(rs[k]))
  }

  /**
   * What `process` is meant to do, stated over the applicable positions and
   * the first one that is not good: the result, how many applicable
   * migrations reached `update`, and how many records were written.
   */
  datatype Expectation = Expectation(result: Result<bool, Failure>, updated: nat, appended: nat)

  function Expected(ms: seq<Migration>, i: nat, from: int, to: int, app: Applicability, attempts: nat -> Attempt): (e: Expectation)
    requires i <= |ms|
    ensures e.appended <= e.updated <= |ApplicablePositions(ms, i, from, to, app)|
  {
    var ps := ApplicablePositions(ms, i, from, to, app);
    var n := FirstBad(ps, attempts);
    if n == |ps| then Expectation(Ok(true), n, n)
    else
      var a := attempts(ps[n]);
      if a.result == RunResult.Threw then Expectation(Err(MigrationThrew(ms[ps[n]].version)), n, n)
      else if !a.recorded then Expectation(Err(UpdateFailed), n + 1, n)
      else Expectation(Ok(false), n + 1, n + 1)
  }

  /**
   * `process` from position `i` on does what `Expected` says: its result,
   * the history grown by the records of the first `appended` applicable
   * positions, one `update` call for each of the first `updated`, and the
   * lock row and the tables' existence untouched.
   */
  predicate MeetsExpectation(ms: seq<Migration>, i: nat, from: int, to: int, app: Applicability, attempts: nat -> Attempt, s: StoreState)
    requires i <= |ms|
  {
    var res := Process(ms, i, from, to, app, attempts, s);
    var rs := Records(ms, ApplicablePositions(ms, i, from, to, app), attempts);
    var e := Expected(ms, i, from, to, app, attempts);
    && res.0 == e.result
    && res.1.tables == s.tables.(history := s.tables.history + rs[..e.appended])
    && Prefix(s, res.1)
    && NewCalls(s, res.1) == UpdateCalls(rs[..e.updated])
    && res.1.lockCheckPrepared == s.lockCheckPrepared
  }

  /** After a good attempt, the expectation from `i` is the one from `i + 1` shifted by one record. */
  lemma {:induction false} ExpectedAfterGood(ms: seq<Migration>, i: nat, from: int, to: int, app: Applicability, attempts: nat -> Attempt)
    requires i < |ms| && app(ms[i], from, to) && Good(attempts(i))
    ensures var e' := Expected(ms, i + 1, from, to, app, attempts);
      Expected(ms, i, from, to, app, attempts) == Expectation(e'.result, e'.updated + 1, e'.appended + 1)
  {
    var rest := ApplicablePositions(ms, i + 1, from, to, app);
    var ps := ApplicablePositions(ms, i, from, to, app);
    assert ps == [i] + rest;
    assert ps[1..] == rest;
    var n' := FirstBad(rest, attempts);
    assert FirstBad(ps, attempts) == 1 + n';
    if n' < |rest| {
      var j := rest[n'];
      assert ps[1 + n'] == j;
      assert Expected(ms, i, from, to, app, attempts).result == Expected(ms, i + 1, from, to, app, attempts).result;
    } else {
      assert 1 + n' == |ps|;
    }
  }

  lemma {:induction false} RecordsAfterApplicable(ms: seq<Migration>, i: nat, from: int, to: int, app: Applicability, attempts: nat -> Attempt)
    requires i < |ms| && app(ms[i], from, to)
    ensures Records(ms, ApplicablePositions(ms, i, from, to, app), attempts)
      == [RecordOf(ms[i], attempts(i))] + Records(ms, ApplicablePositions(ms, i + 1, from, to, app), attempts)
  {
    var rest := ApplicablePositions(ms, i + 1, from, to, app);
    var ps := ApplicablePositions(ms, i, from, to, app);
    assert ps == [i] + rest;
  }

  /** One good record in front: the history and the calls of the rest of the run shift by one. */
  lemma {:induction false} ShiftByOneRecord(s: StoreState, s1: StoreState, s': StoreState, rec: Metadata, rs: seq<Metadata>, e: Expectation)
    requires s1.tables == s.tables.(history := s.tables.history + [rec])
    requires s1.calls == s.calls + [UpdateCall(rec)] && s1.lockCheckPrepared == s.lockCheckPrepared
    requires e.appended <= e.updated <= |rs|
    requires s'.tables == s1.tables.(history := s1.tables.history + rs[..e.appended])
    requires Prefix(s1, s') && NewCalls(s1, s') == UpdateCalls(rs[..e.updated])
    requires s'.lockCheckPrepared == s1.lockCheckPrepared
    ensures s'.tables == s.tables.(history := s.tables.history + ([rec] + rs)[..e.appended + 1])
    ensures Prefix(s, s') && NewCalls(s, s') == UpdateCalls(([rec] + rs)[..e.updated + 1])
    ensures s'.lockCheckPrepared == s.lockCheckPrepared
  {
    assert ([rec] + rs)[..e.appended + 1] == [rec] + rs[..e.appended];
    assert ([rec] + rs)[..e.updated + 1] == [rec] + rs[..e.updated];
    assert UpdateCalls([rec] + rs[..e.updated]) == [UpdateCall(rec)] + UpdateCalls(rs[..e.updated]);
    assert s'.calls == s1.calls + NewCalls(s1, s');
  }

  /** A good attempt writes its record and `process` goes on with the next position. */
  lemma {:induction false} ProcessAfterGood(ms: seq<Migration>, i: nat, from: int, to: int, app: Applicability, attempts: nat -> Attempt, s: StoreState)
    requires i < |ms| && app(ms[i], from, to) && Good(attempts(i))
    requires s.tables.metadataTable
    ensures var rec := RecordOf(ms[i], attempts(i));
            var s1 := UpdateOp(s, rec, true).1;
      && Process(ms, i, from, to, app, attempts, s) == Process(ms, i + 1, from, to, app, attempts, s1)
      && s1.tables == s.tables.(history := s.tables.history + [rec])
      && s1.calls == s.calls + [UpdateCall(rec)]
      && s1.lockCheckPrepared == s.lockCheckPrepared
  {
  }

  /** An applicable migration that succeeds and is recorded lets `process` go on with the next position. */
  lemma {:induction false} ProcessGoodStep(ms: seq<Migration>, i: nat, from: int, to: int, app: Applicability, attempts: nat -> Attempt, s: StoreState)
    requires i < |ms| && app(ms[i], from, to) && Good(attempts(i))
    requires s.tables.metadataTable
    requires MeetsExpectation(ms, i + 1, from, to, app, attempts, UpdateOp(s, RecordOf(ms[i], attempts(i)), true).1)
    ensures MeetsExpectation(ms, i, from, to, app, attempts, s)
  {
    var rec := RecordOf(ms[i], attempts(i));
    var rs := Records(ms, ApplicablePositions(ms, i + 1, from, to, app), attempts);
    var s1 := UpdateOp(s, rec, true).1;
    var e' := Expected(ms, i + 1, from, to, app, attempts);
    var r1 := Process(ms, i + 1, from, to, app, attempts, s1);
    assert Expected(ms, i, from, to, app, attempts) == Expectation(e'.result, e'.updated + 1, e'.appended + 1) by {
      ExpectedAfterGood(ms, i, from, to, app, attempts);
    }
    assert Records(ms, ApplicablePositions(ms, i, from, to, app), attempts) == [rec] + rs by {
      RecordsAfterApplicable(ms, i, from, to, app, attempts);
    }
    assert Process(ms, i, from, to, app, attempts, s) == r1
      && s1.tables == s.tables.(history := s.tables.history + [rec])
      && s1.calls == s.calls + [UpdateCall(rec)]
      && s1.lockCheckPrepared == s.lockCheckPrepared by {
      ProcessAfterGood(ms, i, from, to, app, attempts, s);
    }
    ShiftByOneRecord(s, s1, r1.1, rec, rs, e');
  }

  /** A migration that is not applicable is passed over. */
  lemma {:induction false} ProcessSkipStep(ms: seq<Migration>, i: nat, from: int, to: int, app: Applicability, attempts: nat -> Attempt, s: StoreState)
    requires i < |ms| && !app(ms[i], from, to)
    requires MeetsExpectation(ms, i + 1, from, to, app, attempts, s)
    ensures MeetsExpectation(ms, i, from, to, app, attempts, s)
  {
    assert ApplicablePositions(ms, i, from, to, app) == ApplicablePositions(ms, i + 1, from, to, app);
    assert Process(ms, i, from, to, app, attempts, s) == Process(ms, i + 1, from, to, app, attempts, s);
  }

  /** An applicable migration that is not good ends `process` at once. */
  lemma {:induction false} ProcessBadStep(ms: seq<Migration>, i: nat, from: int, to: int, app: Applicability, attempts: nat -> Attempt, s: StoreState)
    requires i < |ms| && app(ms[i], from, to) && !Good(attempts(i))
    requires s.tables.metadataTable
    ensures MeetsExpectation(ms, i, from, to, app, attempts, s)
  {
    var rest := ApplicablePositions(ms, i + 1, from, to, app);
    var ps := ApplicablePositions(ms, i, from, to, app);
    assert ps == [i] + rest;
    var rec := RecordOf(ms[i], attempts(i));
    assert FirstBad(ps, attempts) == 0;
    assert Records(ms, ps, attempts)[..1] == [rec];
    assert Records(ms, ps, attempts)[..0] == [];
    assert UpdateCalls([rec]) == [UpdateCall(rec)];
  }

  /**
   * `process` attempts exactly the applicable migrations, in list order, up to
   * and including the first one that fails, throws or cannot be recorded; it
   * calls `update` once per attempt that returned, with a record whose
   * success flag is the outcome of `migrate`, and appends those records to
   * the history; it returns true exactly when every applicable migration
   * succeeded. The lock row and the tables' existence are not touched.
   */
  lemma {:induction false} ProcessMeetsExpectation(ms: seq<Migration>, i: nat, from: int, to: int, app: Applicability, attempts: nat -> Attempt, s: StoreState)
    requires i <= |ms|
    requires s.tables.metadataTable
    ensures MeetsExpectation(ms, i, from, to, app, attempts, s)
    decreases |ms| - i
  {
    if i == |ms| {
      assert ApplicablePositions(ms, i, from, to, app) == [];
    } else if !app(ms[i], from, to) {
      ProcessMeetsExpectation(ms, i + 1, from, to, app, attempts, s);
      ProcessSkipStep(ms, i, from, to, app, attempts, s);
    } else if Good(attempts(i)) {
      var s1 := UpdateOp(s, RecordOf(ms[i], attempts(i)), true).1;
      ProcessMeetsExpectation(ms, i + 1, from, to, app, attempts, s1);
      ProcessGoodStep(ms, i, from, to, app, attempts, s);
    } else {
      ProcessBadStep(ms, i, from, to, app, attempts, s);
    }
  }

  /**
   * `process` returns true exactly when every applicable migration succeeded
   * and was recorded; it returns false exactly when the first one that did
   * not succeed returned false and was recorded.
   */
  lemma {:induction false} ProcessResult(ms: seq<Migration>, from: int, to: int, app: Applicability, attempts: nat -> Attempt, s: StoreState)
    requires s.tables.metadataTable
    ensures var r := Process(ms, 0, from, to, app, attempts, s).0;
      && (r == Ok(true) <==> forall j :: 0 <= j < |ms| && app(ms[j], from, to) ==> Good(attempts(j)))
      && var ps := ApplicablePositions(ms, 0, from, to, app);
         var n := FirstBad(ps, attempts);
         (r == Ok(false) <==> n < |ps| && attempts(ps[n]).result == Failed && attempts(ps[n]).recorded)
  {
    ProcessMeetsExpectation(ms, 0, from, to, app, attempts, s);
    assert MeetsExpectation(ms, 0, from, to, app, attempts, s);
    var ps := ApplicablePositions(ms, 0, from, to, app);
    var n := FirstBad(ps, attempts);
    if n < |ps| {
      assert app(ms[ps[n]], from, to) && !Good(attempts(ps[n]));
    } else {
      forall j | 0 <= j < |ms| && app(ms[j], from, to) ensures Good(attempts(j)) {
        ApplicablePositionsComplete(ms, 0, from, to, app, j);
        var k :| 0 <= k < |ps| && ps[k] == j;
      }
    }
  }

  /**
   * The records of a run follow the list order: over a list sorted in reverse
   * order their versions never increase, over an ascending list they never
   * decrease.
   */
  lemma {:induction false} RecordsFollowListOrder(ms: seq<Migration>, i: nat, from: int, to: int, app: Applicability, attempts: nat -> Attempt, descending: bool)
    requires i <= |ms| && Sorted(ms, descending)
    ensures var rs := Records(ms, ApplicablePositions(ms, i, from, to, app), attempts);
      forall k, l :: 0 <= k < l < |rs| ==> (if descending then rs[k].version >= rs[l].version else rs[k].version <= rs[l].version)
  {
    var ps := ApplicablePositions(ms, i, from, to, app);
    ApplicablePositionsIncrease(ms, i, from, to, app);
    forall k, l | 0 <= k < l < |ps|
      ensures Precedes(ms[ps[k]], ms[ps[l]], descending)
    {
      assert ps[k] < ps[l];
    }
  }

  // ---------------------------------------------------------------------------
  // The current version
  // ---------------------------------------------------------------------------

  /**
   * The current version `migrate` compares is never `UNINITIALIZED`: without a
   * history table the tables are created and it is 0; otherwise it is the
   * version of the most recently installed record. Resolving it changes
   * neither the lock row nor the history.
   */
  lemma {:induction false} ResolvedVersion(s: StoreState, env: Env)
    ensures var (r, s') := ResolveVersion(s, env);
      && (r.Ok? ==> r.value != Uninitialized)
      && ((!s.tables.metadataTable && env.metadataCreated && env.lockTableCreated)
            ==> (r == Ok(0) && s'.tables.metadataTable && s'.tables.lockTable))
      && ((s.tables.metadataTable && s.tables.history != [] && Newest(s.tables.history).version != Uninitialized)
            ==> (r == Ok(Newest(s.tables.history).version) && s'.tables == s.tables))
      && (s.tables.metadataTable && s.tables.history == [] ==> r == Err(NoCurrentVersionRow))
      && (r.Ok? ==> s'.tables.metadataTable)
      && s'.tables.lock == s.tables.lock
      && s'.tables.history == s.tables.history
      && (s.tables.lockTable ==> s'.tables.lockTable)
  {
  }

  // ---------------------------------------------------------------------------
  // The target version
  // ---------------------------------------------------------------------------

  /**
   * The merged list holds every registered and every discovered migration,
   * duplicates included, and is ordered by `compareTo` in reverse.
   */
  lemma {:induction false} MergeKeepsEverything(registered: seq<Migration>, discovered: seq<Migration>)
    ensures multiset(Merge(registered, discovered)) == multiset(registered) + multiset(discovered)
    ensures Sorted(Merge(registered, discovered), true)
    ensures Merge(registered, discovered) == [] <==> registered == [] && discovered == []
  {
    var all := registered + discovered;
    if all != [] {
      assert all[0] in multiset(Merge(registered, discovered));
    }
  }

  /**
   * As written, the "latest" version is the last element of a list sorted in
   * reverse order: the SMALLEST version of all migrations, not the largest.
   */
  lemma {:induction false} LatestIsMinimum(registered: seq<Migration>, discovered: seq<Migration>)
    requires registered + discovered != []
    ensures Merge(registered, discovered) != []
    ensures LatestVersion(Merge(registered, discovered)) == MinVersion(registered + discovered)
  {
    var all := registered + discovered;
    assert Merge(registered, discovered) == Sort(all, true);
    SortedEnds(all);
  }

  /** A concrete case: with versions 1 and 2 registered the run targets version 1, never 2. */
  lemma {:induction false} LatestIsMinimumExample(m1: Migration, m2: Migration)
    requires m1.version == 1 && m2.version == 2
    ensures LatestVersion(Merge([m1, m2], [])) == 1
  {
    LatestIsMinimum([m1, m2], []);
    assert [m1, m2] + [] == [m1, m2];
  }

  // ---------------------------------------------------------------------------
  // The order of the store calls
  // ---------------------------------------------------------------------------

  /**
   * How the current version is resolved: `exists` first; `getCurrentVersion`
   * only when the history table exists; `initialize` only after one of them
   * answered "uninitialised".
   */
  predicate ResolutionShape(u: seq<Call>)
  {
    || u == [ExistsCall(false), InitializeCall]
    || (|u| == 2 && u[0] == ExistsCall(true) && u[1].GetCurrentVersionCall? && u[1].answer != Ok(Uninitialized))
    || u == [ExistsCall(true), GetCurrentVersionCall(Ok(Uninitialized)), InitializeCall]
  }

  function ResolutionLength(u: seq<Call>): nat
  {
    if |u| >= 2 && u[1] == GetCurrentVersionCall(Ok(Uninitialized)) then 3 else 2
  }

  /** The calls made under the lock: the resolution, then updates, then possibly one release as the very last call. */
  predicate LockedProtocol(u: seq<Call>)
  {
    var n := ResolutionLength(u);
    && n <= |u| && ResolutionShape(u[..n])
    && (OnlyUpdates(u[n..]) || (n < |u| && OnlyUpdates(u[n..|u| - 1]) && u[|u| - 1] == ReleaseLockCall))
  }

  /**
   * The calls one `migrate` makes: one lock attempt first; then nothing if it
   * threw, only polls if the lock was taken by someone else, and the locked
   * protocol if it was acquired.
   */
  predicate MigrateProtocol(t: seq<Call>)
  {
    && |t| >= 1 && t[0].AcquireLockCall?
    && match t[0].acquired
         case Err(_) => |t| == 1
         case Ok(got) => if got then LockedProtocol(t[1..]) else OnlyPolls(t[1..])
  }

  lemma {:induction false} ResolveFollowsShape(s: StoreState, env: Env)
    ensures var (r, s') := ResolveVersion(s, env);
      && Prefix(s, s')
      && |NewCalls(s, s')| == ResolutionLength(NewCalls(s, s'))
      && ResolutionShape(NewCalls(s, s'))
      && (r.Ok? ==> s'.tables.metadataTable)
      && s'.tables.lock == s.tables.lock && s'.tables.history == s.tables.history
      && (s.tables.lockTable ==> s'.tables.lockTable)
  {
    var (c, s1) := CurrentVersion(s);
    var u1 := if s.tables.metadataTable then [ExistsCall(true), GetCurrentVersionCall(c)] else [ExistsCall(false)];
    assert s1.calls == s.calls + u1;
    assert s1.tables == s.tables;
    if c.Ok? && c.value == Uninitialized {
      var s2 := InitializeMetadata(s1, env).1;
      assert s2.calls == s.calls + (u1 + [InitializeCall]);
      assert NewCalls(s, s2) == u1 + [InitializeCall];
    } else {
      assert NewCalls(s, s1) == u1;
    }
  }

  lemma {:induction false} ResolutionHasNoRelease(u: seq<Call>)
    requires ResolutionShape(u)
    ensures ReleaseLockCall !in u
  {
  }

  lemma {:induction false} SegmentsFollowLockedProtocol(u1: seq<Call>, u2: seq<Call>, released: bool)
    requires |u1| == ResolutionLength(u1) && ResolutionShape(u1)
    requires OnlyUpdates(u2) && (!released ==> u2 == [])
    ensures LockedProtocol(u1 + u2 + (if released then [ReleaseLockCall] else []))
  {
    var u := u1 + u2 + (if released then [ReleaseLockCall] else []);
    var n := |u1|;
    assert u[..n] == u1;
    assert ResolutionLength(u) == n;
    if released {
      assert u[n..|u| - 1] == u2;
    } else {
      assert u[n..] == [];
    }
  }

  /** `process` makes only `update` calls and leaves the lock row and the tables' existence alone. */
  lemma {:induction false} ProcessOnlyUpdates(ms: seq<Migration>, from: int, to: int, app: Applicability, attempts: nat -> Attempt, s: StoreState)
    requires s.tables.metadataTable
    ensures var s' := Process(ms, 0, from, to, app, attempts, s).1;
      && Prefix(s, s') && OnlyUpdates(NewCalls(s, s'))
      && s'.tables.lock == s.tables.lock && s'.tables.lockTable == s.tables.lockTable
      && s'.tables.metadataTable
  {
    ProcessMeetsExpectation(ms, 0, from, to, app, attempts, s);
    assert MeetsExpectation(ms, 0, from, to, app, attempts, s);
  }

  /** The `try`/`finally` block makes `update` calls and then exactly one release. */
  lemma {:induction false} RunAndReleaseCalls(all: seq<Migration>, from: int, to: int, app: Applicability, env: Env, s: StoreState)
    requires s.tables.metadataTable
    ensures var s' := RunAndRelease(all, from, to, app, env, s).1;
      && Prefix(s, s') && |NewCalls(s, s')| >= 1
      && OnlyUpdates(NewCalls(s, s')[..|NewCalls(s, s')| - 1])
      && NewCalls(s, s')[|NewCalls(s, s')| - 1] == ReleaseLockCall
  {
    ProcessOnlyUpdates(all, from, to, app, env.attempts, s);
    var s2 := Process(all, 0, from, to, app, env.attempts, s).1;
    var u2 := NewCalls(s, s2);
    assert s2.calls == s.calls + u2;
    var s' := RunAndRelease(all, from, to, app, env, s).1;
    assert s' == ReleaseLockOp(s2).1;
    assert s'.calls == s.calls + (u2 + [ReleaseLockCall]);
    assert NewCalls(s, s') == u2 + [ReleaseLockCall];
    assert NewCalls(s, s')[..|NewCalls(s, s')| - 1] == u2;
  }

  lemma {:induction false} ConcatCalls(s: StoreState, s1: StoreState, s': StoreState)
    requires Prefix(s, s1) && Prefix(s1, s')
    ensures Prefix(s, s') && NewCalls(s, s') == NewCalls(s, s1) + NewCalls(s1, s')
  {
    assert s1.calls == s.calls + NewCalls(s, s1);
    assert s'.calls == s1.calls + NewCalls(s1, s');
  }

  /** Whether the run goes into the `try` block: a resolved version below a target. */
  predicate GoesIntoTry(registered: seq<Migration>, env: Env, c: Result<int, Failure>)
  {
    c.Ok? && env.discovered.Some? && Merge(registered, env.discovered.value) != []
    && c.value < LatestVersion(Merge(registered, env.discovered.value))
  }

  lemma {:induction false} LockedState(registered: seq<Migration>, app: Applicability, env: Env, s: StoreState)
    ensures var (c, s1) := ResolveVersion(s, env);
      Locked(registered, app, env, s).1 ==
        if GoesIntoTry(registered, env, c)
        then RunAndRelease(Merge(registered, env.discovered.value), c.value, LatestVersion(Merge(registered, env.discovered.value)), app, env, s1).1
        else s1
  {
  }

  /** Everything done under the lock follows the locked protocol. */
  lemma {:induction false} LockedFollowsProtocol(registered: seq<Migration>, app: Applicability, env: Env, s: StoreState)
    ensures var s' := Locked(registered, app, env, s).1;
      Prefix(s, s') && LockedProtocol(NewCalls(s, s'))
  {
    ResolveFollowsShape(s, env);
    LockedState(registered, app, env, s);
    var (c, s1) := ResolveVersion(s, env);
    var u1 := NewCalls(s, s1);
    var s' := Locked(registered, app, env, s).1;
    if GoesIntoTry(registered, env, c) {
      var all := Merge(registered, env.discovered.value);
      RunAndReleaseCalls(all, c.value, LatestVersion(all), app, env, s1);
      ConcatCalls(s, s1, s');
      var u3 := NewCalls(s1, s');
      var u2 := u3[..|u3| - 1];
      assert u3 == u2 + [ReleaseLockCall];
      SegmentsFollowLockedProtocol(u1, u2, true);
      assert NewCalls(s, s') == u1 + u2 + [ReleaseLockCall];
    } else {
      SegmentsFollowLockedProtocol(u1, [], false);
      assert NewCalls(s, s') == u1 + [];
    }
  }

  /** Every `migrate` follows the protocol. */
  lemma {:induction false} MigrateFollowsProtocol(registered: seq<Migration>, app: Applicability, env: Env, s: StoreState)
    ensures var s' := Migrate(registered, app, env, s).1;
      Prefix(s, s') && MigrateProtocol(NewCalls(s, s'))
  {
    var (acquired, s1) := AcquireLockOp(s, env.lockedAt);
    assert Prefix(s, s1) && NewCalls(s, s1) == [AcquireLockCall(acquired)];
    var s' := Migrate(registered, app, env, s).1;
    if acquired.Ok? {
      if acquired.value {
        assert s' == Locked(registered, app, env, s1).1;
        LockedFollowsProtocol(registered, app, env, s1);
      } else {
        assert s' == Hold(env.ticks, s1).1;
        HoldOnlyPolls(env.ticks, s1);
      }
      ConcatCalls(s, s1, s');
      assert NewCalls(s, s')[1..] == NewCalls(s1, s');
    }
  }

  /** What the locked protocol guarantees, call by call. */
  lemma {:induction false} LockedProtocolGuarantees(u: seq<Call>)
    requires LockedProtocol(u)
    ensures |u| >= 2
    ensures forall k :: 0 <= k < |u| ==> !u[k].AcquireLockCall? && u[k] != IsLockedCall
    ensures forall k :: 0 <= k < |u| && u[k] == ReleaseLockCall ==> k == |u| - 1
    ensures forall k :: 0 <= k < |u| && u[k].GetCurrentVersionCall? ==> k == 1 && u[0] == ExistsCall(true)
    ensures forall k :: 0 <= k < |u| && u[k] == InitializeCall ==>
      || (k == 1 && u[0] == ExistsCall(false))
      || (k == 2 && u[0] == ExistsCall(true) && u[1] == GetCurrentVersionCall(Ok(Uninitialized)))
    ensures forall k :: 0 <= k < |u| && u[k].UpdateCall? ==> k >= 2
  {
    var n := ResolutionLength(u);
    assert forall k :: 0 <= k < n ==> u[k] == u[..n][k];
    if OnlyUpdates(u[n..]) {
      assert forall k :: n <= k < |u| ==> u[k] == u[n..][k - n];
    } else {
      assert forall k :: n <= k < |u| - 1 ==> u[k] == u[n..|u| - 1][k - n];
    }
  }

  /**
   * What the protocol guarantees: the lock is tried exactly once and first;
   * the lock is released at most once, as the last call, and only after it
   * was acquired; `getCurrentVersion` is only called after `exists` found the
   * history table; the tables are created at most once and only when the
   * store answered "uninitialised"; history records are written only under the
   * lock; `isLocked` is only polled when someone else held the lock.
   */
  lemma {:induction false} ProtocolGuarantees(t: seq<Call>)
    requires MigrateProtocol(t)
    ensures t[0].AcquireLockCall? && forall k :: 0 < k < |t| ==> !t[k].AcquireLockCall?
    ensures forall k :: 0 <= k < |t| && t[k] == ReleaseLockCall ==> k == |t| - 1 && t[0] == AcquireLockCall(Ok(true))
    ensures forall k :: 0 <= k < |t| && t[k].GetCurrentVersionCall? ==> k == 2 && t[1] == ExistsCall(true)
    ensures forall k :: 0 <= k < |t| && t[k] == InitializeCall ==>
      || (k == 2 && t[1] == ExistsCall(false))
      || (k == 3 && t[1] == ExistsCall(true) && t[2] == GetCurrentVersionCall(Ok(Uninitialized)))
    ensures forall k :: 0 <= k < |t| && t[k].UpdateCall? ==> k >= 3 && t[0] == AcquireLockCall(Ok(true))
    ensures forall k :: 0 <= k < |t| && t[k] == IsLockedCall ==> t[0] == AcquireLockCall(Ok(false))
  {
    var u := t[1..];
    assert forall k :: 1 <= k < |t| ==> t[k] == u[k - 1];
    if t[0] == AcquireLockCall(Ok(true)) {
      LockedProtocolGuarantees(u);
    }
  }

  // ---------------------------------------------------------------------------
  // Outcomes
  // ---------------------------------------------------------------------------

  /**
   * Without a lock table the lock attempt throws and nothing else happens: no
   * table is created, so on a keyspace that was never provisioned `migrate`
   * never gets past the lock.
   */
  lemma {:induction false} MissingLockTableFailsFirst(registered: seq<Migration>, app: Applicability, env: Env, s: StoreState)
    requires !s.tables.lockTable
    ensures var (o, s') := Migrate(registered, app, env, s);
      && o == Raised(UnconfiguredTable) && s'.tables == s.tables
      && Prefix(s, s') && NewCalls(s, s') == [AcquireLockCall(Err(UnconfiguredTable))]
  {
  }

  /**
   * While another client holds the lock, `migrate` only waits: it writes no
   * table, and the wait ends `Unlocked` only after the lock row was seen gone.
   */
  lemma {:induction false} HeldLockOnlyWaits(registered: seq<Migration>, app: Applicability, env: Env, s: StoreState)
    requires s.tables.lockTable && s.tables.lock.Some?
    ensures var (o, s') := Migrate(registered, app, env, s);
      && o.Waited?
      && s'.tables.history == s.tables.history
      && s'.tables.metadataTable == s.tables.metadataTable && s'.tables.lockTable
      && (o == Waited(Unlocked) ==> s'.tables.lock.None? && exists k :: 0 <= k < |env.ticks| && env.ticks[k] == Slept(None))
  {
    HoldOnlyPolls(env.ticks, AcquireLockOp(s, env.lockedAt).1);
  }

  /** A free lock is taken, stamped with the clock, and the rest runs under it. */
  lemma {:induction false} FreeLockIsTaken(registered: seq<Migration>, app: Applicability, env: Env, s: StoreState)
    requires s.tables.lockTable && s.tables.lock.None?
    ensures var s1 := AcquireLockOp(s, env.lockedAt).1;
      && s1.tables == s.tables.(lock := Some(env.lockedAt))
      && Migrate(registered, app, env, s) == Locked(registered, app, env, s1)
  {
  }

  /**
   * Failures before the `try` (resolving the version, loading the scripts, an
   * empty list of migrations) propagate with the lock still held and the
   * history untouched.
   */
  lemma {:induction false} FailuresBeforeTryKeepLock(registered: seq<Migration>, app: Applicability, env: Env, s: StoreState)
    requires var c := ResolveVersion(s, env).0;
      c.Err? || env.discovered.None? || registered + env.discovered.value == []
    ensures var (o, s') := Locked(registered, app, env, s);
            var c := ResolveVersion(s, env).0;
      && o == Raised(if c.Err? then c.error else if env.discovered.None? then DiscoveryFailed else NoMigrations)
      && s'.tables.lock == s.tables.lock && s'.tables.history == s.tables.history
      && Prefix(s, s') && ReleaseLockCall !in NewCalls(s, s')
  {
    var (c, s1) := ResolveVersion(s, env);
    assert Locked(registered, app, env, s).1 == s1 by {
      if c.Ok? && env.discovered.Some? {
        MergeKeepsEverything(registered, env.discovered.value);
      }
    }
    ResolveFollowsShape(s, env);
    ResolutionHasNoRelease(NewCalls(s, s1));
  }

  /**
   * When the current version is not below the target, `migrate` returns
   * normally: it appends no history record and does not release the lock.
   * Resolving the version may still have created the tables.
   */
  lemma {:induction false} UpToDateKeepsLock(registered: seq<Migration>, app: Applicability, env: Env, s: StoreState)
    requires var c := ResolveVersion(s, env).0;
      && c.Ok? && env.discovered.Some? && registered + env.discovered.value != []
      && c.value >= MinVersion(registered + env.discovered.value)
    ensures var (o, s') := Locked(registered, app, env, s);
      && o == UpToDate
      && s'.tables.lock == s.tables.lock && s'.tables.history == s.tables.history
      && Prefix(s, s') && ReleaseLockCall !in NewCalls(s, s')
  {
    var (c, s1) := ResolveVersion(s, env);
    assert Locked(registered, app, env, s) == (UpToDate, s1) by {
      LatestIsMinimum(registered, env.discovered.value);
    }
    ResolveFollowsShape(s, env);
    ResolutionHasNoRelease(NewCalls(s, s1));
  }

  /**
   * When the current version is below the target, the applicable migrations run
   * in list order and the lock is released whatever they do: the run reports
   * success exactly when every applicable migration succeeded and was
   * recorded, `Aborted` when one returned false, and the failure itself when
   * one threw or could not be recorded.
   */
  lemma {:induction false} BehindRunsAndReleases(registered: seq<Migration>, app: Applicability, env: Env, s: StoreState)
    requires s.tables.lockTable && s.tables.lock.Some?
    requires var c := ResolveVersion(s, env).0;
      && c.Ok? && env.discovered.Some? && registered + env.discovered.value != []
      && c.value < MinVersion(registered + env.discovered.value)
    ensures var (o, s') := Locked(registered, app, env, s);
            var from := ResolveVersion(s, env).0.value;
            var to := MinVersion(registered + env.discovered.value);
            var all := Merge(registered, env.discovered.value);
            var e := Expected(all, 0, from, to, app, env.attempts);
      && s'.tables.lock.None?
      && s'.tables.history == s.tables.history + Records(all, ApplicablePositions(all, 0, from, to, app), env.attempts)[..e.appended]
      && (o == Migrated <==> forall j :: 0 <= j < |all| && app(all[j], from, to) ==> Good(env.attempts(j)))
      && (o == Raised(Aborted) <==> e.result == Ok(false))
      && (e.result.Err? ==> o == Raised(e.result.error))
  {
    var (c, s1) := ResolveVersion(s, env);
    ResolveFollowsShape(s, env);
    var all := Merge(registered, env.discovered.value);
    assert Locked(registered, app, env, s) == RunAndRelease(all, c.value, MinVersion(registered + env.discovered.value), app, env, s1) by {
      LatestIsMinimum(registered, env.discovered.value);
    }
    RunAndReleaseOutcome(all, c.value, MinVersion(registered + env.discovered.value), app, env, s1);
  }

  /**
   * The `try`/`finally` block on its own: the migrations run as `process`
   * promises and the lock row, held on entry, is deleted afterwards.
   */
  lemma {:induction false} RunAndReleaseOutcome(all: seq<Migration>, from: int, to: int, app: Applicability, env: Env, s: StoreState)
    requires s.tables.metadataTable && s.tables.lockTable && s.tables.lock.Some?
    ensures var (o, s') := RunAndRelease(all, from, to, app, env, s);
            var e := Expected(all, 0, from, to, app, env.attempts);
      && s'.tables == s.tables.(history := s.tables.history + Records(all, ApplicablePositions(all, 0, from, to, app), env.attempts)[..e.appended], lock := None)
      && (o == Migrated <==> forall j :: 0 <= j < |all| && app(all[j], from, to) ==> Good(env.attempts(j)))
      && (o == Raised(Aborted) <==> e.result == Ok(false))
      && (e.result.Err? ==> o == Raised(e.result.error))
  {
    var (p, s1) := Process(all, 0, from, to, app, env.attempts, s);
    var e := Expected(all, 0, from, to, app, env.attempts);
    assert p == e.result && s1.tables == s.tables.(history := s.tables.history + Records(all, ApplicablePositions(all, 0, from, to, app), env.attempts)[..e.appended]) by {
      ProcessMeetsExpectation(all, 0, from, to, app, env.attempts, s);
    }
    assert (p == Ok(true) <==> forall j :: 0 <= j < |all| && app(all[j], from, to) ==> Good(env.attempts(j))) by {
      ProcessResult(all, from, to, app, env.attempts, s);
    }
    var (rel, s2) := ReleaseLockOp(s1);
    assert rel.Ok? && s2.tables == s1.tables.(lock := None);
  }

  /**
   * Under the lock the migrations that run are recorded in the order of the
   * merged list, which is reverse order: their versions never increase.
   */
  lemma {:induction false} RunOrderIsDescending(registered: seq<Migration>, discovered: seq<Migration>, from: int, to: int, app: Applicability, attempts: nat -> Attempt)
    ensures var all := Merge(registered, discovered);
            var rs := Records(all, ApplicablePositions(all, 0, from, to, app), attempts);
      forall k, l :: 0 <= k < l < |rs| ==> rs[k].version >= rs[l].version
  {
    MergeKeepsEverything(registered, discovered);
    RecordsFollowListOrder(Merge(registered, discovered), 0, from, to, app, attempts, true);
  }

  /**
   * An empty history table (both tables present, nothing recorded) makes
   * `migrate` take the lock and then throw, leaving the lock held.
   */
  lemma {:induction false} EmptyHistoryThrowsWithLockHeld(registered: seq<Migration>, app: Applicability, env: Env, s: StoreState)
    requires s.tables.metadataTable && s.tables.lockTable && s.tables.lock.None? && s.tables.history == []
    ensures var (o, s') := Migrate(registered, app, env, s);
      o == Raised(NoCurrentVersionRow) && s'.tables == s.tables.(lock := Some(env.lockedAt))
  {
  }
}
