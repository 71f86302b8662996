/**
 * The metadata and lock store (the `MetadataStrategy` contract and its
 * Cassandra implementation) as pure state transitions. The class in module
 * CassandraMetadata runs these transitions step by step; the orchestrator's
 * specification composes them.
 */
module MetadataStore {
  import opened Wrappers
  import opened Exceptions

  /** The partition key under which both the history rows and the lock row are written. */
  const MigrationsKey: string := "migrations"

  /**
   * One history row: version, description, script, hash, installed_on,
   * exectime_ms and was_successful, all under the key `MigrationsKey`.
   */
  datatype Metadata = Metadata(
    version: int,
    description: string,
    script: Option<string>,
    hash: Option<string>,
    installedAt: int,
    executionTime: int,
    wasSuccessful: bool)

  /**
   * What the keyspace holds for the key `MigrationsKey`: whether the history
   * table and the lock table exist, the lock row (its `locked_at`), and the
   * history rows in the order they were written.
   */
  datatype Tables = Tables(metadataTable: bool, lockTable: bool, lock: Option<int>, history: seq<Metadata>)

  /** A store operation as the orchestrator called it, with what it answered where that matters. */
  datatype Call =
    | ExistsCall(found: bool)
    | GetCurrentVersionCall(answer: Result<int, Failure>)
    | InitializeCall
    | UpdateCall(record: Metadata)
    | AcquireLockCall(acquired: Result<bool, Failure>)
    | IsLockedCall
    | ReleaseLockCall

  /**
   * Everything a store operation reads or writes: the tables, the two lazily
   * prepared statements of the strategy object (`updateStatement`,
   * `lockCheckStatement`), the calls made so far and how many statements were
   * prepared so far.
   */
  datatype StoreState = StoreState(
    tables: Tables,
    updatePrepared: bool,
    lockCheckPrepared: bool,
    calls: seq<Call>,
    prepares: nat)

  function Record(s: StoreState, c: Call): StoreState
  {
    s.(calls := s.calls + [c])
  }

  /** `a` comes before `b` under the clustering order (installed_on DESC, version DESC). */
  predicate ReadBefore(a: Metadata, b: Metadata)
  {
    a.installedAt > b.installedAt || (a.installedAt == b.installedAt && a.version > b.version)
  }

  /** The first history row under the clustering order: no row is read before it. */
  function Newest(h: seq<Metadata>): (r: Metadata)
    requires h != []
    ensures r in h
    ensures forall m :: m in h ==> !ReadBefore(m, r)
  {
    if |h| == 1 then h[0]
    else
      var n := Newest(h[..|h| - 1]);
      assert h == h[..|h| - 1] + [h[|h| - 1]];
      if ReadBefore(h[|h| - 1], n) then h[|h| - 1] else n
  }

  /** Rows that tie under the clustering order share their version, so the version read is unique. */
  lemma {:induction false} NewestVersionIsDetermined(h: seq<Metadata>, m: Metadata)
    requires m in h && forall x :: x in h ==> !ReadBefore(x, m)
    ensures m.version == Newest(h).version
  {
  }

  // ---------------------------------------------------------------------------
  // The seven operations
  // ---------------------------------------------------------------------------

  /** `exists`: whether the history table has been created. */
  function ExistsOp(s: StoreState): (r: (bool, StoreState))
  {
    var found := s.tables.metadataTable;
    (found, Record(s, ExistsCall(found)))
  }

  /**
   * `getCurrentVersion`: the version of the first history row under the
   * clustering order, whatever its success flag; no row gives a null row and
   * so a NullPointerException.
   */
  function GetCurrentVersionOp(s: StoreState): (r: (Result<int, Failure>, StoreState))
  {
    var answer :=
      if !s.tables.metadataTable then Err(UnconfiguredTable)
      else if s.tables.history == [] then Err(NoCurrentVersionRow)
      else Ok(Newest(s.tables.history).version);
    (answer, Record(s, GetCurrentVersionCall(answer)))
  }

  /**
   * `initialize`: `create table if not exists` for the history table and then
   * for the lock table; `created1`/`created2` are what the driver reports as
   * applied for each. The first one not applied ends the operation with its
   * MigrationException.
   */
  function InitializeOp(s: StoreState, created1: bool, created2: bool): (r: (Result<(), Failure>, StoreState))
  {
    var s1 := Record(s, InitializeCall);
    if !created1 then (Err(MetadataInitFailed), s1)
    else
      var s2 := s1.(tables := s1.tables.(metadataTable := true));
      if !created2 then (Err(LockTableInitFailed), s2)
      else (Ok(()), s2.(tables := s2.tables.(lockTable := true)))
  }

  /**
   * `update`: prepares the insert on first use (preparing against a missing
   * table fails), then writes one history row; `applied` is what the driver
   * reports for that write.
   */
  function UpdateOp(s: StoreState, m: Metadata, applied: bool): (r: (Result<(), Failure>, StoreState))
  {
    var s1 := Record(s, UpdateCall(m));
    if !s.tables.metadataTable then
      (Err(UnconfiguredTable), if s.updatePrepared then s1 else s1.(prepares := s1.prepares + 1))
    else
      var s2 := if s.updatePrepared then s1 else s1.(updatePrepared := true, prepares := s1.prepares + 1);
      if !applied then (Err(UpdateFailed), s2)
      else (Ok(()), s2.(tables := s2.tables.(history := s2.tables.history + [m])))
  }

  /**
   * `acquireLock`: prepares `insert ... if not exists` on every call and runs
   * it; the answer is whether the conditional insert was applied.
   */
  function AcquireLockOp(s: StoreState, now: int): (r: (Result<bool, Failure>, StoreState))
  {
    var s1 := s.(prepares := s.prepares + 1);
    if !s.tables.lockTable then (Err(UnconfiguredTable), Record(s1, AcquireLockCall(Err(UnconfiguredTable))))
    else if s.tables.lock.None? then
      (Ok(true), Record(s1.(tables := s1.tables.(lock := Some(now))), AcquireLockCall(Ok(true))))
    else (Ok(false), Record(s1, AcquireLockCall(Ok(false))))
  }

  /**
   * `isLocked`: prepares the count query on first use; the answer is whether
   * the count of lock rows is positive. A count query always returns one
   * row, so the source's null-row branch cannot be taken.
   */
  function IsLockedOp(s: StoreState): (r: (Result<bool, Failure>, StoreState))
  {
    var s1 := Record(s, IsLockedCall);
    if !s.tables.lockTable then
      (Err(UnconfiguredTable), if s.lockCheckPrepared then s1 else s1.(prepares := s1.prepares + 1))
    else
      var s2 := if s.lockCheckPrepared then s1 else s1.(lockCheckPrepared := true, prepares := s1.prepares + 1);
      var count := if s.tables.lock.Some? then 1 else 0;
      (Ok(count > 0), s2)
  }

  /**
   * `releaseLock`: prepares `delete ... if exists` on every call and runs it;
   * a delete that was not applied (no lock row) throws.
   */
  function ReleaseLockOp(s: StoreState): (r: (Result<(), Failure>, StoreState))
  {
    var s1 := Record(s.(prepares := s.prepares + 1), ReleaseLockCall);
    if !s.tables.lockTable then (Err(UnconfiguredTable), s1)
    else if s.tables.lock.None? then (Err(ReleaseFailed), s1)
    else (Ok(()), s1.(tables := s1.tables.(lock := None)))
  }

  /** While this client sleeps, other clients may have inserted or deleted the lock row. */
  function OtherClients(t: Tables, lockRow: Option<int>): Tables
  {
    if t.lockTable then t.(lock := lockRow) else t
  }

  // ---------------------------------------------------------------------------
  // Properties of the operations
  // ---------------------------------------------------------------------------

  /** `acquireLock` succeeds exactly when the lock table exists and holds no lock row; then the row holds `now`. */
  lemma {:induction false} AcquireLockIffFree(s: StoreState, now: int)
    ensures AcquireLockOp(s, now).0 == Ok(true) <==> s.tables.lockTable && s.tables.lock.None?
    ensures AcquireLockOp(s, now).0 == Ok(true) ==> AcquireLockOp(s, now).1.tables.lock == Some(now)
    ensures AcquireLockOp(s, now).0 == Ok(false) ==> AcquireLockOp(s, now).1.tables == s.tables
    ensures AcquireLockOp(s, now).1.tables.history == s.tables.history
  {
  }

  /** Mutual exclusion, sequentially: of two acquires with no release between them at most one succeeds. */
  lemma {:induction false} NoTwoAcquires(s: StoreState, now1: int, now2: int)
    ensures var (r1, s1) := AcquireLockOp(s, now1);
            var (r2, s2) := AcquireLockOp(s1, now2);
            !(r1 == Ok(true) && r2 == Ok(true))
  {
  }

  /** After a successful release the lock can be taken again, and only by one acquire. */
  lemma {:induction false} ReleaseThenAcquire(s: StoreState, now: int)
    requires ReleaseLockOp(s).0.Ok?
    ensures AcquireLockOp(ReleaseLockOp(s).1, now).0 == Ok(true)
  {
  }

  /** `releaseLock` removes the lock row; with no lock row it throws and the tables are unchanged. */
  lemma {:induction false} ReleaseLockRemovesRow(s: StoreState)
    ensures ReleaseLockOp(s).0.Ok? <==> s.tables.lockTable && s.tables.lock.Some?
    ensures ReleaseLockOp(s).1.tables.lock.None?
            || (ReleaseLockOp(s).0.Err? && ReleaseLockOp(s).1.tables == s.tables)
    ensures ReleaseLockOp(s).0.Err? ==> ReleaseLockOp(s).1.tables == s.tables
    ensures ReleaseLockOp(s).1.tables.history == s.tables.history
  {
  }

  /** `isLocked` answers whether a lock row exists and changes no table. */
  lemma {:induction false} IsLockedReadsLockRow(s: StoreState)
    ensures s.tables.lockTable ==> IsLockedOp(s).0 == Ok(s.tables.lock.Some?)
    ensures IsLockedOp(s).1.tables == s.tables
  {
  }

  /**
   * `update` appends exactly the given record when the history table exists
   * and the write is applied; otherwise it throws and the history is
   * unchanged. The lock row is never touched.
   */
  lemma {:induction false} UpdateAppendsOne(s: StoreState, m: Metadata, applied: bool)
    ensures var (r, s') := UpdateOp(s, m, applied);
            && (r.Ok? <==> s.tables.metadataTable && applied)
            && s'.tables.history == (if r.Ok? then s.tables.history + [m] else s.tables.history)
            && s'.tables.lock == s.tables.lock
            && (r == Err(UpdateFailed) <==> s.tables.metadataTable && !applied)
  {
  }

  /**
   * `getCurrentVersion` reads the most recently installed row, regardless of
   * its success flag: appending a row installed strictly later makes its
   * version the current one.
   */
  lemma {:induction false} CurrentVersionIsLatestInstalled(s: StoreState, m: Metadata)
    requires s.tables.metadataTable
    requires forall x :: x in s.tables.history ==> x.installedAt < m.installedAt
    ensures GetCurrentVersionOp(s.(tables := s.tables.(history := s.tables.history + [m]))).0 == Ok(m.version)
  {
    var h := s.tables.history + [m];
    NewestVersionIsDetermined(h, m);
  }

  /**
   * `initialize` is idempotent: when both creations are applied, a second
   * call leaves the tables as the first left them.
   */
  lemma {:induction false} InitializeIdempotent(s: StoreState)
    ensures var (r1, s1) := InitializeOp(s, true, true);
            var (r2, s2) := InitializeOp(s1, true, true);
            r1.Ok? && r2.Ok? && s2.tables == s1.tables
            && s1.tables.metadataTable && s1.tables.lockTable
            && s1.tables.history == s.tables.history && s1.tables.lock == s.tables.lock
  {
  }

  /**
   * The insert and the lock count are prepared once and reused; the
   * conditional insert and delete of the lock row are prepared on every call.
   */
  lemma {:induction false} PreparedStatementsAreLazy(s: StoreState, m: Metadata, applied: bool, now: int)
    requires s.tables.metadataTable && s.tables.lockTable
    ensures UpdateOp(s, m, applied).1.updatePrepared
    ensures UpdateOp(s, m, applied).1.prepares == s.prepares + (if s.updatePrepared then 0 else 1)
    ensures IsLockedOp(s).1.lockCheckPrepared
    ensures IsLockedOp(s).1.prepares == s.prepares + (if s.lockCheckPrepared then 0 else 1)
    ensures AcquireLockOp(s, now).1.prepares == s.prepares + 1
    ensures ReleaseLockOp(s).1.prepares == s.prepares + 1
  {
  }
}
