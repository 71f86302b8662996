/**
 * `CassandraMetadataStrategy`, the one implementation of `MetadataStrategy`:
 * an object holding two lazily prepared statements, whose seven operations
 * read and write the history and lock tables through the session. Each
 * operation is proved to perform the transition of module MetadataStore.
 */
module CassandraMetadata {
  import opened Wrappers
  import opened Exceptions
  import opened MetadataStore
  import opened Cql

  class CassandraMetadataStrategy {
    /** `updateStatement != null`: the history insert has been prepared. */
    var updateStatement: bool
    /** `lockCheckStatement != null`: the lock count query has been prepared. */
    var lockCheckStatement: bool
    /** The store operations called on this object so far. */
    ghost var calls: seq<Call>
    /** How many statements this object has prepared so far. */
    ghost var prepares: nat

    /** What this object and the session's tables amount to. */
    ghost function State(session: CqlSession): StoreState
      reads this, session
    {
      StoreState(session.tables, updateStatement, lockCheckStatement, calls, prepares)
    }

    constructor ()
      ensures !updateStatement && !lockCheckStatement && calls == [] && prepares == 0
    {
      updateStatement := false;
      lockCheckStatement := false;
      calls := [];
      prepares := 0;
    }

    method Exists(session: CqlSession) returns (found: bool)
      modifies this
      ensures (found, State(session)) == ExistsOp(old(State(session)))
    {
      found := session.tables.metadataTable;
      calls := calls + [ExistsCall(found)];
    }

    method GetCurrentVersion(session: CqlSession) returns (r: Result<int, Failure>)
      modifies this
      ensures (r, State(session)) == GetCurrentVersionOp(old(State(session)))
    {
      if !session.tables.metadataTable {
        r := Err(UnconfiguredTable);
      } else if session.tables.history == [] {
        r := Err(NoCurrentVersionRow);
      } else {
        r := Ok(Newest(session.tables.history).version);
      }
      calls := calls + [GetCurrentVersionCall(r)];
    }

    method Initialize(session: CqlSession, created1: bool, created2: bool) returns (r: Result<(), Failure>)
      modifies this, session
      ensures (r, State(session)) == InitializeOp(old(State(session)), created1, created2)
      ensures session.executed == old(session.executed)
    {
      calls := calls + [InitializeCall];
      if !created1 {
        return Err(MetadataInitFailed);
      }
      session.tables := session.tables.(metadataTable := true);
      if !created2 {
        return Err(LockTableInitFailed);
      }
      session.tables := session.tables.(lockTable := true);
      r := Ok(());
    }

    method Update(session: CqlSession, m: Metadata, applied: bool) returns (r: Result<(), Failure>)
      modifies this, session
      ensures (r, State(session)) == UpdateOp(old(State(session)), m, applied)
      ensures session.executed == old(session.executed)
    {
      calls := calls + [UpdateCall(m)];
      if !updateStatement {
        prepares := prepares + 1;
        if !session.tables.metadataTable {
          return Err(UnconfiguredTable);
        }
        updateStatement := true;
      }
      if !session.tables.metadataTable {
        return Err(UnconfiguredTable);
      }
      if !applied {
        return Err(UpdateFailed);
      }
      session.tables := session.tables.(history := session.tables.history + [m]);
      r := Ok(());
    }

    method AcquireLock(session: CqlSession, now: int) returns (r: Result<bool, Failure>)
      modifies this, session
      ensures (r, State(session)) == AcquireLockOp(old(State(session)), now)
      ensures session.executed == old(session.executed)
    {
      prepares := prepares + 1;
      if !session.tables.lockTable {
        r := Err(UnconfiguredTable);
      } else if session.tables.lock.None? {
        // insert ... if not exists: applied
        session.tables := session.tables.(lock := Some(now));
        r := Ok(true);
      } else {
        r := Ok(false);
      }
      calls := calls + [AcquireLockCall(r)];
    }

    method IsLocked(session: CqlSession) returns (r: Result<bool, Failure>)
      modifies this
      ensures (r, State(session)) == IsLockedOp(old(State(session)))
    {
      calls := calls + [IsLockedCall];
      if !lockCheckStatement {
        prepares := prepares + 1;
        if !session.tables.lockTable {
          return Err(UnconfiguredTable);
        }
        lockCheckStatement := true;
      }
      if !session.tables.lockTable {
        return Err(UnconfiguredTable);
      }
      var count := if session.tables.lock.Some? then 1 else 0;
      r := Ok(count > 0);
    }

    method ReleaseLock(session: CqlSession) returns (r: Result<(), Failure>)
      modifies this, session
      ensures (r, State(session)) == ReleaseLockOp(old(State(session)))
      ensures session.executed == old(session.executed)
    {
      prepares := prepares + 1;
      calls := calls + [ReleaseLockCall];
      if !session.tables.lockTable {
        r := Err(UnconfiguredTable);
      } else if session.tables.lock.None? {
        // delete ... if exists: not applied
        r := Err(ReleaseFailed);
      } else {
        session.tables := session.tables.(lock := None);
        r := Ok(());
      }
    }
  }
}
