/**
 * The CQL session, reduced to the state the engine reads and writes: the
 * metadata tables of the keyspace, the statements that scripts have run, and
 * which statements the database rejects.
 */
module Cql {
  import opened Wrappers
  import opened MetadataStore

  class CqlSession {
    /** The history and lock tables for the key "migrations". */
    var tables: Tables
    /** The script statements the database has accepted so far, in order. */
    var executed: seq<string>
    /**
     * Whether the database rejects (throws on) a statement, given the
     * statements it has accepted before it.
     */
    const rejects: (seq<string>, string) -> bool

    constructor (tables: Tables, rejects: (seq<string>, string) -> bool)
      ensures this.tables == tables && this.rejects == rejects && executed == []
    {
      this.tables := tables;
      this.rejects := rejects;
      executed := [];
    }

    /** `session.execute(cql)` for a script statement: true when it ran, false when it threw. */
    method Execute(cql: string) returns (ok: bool)
      modifies this
      ensures ok == !rejects(old(executed), cql)
      ensures executed == if ok then old(executed) + [cql] else old(executed)
      ensures tables == old(tables)
    {
      ok := !rejects(executed, cql);
      if ok {
        executed := executed + [cql];
      }
    }

    /** `Thread.sleep`: meanwhile other clients may have inserted or deleted the lock row. */
    method Sleep(lockRow: Option<int>)
      modifies this
      ensures tables == OtherClients(old(tables), lockRow)
      ensures executed == old(executed)
    {
      tables := OtherClients(tables, lockRow);
    }
  }
}
