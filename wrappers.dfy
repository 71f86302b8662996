/** Option and Result: a value that may be missing, and a value or an error. */
module Wrappers {

  datatype Option<+T> = None | Some(value: T)

  /** Either a value or the exception that was thrown instead. */
  datatype Result<+T, +E> = Ok(value: T) | Err(error: E)
}

/**
 * The exceptions that can leave the migration engine. `MigrationException`
 * carries several messages in the source; each message is a constructor here.
 */
module Exceptions {

  datatype Failure =
    /** The driver's InvalidQueryException: the statement names a table that does not exist. */
    | UnconfiguredTable
    /** "Migration metadata intialization failed": the history table was not created. */
    | MetadataInitFailed
    /** "Migration metadata lock table intialization failed". */
    | LockTableInitFailed
    /** "Failed to update migration metadata.": the history insert was not applied. */
    | UpdateFailed
    /** "Failed to release migration metadata lock.": no lock row was there to delete. */
    | ReleaseFailed
    /** The current-version query returned no row, so `rs.one()` is null (NullPointerException). */
    | NoCurrentVersionRow
    /** The loader of migration scripts threw an IOException. */
    | DiscoveryFailed
    /** `allMigrations.get(size - 1)` on an empty list (IndexOutOfBoundsException). */
    | NoMigrations
    /** A migration's own `migrate` threw a MigrationException. */
    | MigrationThrew(version: int)
    /** "Migration aborted": some migration reported failure. */
    | Aborted
}
