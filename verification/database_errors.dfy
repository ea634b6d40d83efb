/** The connection-layer error taxonomy and the error a caller receives from the façade. */
module DatabaseErrors {
  import opened QueryErrors

  datatype DatabaseError =
    | ConnectionFailed(detail: string)
    | ConnectionClosed
    | NotInitialized
    | DriverError(detail: string)
    | ConfigError(detail: string)
    | Timeout
    | Internal(detail: string)

  /**
   * What an execution or connection call hands back on failure: a plain
   * message from the PostgreSQL interface, a `QueryError` from the query
   * itself, or a `DatabaseError` from the façade. A caller tells them apart
   * the way the source's callers downcast the boxed error.
   */
  datatype ExecutionError =
    | Message(text: string)
    | Query(queryError: QueryError)
    | Database(databaseError: DatabaseError)
}
