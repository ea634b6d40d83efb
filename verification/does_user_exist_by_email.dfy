/**
 * Existence check by email: a purely syntactic `@` test before any I/O,
 * then a single-row statement whose first column is the answer.
 */
module DoesUserExistByEmail {
  import opened Wrappers
  import opened QueryErrors
  import opened QueryViews
  import opened Driver

  datatype Query = Query(email: string)

  /** The view's statement, executed with no bound parameters. */
  function CallOf(q: Query): (c: Call)
    ensures c.request == ViewStatement(ExistsByEmailView(q.email))
    ensures c.params == []
  {
    Call(ViewStatement(ExistsByEmailView(q.email)), [])
  }

  /** What `query_one` answers for this query's call. */
  function Reply(q: Query, db: Driver): DriverResult<Row> {
    db.queryOne(CallOf(q))
  }

  /** `DoesUserExistByEmailQuery::execute`. */
  function Execute(q: Query, db: Driver): (r: Result<bool, QueryError>)
    // The pre-check: without `@` the answer is fixed, whatever the driver would say.
    ensures '@' !in q.email ==> r == Failure(InvalidEmailFormat(q.email))
    ensures (r.Failure? && r.error.InvalidEmailFormat?) <==> '@' !in q.email
    // A row answers with exactly the boolean in its first column.
    ensures r.Success? <==> '@' in q.email && Reply(q, db).DriverOk? && GetBool(Reply(q, db).value, Index(0)).Success?
    ensures r.Success? ==> Lookup(Reply(q, db).value, Index(0)) == Some(Some(SqlBool(r.value)))
    ensures r.Failure? && r.error.MappingError? ==>
      Reply(q, db).DriverOk? && r.error.detail == GetBool(Reply(q, db).value, Index(0)).error
    ensures '@' in q.email && Reply(q, db).DriverOk? && r.Failure? ==>
      r.error == MappingError(GetBool(Reply(q, db).value, Index(0)).error)
    // A driver error goes through the classifier untouched.
    ensures '@' in q.email && Reply(q, db).DriverErr? ==> r == Failure(Classify(Reply(q, db).message))
  {
    if '@' !in q.email then
      Failure(InvalidEmailFormat(q.email))
    else
      match Reply(q, db)
      case DriverOk(row) =>
        (match GetBool(row, Index(0))
         case Success(exists_) => Success(exists_)
         case Failure(m) => Failure(MappingError(m)))
      case DriverErr(m) => Failure(Classify(m))
  }

  /** The malformed email of the test suite is rejected verbatim, before the driver is asked. */
  lemma RejectsInvalidEmail(db: Driver)
    ensures Execute(Query("invalid-email"), db) == Failure(InvalidEmailFormat("invalid-email"))
  {
    assert '@' !in "invalid-email";
  }
}
