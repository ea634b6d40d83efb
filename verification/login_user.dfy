/**
 * Login: look the user up by email alone, then compare the stored password
 * in code. Three outcomes: the user id, a wrong password, an unknown email.
 */
module LoginUser {
  import opened Wrappers
  import opened Casts
  import opened QueryErrors
  import opened Driver
  import opened LoginUserView

  datatype Query = Query(view: LoginUserQueryView)

  /** `LoginUserQuery::new`. */
  function New(email: string, password: string): (q: Query)
    ensures q.view.email == email && q.view.password == password
  {
    Query(LoginUserView.New(email, password))
  }

  /** The fixed parameterised statement, with the email as its only parameter and no password. */
  function CallOf(q: Query): (c: Call)
    ensures c.request == Statement(LOGIN_SQL)
    ensures c.params == [SqlText(q.view.email)]
  {
    Call(Statement(GetRequest(q.view)), [SqlText(q.view.email)])
  }

  function Reply(q: Query, db: Driver): DriverResult<Option<Row>> {
    db.queryOpt(CallOf(q))
  }

  /** The row, when the driver found one. */
  predicate Found(q: Query, db: Driver) {
    Reply(q, db).DriverOk? && Reply(q, db).value.Some?
  }

  /** `LoginUserQuery::execute`. */
  function Execute(q: Query, db: Driver): (r: Result<U64, QueryError>)
    ensures r.Success? <==>
      && Found(q, db)
      && GetInt4(Reply(q, db).value.value, Name("id")).Success?
      && GetText(Reply(q, db).value.value, Name("password")) == Success(q.view.password)
    ensures r.Success? ==> r.value == I32ToU64(GetInt4(Reply(q, db).value.value, Name("id")).value)
    ensures r == Failure(InvalidPassword(q.view.email)) <==>
      && Found(q, db)
      && GetInt4(Reply(q, db).value.value, Name("id")).Success?
      && GetText(Reply(q, db).value.value, Name("password")).Success?
      && GetText(Reply(q, db).value.value, Name("password")).value != q.view.password
    ensures r == Failure(EmailNotFound(q.view.email)) <==> Reply(q, db) == DriverOk(None)
    // The id is read before the password.
    ensures Found(q, db) && GetInt4(Reply(q, db).value.value, Name("id")).Failure? ==>
      r == Failure(MappingError(GetInt4(Reply(q, db).value.value, Name("id")).error))
    ensures (Found(q, db) && GetInt4(Reply(q, db).value.value, Name("id")).Success? &&
      GetText(Reply(q, db).value.value, Name("password")).Failure?) ==>
      r == Failure(MappingError(GetText(Reply(q, db).value.value, Name("password")).error))
    ensures Reply(q, db).DriverErr? ==> r == Failure(Classify(Reply(q, db).message))
    // Every non-success is an error value of a known kind; no sentinel id.
    ensures r.Failure? ==>
      r.error in {InvalidPassword(q.view.email), EmailNotFound(q.view.email)} || r.error.MappingError? ||
      r.error.ConstraintViolation? || r.error.NoResults? || r.error.ExecutionFailed?
  {
    match Reply(q, db)
    case DriverOk(Some(row)) =>
      (match GetInt4(row, Name("id"))
       case Failure(m) => Failure(MappingError(m))
       case Success(userId) =>
         match GetText(row, Name("password"))
         case Failure(m) => Failure(MappingError(m))
         case Success(stored) =>
           if stored == q.view.password then Success(I32ToU64(userId))
           else Failure(InvalidPassword(q.view.email)))
    case DriverOk(None) => Failure(EmailNotFound(q.view.email))
    case DriverErr(m) => Failure(Classify(m))
  }

  /** The password never reaches the driver: two logins with the same email issue the same call. */
  lemma PasswordNotBound(email: string, password: string, password': string)
    ensures CallOf(New(email, password)) == CallOf(New(email, password'))
    ensures CallOf(New(email, password)).params == [SqlText(email)]
  {
  }
}
