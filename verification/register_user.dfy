/**
 * Registration: run the view's insert statement and require exactly one
 * affected row.
 */
module RegisterUser {
  import opened Wrappers
  import opened Casts
  import opened QueryErrors
  import opened QueryViews
  import opened Driver

  datatype Query = Query(firstName: string, lastName: string, email: string, password: string, phone: Option<string>)

  /** `RegisterUserQuery::new`: all five inputs are kept as given, the phone included. */
  function New(first: string, last: string, email: string, password: string, phone: Option<string>): (q: Query)
    ensures q.firstName == first && q.lastName == last && q.email == email
    ensures q.password == password && q.phone == phone
  {
    Query(first, last, email, password, phone)
  }

  /** The view's insert statement, executed with an empty parameter list. */
  function CallOf(q: Query): (c: Call)
    ensures c.params == []
    ensures c.request.ViewStatement? && c.request.view.RegisterUserView?
    ensures c.request.view.firstName == q.firstName && c.request.view.lastName == q.lastName
    ensures c.request.view.email == q.email && c.request.view.password == q.password
    ensures c.request.view.phone == q.phone
  {
    Call(ViewStatement(RegisterUserView(q.firstName, q.lastName, q.email, q.password, q.phone)), [])
  }

  function Reply(q: Query, db: Driver): DriverResult<U64> {
    db.execute(CallOf(q))
  }

  /** `RegisterUserQuery::execute`. */
  function Execute(q: Query, db: Driver): (r: Result<(), QueryError>)
    ensures r.Success? <==> Reply(q, db) == DriverOk(1)
    ensures Reply(q, db).DriverOk? && r.Failure? ==>
      r.error == AffectedRowsMismatch(1, Reply(q, db).value) && Reply(q, db).value != 1
    ensures Reply(q, db).DriverErr? ==> r == Failure(Classify(Reply(q, db).message))
    ensures r.Failure? && r.error.AffectedRowsMismatch? ==> r.error.expected == 1 && r.error.actual != 1
  {
    match Reply(q, db)
    case DriverOk(n) => if n == 1 then Success(()) else Failure(AffectedRowsMismatch(1, n))
    case DriverErr(m) => Failure(Classify(m))
  }
}
