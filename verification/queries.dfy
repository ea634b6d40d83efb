/**
 * The closed set of query variants behind one execution entry point, and
 * the normalised result each produces (what `get_result` on its view gives).
 */
module Queries {
  import opened Wrappers
  import opened QueryErrors
  import opened QueryViews
  import opened QueryResults
  import opened Driver
  import DoesUserExistById
  import DoesUserExistByEmail
  import AboutUser
  import LoginUser
  import RegisterUser

  datatype Query =
    | ExistsById(byId: DoesUserExistById.Query)
    | ExistsByEmail(byEmail: DoesUserExistByEmail.Query)
    | About(about: AboutUser.Query)
    | Login(login: LoginUser.Query)
    | Register(register: RegisterUser.Query)

  /** The tag of the view each variant carries. */
  function TypeOf(q: Query): QueryType {
    match q
    case ExistsById(_) => DoesUserExistById
    case ExistsByEmail(_) => DoesUserExistByEmail
    case About(_) => AboutUser
    case Login(_) => LoginUser
    case Register(_) => RegisterUser
  }

  /** The shape of result a query of the given type produces. */
  predicate ShapeFits(t: QueryType, v: QueryResult) {
    match t
    case DoesUserExistById => v.Boolean?
    case DoesUserExistByEmail => v.Boolean?
    case AboutUser => v.Json?
    case LoginUser => v.U64?
    case RegisterUser => v == Completed(Success(()))
  }

  /** The error the variant's own `execute` reports, if it fails. */
  function ErrorOf(q: Query, db: Driver): Option<QueryError> {
    match q
    case ExistsById(x) => var r := DoesUserExistById.Execute(x, db); if r.Failure? then Some(r.error) else None
    case ExistsByEmail(x) => var r := DoesUserExistByEmail.Execute(x, db); if r.Failure? then Some(r.error) else None
    case About(x) => var r := AboutUser.Execute(x, db); if r.Failure? then Some(r.error) else None
    case Login(x) => var r := LoginUser.Execute(x, db); if r.Failure? then Some(r.error) else None
    case Register(x) => var r := RegisterUser.Execute(x, db); if r.Failure? then Some(r.error) else None
  }

  /** Runs a query against a connected client and normalises its result. */
  function Execute(q: Query, db: Driver): (r: Result<QueryResult, QueryError>)
    // The result shape is fixed by the variant.
    ensures r.Success? ==> ShapeFits(TypeOf(q), r.value)
    // Errors are the variant's own, passed on unchanged.
    ensures r.Failure? <==> ErrorOf(q, db).Some?
    ensures r.Failure? ==> r.error == ErrorOf(q, db).value
    // Payloads are the variant's own results.
    ensures q.ExistsById? && r.Success? ==> DoesUserExistById.Execute(q.byId, db) == Success(r.value.flag)
    ensures q.ExistsByEmail? && r.Success? ==> DoesUserExistByEmail.Execute(q.byEmail, db) == Success(r.value.flag)
    ensures q.About? && r.Success? ==> AboutUser.Execute(q.about, db) == Success(r.value.profile)
    ensures q.Login? && r.Success? ==> LoginUser.Execute(q.login, db) == Success(r.value.id)
  {
    match q
    case ExistsById(x) =>
      (match DoesUserExistById.Execute(x, db)
       case Success(b) => Success(Boolean(b))
       case Failure(e) => Failure(e))
    case ExistsByEmail(x) =>
      (match DoesUserExistByEmail.Execute(x, db)
       case Success(b) => Success(Boolean(b))
       case Failure(e) => Failure(e))
    case About(x) =>
      (match AboutUser.Execute(x, db)
       case Success(p) => Success(Json(p))
       case Failure(e) => Failure(e))
    case Login(x) =>
      (match LoginUser.Execute(x, db)
       case Success(id) => Success(U64(id))
       case Failure(e) => Failure(e))
    case Register(x) =>
      (match RegisterUser.Execute(x, db)
       case Success(_) => Success(Completed(Success(())))
       case Failure(e) => Failure(e))
  }
}
