/**
 * The existence helper used by request handlers: asks the façade whether a
 * user id exists and folds every failure into `false`.
 */
module UserExistsById {
  import opened Wrappers
  import opened Casts
  import opened QueryResults
  import Queries
  import ById = DoesUserExistById
  import DbInterface

  /** `does_user_exist_by_id`. */
  function DoesUserExistById(p: DbInterface.Process, id: U64): (b: bool)
    // True exactly when a façade is installed, a client is connected, and
    // the by-id query (on the truncated id) answers true.
    ensures b <==>
      && p.db.Some?
      && p.pg.Some?
      && p.pg.value.client.Some?
      && ById.Execute(ById.Query(id), p.pg.value.client.value) == Success(true)
    ensures p.db.None? ==> !b
  {
    match p.db
    case None => false
    case Some(_) =>
      match DbInterface.ExecuteQuery(p, Queries.ExistsById(ById.Query(id)))
      case Failure(_) => false
      case Success(r) => BooleanOf(r)
  }
}
