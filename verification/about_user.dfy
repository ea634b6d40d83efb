/**
 * Profile lookup by numeric id: five text columns read in a fixed order,
 * the first one that fails deciding the mapping error; a missing row is an
 * invalid id with a fixed text.
 */
module AboutUser {
  import opened Wrappers
  import opened Casts
  import opened Text
  import opened QueryErrors
  import opened QueryViews
  import opened QueryResults
  import opened Driver

  datatype Query = Query(id: U64)

  /** The columns read, in the order they are read. */
  const PROFILE_COLUMNS: seq<string> := ["first_name", "last_name", "email", "phone_number", "status"]

  /** Driver wording for a `query_one` that found no row or several. */
  const UNEXPECTED_ROWS_PHRASE: string := "unexpected number of rows"

  /** The fixed text of the invalid-id error this query reports. */
  const NOT_FOUND_TEXT: string := "User ID not found"

  /** The id as the statement receives it: `id as i32`, not the `i64` the comment beside it names. */
  function BoundId(q: Query): (b: I32)
    ensures (q.id - b) % TWO_32 == 0
    ensures q.id < 0x8000_0000 ==> b == q.id
  {
    U64ToI32(q.id)
  }

  /** The view's statement with the truncated id as its one parameter. */
  function CallOf(q: Query): (c: Call)
    ensures c.request == ViewStatement(AboutUserView(q.id))
    ensures c.params == [SqlInt4(BoundId(q))]
  {
    Call(ViewStatement(AboutUserView(q.id)), [SqlInt4(BoundId(q))])
  }

  /** Ids that agree modulo 2^32 bind the same parameter: the cast aliases them. */
  lemma BoundIdAliases(a: Query, b: Query)
    requires (a.id - b.id) % TWO_32 == 0
    ensures CallOf(a).params == CallOf(b).params
  {
    assert (a.id - BoundId(b)) % TWO_32 == 0 by {
      assert a.id - BoundId(b) == (a.id - b.id) + (b.id - BoundId(b));
    }
    U64ToI32Unique(a.id, BoundId(b));
  }

  function Reply(q: Query, db: Driver): DriverResult<Row> {
    db.queryOne(CallOf(q))
  }

  /** Reads the named text columns left to right; the first failure is the answer. */
  function ReadTexts(row: Row, names: seq<string>): (r: Result<seq<string>, string>)
    ensures r.Success? ==> |r.value| == |names|
    ensures r.Success? ==> forall i :: 0 <= i < |names| ==> GetText(row, Name(names[i])) == Success(r.value[i])
    ensures r.Success? <==> forall i :: 0 <= i < |names| ==> GetText(row, Name(names[i])).Success?
    ensures r.Failure? ==> exists k :: FirstFailureAt(row, names, k) && GetText(row, Name(names[k])).error == r.error
    decreases |names|
  {
    if |names| == 0 then Success([])
    else
      match GetText(row, Name(names[0]))
      case Failure(m) =>
        assert FirstFailureAt(row, names, 0);
        Failure(m)
      case Success(v) =>
        match ReadTexts(row, names[1..])
        case Failure(m) =>
          var k :| FirstFailureAt(row, names[1..], k) && GetText(row, Name(names[1..][k])).error == m;
          assert FirstFailureAt(row, names, k + 1);
          Failure(m)
        case Success(vs) =>
          assert forall i :: 1 <= i < |names| ==> names[i] == names[1..][i - 1];
          Success([v] + vs)
  }

  /** Column `names[k]` is the first of `names` that does not read as text. */
  predicate FirstFailureAt(row: Row, names: seq<string>, k: int) {
    && 0 <= k < |names|
    && GetText(row, Name(names[k])).Failure?
    && forall j :: 0 <= j < k ==> GetText(row, Name(names[j])).Success?
  }

  /** At most one column is the first to fail. */
  lemma FirstFailureUnique(row: Row, names: seq<string>, j: int, k: int)
    requires FirstFailureAt(row, names, j) && FirstFailureAt(row, names, k)
    ensures j == k
  {
  }

  /** The driver message says the statement found no row (or not exactly one). */
  predicate MissingRowMessage(message: string) {
    Contains(message, ZERO_ROWS_PHRASE) || Contains(message, UNEXPECTED_ROWS_PHRASE)
  }

  /** `AboutUserQuery::execute`. */
  function Execute(q: Query, db: Driver): (r: Result<UserProfile, QueryError>)
    ensures r.Success? <==> (Reply(q, db).DriverOk? &&
      forall i :: 0 <= i < |PROFILE_COLUMNS| ==> GetText(Reply(q, db).value, Name(PROFILE_COLUMNS[i])).Success?)
    // A profile holds the five columns unmodified.
    ensures r.Success? ==>
      var row := Reply(q, db).value;
      && GetText(row, Name("first_name")) == Success(r.value.firstName)
      && GetText(row, Name("last_name")) == Success(r.value.lastName)
      && GetText(row, Name("email")) == Success(r.value.email)
      && GetText(row, Name("phone_number")) == Success(r.value.phone)
      && GetText(row, Name("status")) == Success(r.value.status)
    // The first column that fails to read decides the mapping error.
    ensures Reply(q, db).DriverOk? && r.Failure? ==>
      r.error.MappingError? &&
      exists k :: FirstFailureAt(Reply(q, db).value, PROFILE_COLUMNS, k) &&
        GetText(Reply(q, db).value, Name(PROFILE_COLUMNS[k])).error == r.error.detail
    // A missing row is an invalid id with fixed text, tested before classification.
    ensures Reply(q, db).DriverErr? && MissingRowMessage(Reply(q, db).message) ==>
      r == Failure(InvalidId(NOT_FOUND_TEXT))
    ensures Reply(q, db).DriverErr? && !MissingRowMessage(Reply(q, db).message) ==>
      r == Failure(Classify(Reply(q, db).message))
    ensures !(r.Failure? && r.error.NoResults?)
  {
    match Reply(q, db)
    case DriverOk(row) =>
      (match ReadTexts(row, PROFILE_COLUMNS)
       case Success(v) => Success(UserProfile(v[0], v[1], v[2], v[3], v[4]))
       case Failure(m) => Failure(MappingError(m)))
    case DriverErr(m) =>
      if MissingRowMessage(m) then Failure(InvalidId(NOT_FOUND_TEXT))
      else Failure(Classify(m))
  }

  /** When a row comes back, the first column that fails to read decides the error. */
  lemma FailsAtFirstFailure(q: Query, db: Driver, k: int)
    requires Reply(q, db).DriverOk? && FirstFailureAt(Reply(q, db).value, PROFILE_COLUMNS, k)
    ensures Execute(q, db) == Failure(MappingError(GetText(Reply(q, db).value, Name(PROFILE_COLUMNS[k])).error))
  {
    var row := Reply(q, db).value;
    var r := Execute(q, db);
    assert r.Failure?;
    var j :| FirstFailureAt(row, PROFILE_COLUMNS, j) && GetText(row, Name(PROFILE_COLUMNS[j])).error == r.error.detail;
    FirstFailureUnique(row, PROFILE_COLUMNS, j, k);
  }

  /**
   * The missing-row test runs before the classifier, so a driver message
   * with the "0 rows" phrase is an invalid id even when it also carries the
   * uniqueness phrase the classifier would have made a constraint violation.
   */
  lemma MissingRowBeatsUniqueConstraint(q: Query, db: Driver)
    requires Reply(q, db).DriverErr? && Contains(Reply(q, db).message, ZERO_ROWS_PHRASE)
    ensures Execute(q, db) == Failure(InvalidId(NOT_FOUND_TEXT))
    ensures Contains(Reply(q, db).message, UNIQUE_PHRASE) ==>
      Classify(Reply(q, db).message) == ConstraintViolation(Reply(q, db).message)
  {
  }
}
