/**
 * Existence check by numeric id. The `u64` id is bound as an `i32`
 * (truncating cast), and a missing-row driver error is reported as an
 * invalid id carrying the truncated number.
 */
module DoesUserExistById {
  import opened Wrappers
  import opened Casts
  import opened Text
  import opened QueryErrors
  import opened QueryViews
  import opened Driver

  datatype Query = Query(id: U64)

  /** The id as the statement receives it: `id as i32`. */
  function BoundId(q: Query): (b: I32)
    ensures (q.id - b) % TWO_32 == 0
  {
    U64ToI32(q.id)
  }

  /** The view's statement with the truncated id as its one parameter. */
  function CallOf(q: Query): (c: Call)
    ensures c.request == ViewStatement(ExistsByIdView(q.id))
    ensures c.params == [SqlInt4(BoundId(q))]
  {
    Call(ViewStatement(ExistsByIdView(q.id)), [SqlInt4(BoundId(q))])
  }

  function Reply(q: Query, db: Driver): DriverResult<Row> {
    db.queryOne(CallOf(q))
  }

  /** `DoesUserExistByIdQuery::execute`. */
  function Execute(q: Query, db: Driver): (r: Result<bool, QueryError>)
    ensures r.Success? <==> Reply(q, db).DriverOk? && GetBool(Reply(q, db).value, Index(0)).Success?
    ensures r.Success? ==> Lookup(Reply(q, db).value, Index(0)) == Some(Some(SqlBool(r.value)))
    ensures Reply(q, db).DriverOk? && r.Failure? ==>
      r.error == MappingError(GetBool(Reply(q, db).value, Index(0)).error)
    // The missing-row test comes before classification and names the truncated id.
    ensures Reply(q, db).DriverErr? && Contains(Reply(q, db).message, ZERO_ROWS_PHRASE) ==>
      r == Failure(InvalidId(IntToDecimal(BoundId(q))))
    ensures Reply(q, db).DriverErr? && !Contains(Reply(q, db).message, ZERO_ROWS_PHRASE) ==>
      r == Failure(Classify(Reply(q, db).message))
    ensures !(r.Failure? && r.error.NoResults?)
  {
    match Reply(q, db)
    case DriverOk(row) =>
      (match GetBool(row, Index(0))
       case Success(exists_) => Success(exists_)
       case Failure(m) => Failure(MappingError(m)))
    case DriverErr(m) =>
      if Contains(m, ZERO_ROWS_PHRASE) then Failure(InvalidId(IntToDecimal(BoundId(q))))
      else Failure(Classify(m))
  }

  /** Ids beyond the `i32` range wrap: 2^32 + 7 is bound, and reported, as 7; 2^32 - 1 as -1. */
  lemma InvalidIdNamesTruncatedId(db: Driver)
    requires Reply(Query(0x1_0000_0007), db).DriverErr?
    requires Contains(Reply(Query(0x1_0000_0007), db).message, ZERO_ROWS_PHRASE)
    requires Reply(Query(0xFFFF_FFFF), db).DriverErr?
    requires Contains(Reply(Query(0xFFFF_FFFF), db).message, ZERO_ROWS_PHRASE)
    ensures CallOf(Query(0x1_0000_0007)).params == [SqlInt4(7)]
    ensures Execute(Query(0x1_0000_0007), db) == Failure(InvalidId("7"))
    ensures Execute(Query(0xFFFF_FFFF), db) == Failure(InvalidId("-1"))
  {
    assert BoundId(Query(0x1_0000_0007)) == 7;
    assert BoundId(Query(0xFFFF_FFFF)) == -1;
    assert NatToDecimal(1) == "1";
    assert IntToDecimal(-1) == "-" + NatToDecimal(1) == "-1";
    assert IntToDecimal(BoundId(Query(0xFFFF_FFFF))) == "-1";
  }
}
