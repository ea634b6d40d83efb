/**
 * The database driver, reduced to what the queries observe: a row is an
 * ordered list of named columns, each holding a value or SQL NULL; a call
 * is a request plus its bound parameters; and each of the three driver
 * entry points (`query_one`, `query_opt`, `execute`) answers a call with a
 * value or an error message.
 */
module Driver {
  import opened Wrappers
  import opened Casts
  import opened Text
  import opened QueryViews

  datatype SqlValue = SqlBool(b: bool) | SqlInt4(i: I32) | SqlText(text: string)

  /** `value == None` is SQL NULL. */
  datatype Column = Column(name: string, value: Option<SqlValue>)

  datatype Row = Row(columns: seq<Column>)

  /** How `try_get` names a column: by position or by name. */
  datatype ColumnRef = Index(index: nat) | Name(name: string)

  /** The statement handed to the driver: literal SQL, or the statement a view produces. */
  datatype Request = Statement(sql: string) | ViewStatement(view: QueryView)

  datatype Call = Call(request: Request, params: seq<SqlValue>)

  datatype DriverResult<+T> = DriverOk(value: T) | DriverErr(message: string)

  /** A connected client, as the three entry points the queries use. */
  datatype Driver = Driver(
    queryOne: Call -> DriverResult<Row>,
    queryOpt: Call -> DriverResult<Option<Row>>,
    execute: Call -> DriverResult<U64>)

  /** Position of the first column called `name`, if any (the driver resolves names left to right). */
  function FirstNamed(columns: seq<Column>, name: string): (k: Option<nat>)
    ensures k.Some? ==> k.value < |columns| && columns[k.value].name == name
    ensures k.Some? ==> forall j :: 0 <= j < k.value ==> columns[j].name != name
    ensures k.None? ==> forall j :: 0 <= j < |columns| ==> columns[j].name != name
  {
    if |columns| == 0 then None
    else if columns[0].name == name then Some(0)
    else match FirstNamed(columns[1..], name)
      case None => None
      case Some(j) => Some(j + 1)
  }

  /** A name resolves to its first occurrence. */
  lemma FirstNamedAt(columns: seq<Column>, name: string, k: nat)
    requires k < |columns| && columns[k].name == name
    requires forall j :: 0 <= j < k ==> columns[j].name != name
    ensures FirstNamed(columns, name) == Some(k)
  {
  }

  /** The column a reference designates: `None` when there is none, `Some(None)` when it holds NULL. */
  function Lookup(row: Row, ref: ColumnRef): Option<Option<SqlValue>> {
    match ref
    case Index(i) => if i < |row.columns| then Some(row.columns[i].value) else None
    case Name(n) =>
      match FirstNamed(row.columns, n)
      case None => None
      case Some(k) => Some(row.columns[k].value)
  }

  function RefText(ref: ColumnRef): string {
    match ref
    case Index(i) => NatToDecimal(i)
    case Name(n) => n
  }

  /**
   * The text of a failed extraction. It stands in for the driver's own
   * message; queries only pass it on.
   */
  function ExtractionMessage(ref: ColumnRef, found: Option<Option<SqlValue>>): string {
    match found
    case None => "invalid column `" + RefText(ref) + "`"
    case Some(None) => "error deserializing column " + RefText(ref) + ": unexpected NULL"
    case Some(Some(_)) => "error deserializing column " + RefText(ref) + ": wrong type"
  }

  /** `row.try_get::<bool>(ref)`. */
  function GetBool(row: Row, ref: ColumnRef): (r: Result<bool, string>)
    ensures r.Success? <==> Lookup(row, ref).Some? && Lookup(row, ref).value.Some? && Lookup(row, ref).value.value.SqlBool?
    ensures r.Success? ==> Lookup(row, ref) == Some(Some(SqlBool(r.value)))
    ensures r.Failure? ==> r.error == ExtractionMessage(ref, Lookup(row, ref))
  {
    match Lookup(row, ref)
    case Some(Some(SqlBool(b))) => Success(b)
    case found => Failure(ExtractionMessage(ref, found))
  }

  /** `row.try_get::<i32>(ref)`. */
  function GetInt4(row: Row, ref: ColumnRef): (r: Result<I32, string>)
    ensures r.Success? <==> Lookup(row, ref).Some? && Lookup(row, ref).value.Some? && Lookup(row, ref).value.value.SqlInt4?
    ensures r.Success? ==> Lookup(row, ref) == Some(Some(SqlInt4(r.value)))
    ensures r.Failure? ==> r.error == ExtractionMessage(ref, Lookup(row, ref))
  {
    match Lookup(row, ref)
    case Some(Some(SqlInt4(i))) => Success(i)
    case found => Failure(ExtractionMessage(ref, found))
  }

  /** `row.try_get::<&str>(ref)` (and `String`): NULL does not convert. */
  function GetText(row: Row, ref: ColumnRef): (r: Result<string, string>)
    ensures r.Success? <==> Lookup(row, ref).Some? && Lookup(row, ref).value.Some? && Lookup(row, ref).value.value.SqlText?
    ensures r.Success? ==> Lookup(row, ref) == Some(Some(SqlText(r.value)))
    ensures r.Failure? ==> r.error == ExtractionMessage(ref, Lookup(row, ref))
  {
    match Lookup(row, ref)
    case Some(Some(SqlText(s))) => Success(s)
    case found => Failure(ExtractionMessage(ref, found))
  }
}
