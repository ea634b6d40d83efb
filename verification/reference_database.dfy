/**
 * An idealised users table and a driver that answers each query's
 * statement as the statement's name describes (existence by id or email,
 * profile by id, credentials by email, insert). It is a reference against
 * which the query layer's end-to-end behaviour is stated; the statement
 * texts of the views it stands for are not part of this model.
 */
module ReferenceDatabase {
  import opened Wrappers
  import opened Casts
  import opened Text
  import opened QueryErrors
  import opened QueryViews
  import opened QueryResults
  import opened Driver
  import LoginUserView
  import ById = DoesUserExistById
  import ByEmail = DoesUserExistByEmail
  import AboutUser
  import LoginUser
  import RegisterUser

  /** One row of the users table; nullable columns are `Option`s. */
  datatype User = User(
    id: I32, firstName: string, lastName: string, email: string, password: string,
    phone: Option<string>, status: Option<string>)

  type Table = seq<User>

  /** Emails are unique, as the table's UNIQUE constraint demands. */
  predicate UniqueEmails(t: Table) {
    forall i, j :: 0 <= i < j < |t| ==> t[i].email != t[j].email
  }

  function FindById(t: Table, id: I32): (u: Option<User>)
    ensures u.Some? ==> u.value in t && u.value.id == id
    ensures u.None? ==> forall i :: 0 <= i < |t| ==> t[i].id != id
  {
    if |t| == 0 then None else if t[0].id == id then Some(t[0]) else FindById(t[1..], id)
  }

  function FindByEmail(t: Table, email: string): (u: Option<User>)
    ensures u.Some? ==> u.value in t && u.value.email == email
    ensures u.None? ==> forall i :: 0 <= i < |t| ==> t[i].email != email
  {
    if |t| == 0 then None else if t[0].email == email then Some(t[0]) else FindByEmail(t[1..], email)
  }

  /** What the server says when an insert repeats an email. */
  const DUPLICATE_EMAIL_MESSAGE: string :=
    "duplicate key value violates " + UNIQUE_PHRASE + " \"users_email_key\""
  /** What the driver says when `query_one` finds no row. */
  const NO_ROW_MESSAGE: string := "query returned an " + AboutUser.UNEXPECTED_ROWS_PHRASE
  const UNSUPPORTED_MESSAGE: string := "statement not understood"

  function Nullable(v: Option<string>): Option<SqlValue> {
    match v
    case None => None
    case Some(s) => Some(SqlText(s))
  }

  function ExistsRow(b: bool): Row {
    Row([Column("exists", Some(SqlBool(b)))])
  }

  function ProfileRow(u: User): Row {
    Row([Column("first_name", Some(SqlText(u.firstName))),
         Column("last_name", Some(SqlText(u.lastName))),
         Column("email", Some(SqlText(u.email))),
         Column("phone_number", Nullable(u.phone)),
         Column("status", Nullable(u.status))])
  }

  function CredentialsRow(u: User): Row {
    Row([Column("id", Some(SqlInt4(u.id))), Column("password", Some(SqlText(u.password)))])
  }

  function AnswerOne(t: Table, c: Call): DriverResult<Row> {
    match c.request
    case ViewStatement(ExistsByIdView(_)) =>
      if |c.params| == 1 && c.params[0].SqlInt4? then DriverOk(ExistsRow(FindById(t, c.params[0].i).Some?))
      else DriverErr(UNSUPPORTED_MESSAGE)
    case ViewStatement(ExistsByEmailView(email)) => DriverOk(ExistsRow(FindByEmail(t, email).Some?))
    case ViewStatement(AboutUserView(_)) =>
      if |c.params| == 1 && c.params[0].SqlInt4? then
        match FindById(t, c.params[0].i)
        case Some(u) => DriverOk(ProfileRow(u))
        case None => DriverErr(NO_ROW_MESSAGE)
      else DriverErr(UNSUPPORTED_MESSAGE)
    case _ => DriverErr(UNSUPPORTED_MESSAGE)
  }

  function AnswerOpt(t: Table, c: Call): DriverResult<Option<Row>> {
    if c.request == Statement(LoginUserView.LOGIN_SQL) && |c.params| == 1 && c.params[0].SqlText? then
      match FindByEmail(t, c.params[0].text)
      case Some(u) => DriverOk(Some(CredentialsRow(u)))
      case None => DriverOk(None)
    else DriverErr(UNSUPPORTED_MESSAGE)
  }

  function AnswerExecute(t: Table, c: Call): DriverResult<U64> {
    match c.request
    case ViewStatement(RegisterUserView(_, _, email, _, _)) =>
      if FindByEmail(t, email).Some? then DriverErr(DUPLICATE_EMAIL_MESSAGE) else DriverOk(1)
    case _ => DriverErr(UNSUPPORTED_MESSAGE)
  }

  /** A client connected to a database holding `t`. */
  function AsDriver(t: Table): Driver {
    Driver((c: Call) => AnswerOne(t, c), (c: Call) => AnswerOpt(t, c), (c: Call) => AnswerExecute(t, c))
  }

  /** The table after a successful registration: a new row with the next serial id and no status. */
  function Insert(t: Table, q: RegisterUser.Query): Table
    requires |t| + 1 < 0x8000_0000
  {
    t + [User(|t| + 1, q.firstName, q.lastName, q.email, q.password, q.phone, None)]
  }

  // ---------------------------------------------------------------------
  // The query layer against the reference database

  /** Existence by id answers whether a row has the truncated id. */
  lemma ExistsByIdAgainstTable(t: Table, id: U64)
    ensures ById.Execute(ById.Query(id), AsDriver(t)) == Success(FindById(t, U64ToI32(id)).Some?)
  {
  }

  /** Existence by email answers whether a row has the email, once the email contains `@`. */
  lemma ExistsByEmailAgainstTable(t: Table, email: string)
    requires '@' in email
    ensures ByEmail.Execute(ByEmail.Query(email), AsDriver(t)) == Success(FindByEmail(t, email).Some?)
  {
  }

  /** Login: the stored id for the right password, a typed error otherwise, never a sentinel id. */
  lemma LoginAgainstTable(t: Table, email: string, password: string)
    ensures FindByEmail(t, email).None? ==>
      LoginUser.Execute(LoginUser.New(email, password), AsDriver(t)) == Failure(EmailNotFound(email))
    ensures FindByEmail(t, email).Some? && FindByEmail(t, email).value.password == password ==>
      LoginUser.Execute(LoginUser.New(email, password), AsDriver(t)) == Success(I32ToU64(FindByEmail(t, email).value.id))
    ensures FindByEmail(t, email).Some? && FindByEmail(t, email).value.password != password ==>
      LoginUser.Execute(LoginUser.New(email, password), AsDriver(t)) == Failure(InvalidPassword(email))
  {
    var q := LoginUser.New(email, password);
    assert LoginUser.CallOf(q) == Call(Statement(LoginUserView.LOGIN_SQL), [SqlText(email)]);
    match FindByEmail(t, email)
    case None =>
    case Some(u) =>
      var row := CredentialsRow(u);
      assert FirstNamed(row.columns, "id") == Some(0);
      assert FirstNamed(row.columns, "password") == Some(1);
  }

  lemma NoRowMessageMeansMissingRow()
    ensures AboutUser.MissingRowMessage(NO_ROW_MESSAGE)
  {
    assert NO_ROW_MESSAGE[18..18 + |AboutUser.UNEXPECTED_ROWS_PHRASE|] == AboutUser.UNEXPECTED_ROWS_PHRASE;
    ContainsAt(NO_ROW_MESSAGE, AboutUser.UNEXPECTED_ROWS_PHRASE, 18);
  }

  /** What each of the five profile columns of a stored user reads as. */
  lemma ProfileRowTexts(u: User)
    ensures GetText(ProfileRow(u), Name("first_name")) == Success(u.firstName)
    ensures GetText(ProfileRow(u), Name("last_name")) == Success(u.lastName)
    ensures GetText(ProfileRow(u), Name("email")) == Success(u.email)
    ensures GetText(ProfileRow(u), Name("phone_number")).Success? <==> u.phone.Some?
    ensures u.phone.Some? ==> GetText(ProfileRow(u), Name("phone_number")) == Success(u.phone.value)
    ensures u.phone.None? ==>
      GetText(ProfileRow(u), Name("phone_number")) == Failure(ExtractionMessage(Name("phone_number"), Some(None)))
    ensures GetText(ProfileRow(u), Name("status")).Success? <==> u.status.Some?
    ensures u.status.Some? ==> GetText(ProfileRow(u), Name("status")) == Success(u.status.value)
    ensures u.status.None? ==>
      GetText(ProfileRow(u), Name("status")) == Failure(ExtractionMessage(Name("status"), Some(None)))
  {
    var row := ProfileRow(u);
    FirstNamedAt(row.columns, "first_name", 0);
    FirstNamedAt(row.columns, "last_name", 1);
    FirstNamedAt(row.columns, "email", 2);
    FirstNamedAt(row.columns, "phone_number", 3);
    FirstNamedAt(row.columns, "status", 4);
  }

  /** A stored user with no NULL column reads back as its five fields. */
  lemma AboutOfFullProfileRow(q: AboutUser.Query, db: Driver, u: User)
    requires AboutUser.Reply(q, db) == DriverOk(ProfileRow(u))
    requires u.phone.Some? && u.status.Some?
    ensures AboutUser.Execute(q, db) == Success(UserProfile(u.firstName, u.lastName, u.email, u.phone.value, u.status.value))
  {
    ProfileRowTexts(u);
  }

  /** A stored user with a NULL column fails on the first NULL one. */
  lemma AboutOfNullColumn(q: AboutUser.Query, db: Driver, u: User, first: nat)
    requires AboutUser.Reply(q, db) == DriverOk(ProfileRow(u))
    requires first == 3 ==> u.phone.None?
    requires first == 4 ==> u.phone.Some? && u.status.None?
    requires first == 3 || first == 4
    ensures AboutUser.Execute(q, db)
         == Failure(MappingError(ExtractionMessage(Name(AboutUser.PROFILE_COLUMNS[first]), Some(None))))
  {
    var row := ProfileRow(u);
    var cols := AboutUser.PROFILE_COLUMNS;
    ProfileRowTexts(u);
    assert cols[0] == "first_name" && cols[1] == "last_name" && cols[2] == "email";
    assert cols[3] == "phone_number" && cols[4] == "status";
    assert forall j :: 0 <= j < 3 ==> GetText(row, Name(cols[j])).Success? by {
      forall j | 0 <= j < 3 ensures GetText(row, Name(cols[j])).Success? {
        assert j == 0 || j == 1 || j == 2;
      }
    }
    assert AboutUser.FirstFailureAt(row, cols, first);
    AboutUser.FailsAtFirstFailure(q, db, first);
  }

  /**
   * Profile lookup returns the five stored fields unmodified; an absent id
   * is an invalid id; a stored NULL phone or status is a mapping error naming
   * the first NULL column.
   */
  lemma AboutAgainstTable(t: Table, id: U64)
    ensures FindById(t, U64ToI32(id)).None? ==>
      AboutUser.Execute(AboutUser.Query(id), AsDriver(t)) == Failure(InvalidId(AboutUser.NOT_FOUND_TEXT))
    ensures FindById(t, U64ToI32(id)).Some? ==>
      var u := FindById(t, U64ToI32(id)).value;
      && (u.phone.Some? && u.status.Some? ==>
           AboutUser.Execute(AboutUser.Query(id), AsDriver(t))
             == Success(UserProfile(u.firstName, u.lastName, u.email, u.phone.value, u.status.value)))
      && (u.phone.None? ==>
           AboutUser.Execute(AboutUser.Query(id), AsDriver(t))
             == Failure(MappingError(ExtractionMessage(Name("phone_number"), Some(None)))))
      && (u.phone.Some? && u.status.None? ==>
           AboutUser.Execute(AboutUser.Query(id), AsDriver(t))
             == Failure(MappingError(ExtractionMessage(Name("status"), Some(None)))))
  {
    var q := AboutUser.Query(id);
    match FindById(t, U64ToI32(id))
    case None =>
      NoRowMessageMeansMissingRow();
    case Some(u) =>
      assert AboutUser.Reply(q, AsDriver(t)) == DriverOk(ProfileRow(u));
      if u.phone.Some? && u.status.Some? {
        AboutOfFullProfileRow(q, AsDriver(t), u);
      } else if u.phone.None? {
        AboutOfNullColumn(q, AsDriver(t), u, 3);
      } else {
        AboutOfNullColumn(q, AsDriver(t), u, 4);
      }
  }

  lemma DuplicateMessageIsConstraintViolation()
    ensures Classify(DUPLICATE_EMAIL_MESSAGE) == ConstraintViolation(DUPLICATE_EMAIL_MESSAGE)
  {
    assert DUPLICATE_EMAIL_MESSAGE[29..29 + |UNIQUE_PHRASE|] == UNIQUE_PHRASE;
    ContainsAt(DUPLICATE_EMAIL_MESSAGE, UNIQUE_PHRASE, 29);
  }

  /** Registration succeeds for a fresh email and is a constraint violation for a taken one. */
  lemma RegisterAgainstTable(t: Table, q: RegisterUser.Query)
    ensures FindByEmail(t, q.email).None? ==> RegisterUser.Execute(q, AsDriver(t)) == Success(())
    ensures FindByEmail(t, q.email).Some? ==>
      RegisterUser.Execute(q, AsDriver(t)) == Failure(ConstraintViolation(DUPLICATE_EMAIL_MESSAGE))
  {
    if FindByEmail(t, q.email).Some? {
      DuplicateMessageIsConstraintViolation();
    }
  }

  lemma {:induction false} FindByEmailAppend(t: Table, u: User, email: string)
    ensures FindByEmail(t + [u], email).Some? <==> FindByEmail(t, email).Some? || u.email == email
    decreases |t|
  {
    if |t| != 0 {
      assert (t + [u])[1..] == t[1..] + [u];
      FindByEmailAppend(t[1..], u, email);
    }
  }

  /** After registering a fresh email, existence by that email answers true. */
  lemma RegisterThenExists(t: Table, q: RegisterUser.Query)
    requires |t| + 1 < 0x8000_0000
    requires '@' in q.email
    requires RegisterUser.Execute(q, AsDriver(t)).Success?
    ensures ByEmail.Execute(ByEmail.Query(q.email), AsDriver(Insert(t, q))) == Success(true)
  {
    FindByEmailAppend(t, User(|t| + 1, q.firstName, q.lastName, q.email, q.password, q.phone, None), q.email);
  }

  /**
   * Registration does not check the email's form, but existence by email
   * does: a fresh email without `@` registers, and is then rejected.
   */
  lemma RegisterThenRejectsEmailWithoutAt(t: Table, q: RegisterUser.Query)
    requires |t| + 1 < 0x8000_0000
    requires FindByEmail(t, q.email).None?
    requires '@' !in q.email
    ensures RegisterUser.Execute(q, AsDriver(t)) == Success(())
    ensures ByEmail.Execute(ByEmail.Query(q.email), AsDriver(Insert(t, q))) == Failure(InvalidEmailFormat(q.email))
  {
    RegisterAgainstTable(t, q);
  }

  /** The instance: "bob" registers in an empty table, then is not a valid email. */
  lemma RegisterThenRejectsBob()
    ensures
      var q := RegisterUser.New("Bob", "B", "bob", "pw", Some("1"));
      && RegisterUser.Execute(q, AsDriver([])) == Success(())
      && ByEmail.Execute(ByEmail.Query("bob"), AsDriver(Insert([], q))) == Failure(InvalidEmailFormat("bob"))
  {
    RegisterThenRejectsEmailWithoutAt([], RegisterUser.New("Bob", "B", "bob", "pw", Some("1")));
  }

  /** A successful registration keeps the table's emails unique. */
  lemma RegisterKeepsEmailsUnique(t: Table, q: RegisterUser.Query)
    requires |t| + 1 < 0x8000_0000
    requires UniqueEmails(t)
    requires RegisterUser.Execute(q, AsDriver(t)).Success?
    ensures UniqueEmails(Insert(t, q))
  {
    assert FindByEmail(t, q.email).None? by {
      if FindByEmail(t, q.email).Some? {
        RegisterAgainstTable(t, q);
      }
    }
  }
}
