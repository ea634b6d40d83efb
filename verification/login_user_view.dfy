/**
 * The login request view: the credentials a login query carries, the
 * parameterised SQL it runs, a raw SQL rendering with the email pasted in,
 * and a display text that never shows the password.
 */
module LoginUserView {
  import opened Text
  import opened QueryViews

  datatype LoginUserQueryView = LoginUserQueryView(email: string, password: string)

  /** `LoginUserQueryView::new`: stores both credentials. */
  function New(email: string, password: string): (v: LoginUserQueryView)
    ensures v.email == email && v.password == password
  {
    LoginUserQueryView(email, password)
  }

  const SELECT_CLAUSE: string := "SELECT id, password FROM users "

  /** The login statement: the email travels as bound parameter 1. */
  const LOGIN_SQL: string := SELECT_CLAUSE + "WHERE email = $1"

  /** What the raw rendering puts before the email. */
  const RAW_SQL_HEAD: string := SELECT_CLAUSE + "WHERE email = '"

  const DISPLAY_HEAD: string := "LoginUserQueryView: email = "
  const DISPLAY_TAIL: string := ", password = [PROTECTED]"

  /** `get_request`: the parameterised statement. */
  function GetRequest(v: LoginUserQueryView): (sql: string)
    ensures StartsWith(sql, "SELECT id, password FROM users ")
    ensures sql[|SELECT_CLAUSE|..] == "WHERE email = $1"
  {
    LOGIN_SQL
  }

  /** `get_raw_request`: the statement with the email pasted between quotes, unescaped. */
  function GetRawRequest(v: LoginUserQueryView): (sql: string)
    ensures |sql| == |RAW_SQL_HEAD| + |v.email| + 1
    ensures StartsWith(sql, RAW_SQL_HEAD)
    ensures sql[|RAW_SQL_HEAD|..|sql| - 1] == v.email
    ensures sql[|sql| - 1] == '\''
  {
    RAW_SQL_HEAD + v.email + "'"
  }

  /** `get_query_type`: every login view is tagged as a login. */
  function GetQueryType(v: LoginUserQueryView): (t: QueryType)
    ensures t == LoginUser
  {
    LoginUser
  }

  /** The `Display` text: the email, and a fixed marker in place of the password. */
  function Display(v: LoginUserQueryView): (d: string)
    ensures |d| == |DISPLAY_HEAD| + |v.email| + |DISPLAY_TAIL|
    ensures StartsWith(d, DISPLAY_HEAD)
    ensures d[|DISPLAY_HEAD|..|DISPLAY_HEAD| + |v.email|] == v.email
    ensures d[|DISPLAY_HEAD| + |v.email|..] == DISPLAY_TAIL
  {
    DISPLAY_HEAD + v.email + DISPLAY_TAIL
  }

  /** Every login view, whatever its credentials, asks the driver for the same statement. */
  lemma RequestIgnoresCredentials(v: LoginUserQueryView, v': LoginUserQueryView)
    ensures GetRequest(v) == GetRequest(v')
  {
  }

  /** Two raw renderings agree exactly when the emails agree: nothing else enters the text. */
  lemma RawRequestDeterminesEmail(v: LoginUserQueryView, v': LoginUserQueryView)
    ensures GetRawRequest(v) == GetRawRequest(v') <==> v.email == v'.email
  {
    if GetRawRequest(v) == GetRawRequest(v') {
      assert RAW_SQL_HEAD + (v.email + "'") == RAW_SQL_HEAD + (v'.email + "'");
      CommonPrefix(RAW_SQL_HEAD, v.email + "'", v'.email + "'");
      CommonSuffix(v.email, v'.email, "'");
    }
  }

  /** The raw rendering does no escaping: an injection-shaped email lands in the SQL verbatim. */
  lemma RawRequestOfInjectionText()
    ensures GetRawRequest(New("' OR 1=1 --", "any_password"))
         == "SELECT id, password FROM users " + "WHERE email = '' OR 1=1 --'"
  {
  }

  /** Views display identically exactly when their emails agree, whatever their passwords. */
  lemma DisplayHidesPassword(v: LoginUserQueryView, v': LoginUserQueryView)
    ensures Display(v) == Display(v') <==> v.email == v'.email
  {
    if Display(v) == Display(v') {
      assert Display(v) == DISPLAY_HEAD + (v.email + DISPLAY_TAIL);
      assert Display(v') == DISPLAY_HEAD + (v'.email + DISPLAY_TAIL);
      CommonPrefix(DISPLAY_HEAD, v.email + DISPLAY_TAIL, v'.email + DISPLAY_TAIL);
      CommonSuffix(v.email, v'.email, DISPLAY_TAIL);
    }
  }
}
