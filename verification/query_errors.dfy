/**
 * The query-layer error taxonomy (`QueryError`), its display texts and the
 * heuristic classifier that turns a driver error message into one of them.
 */
module QueryErrors {
  import opened Casts
  import opened Text

  datatype QueryError =
    | InvalidEmailFormat(email: string)
    | SyntaxError(detail: string)
    | ConstraintViolation(detail: string)
    | NoResults
    | MappingError(detail: string)
    | AffectedRowsMismatch(expected: U64, actual: U64)
    | ExecutionFailed(detail: string)
    | InvalidId(id: string)
    | InvalidPassword(email: string)
    | EmailNotFound(email: string)

  /** What the row-count error displays before its expected count. */
  const MISMATCH_HEADING: string := "Unexpected number of rows " + "affected. Expected "

  /**
   * The text each error displays as: its fixed heading, then the text it
   * carries (the two counts, for the row-count error).
   */
  function Display(e: QueryError): (d: string)
    ensures StartsWith(d, Heading(e))
    ensures !e.AffectedRowsMismatch? ==> d[|Heading(e)|..] == Payload(e)
    ensures e.AffectedRowsMismatch? ==>
      d[|Heading(e)|..] == NatToDecimal(e.expected) + ", got " + NatToDecimal(e.actual)
  {
    match e
    case InvalidEmailFormat(s) => "Invalid email format: " + s
    case SyntaxError(s) => "SQL syntax error: " + s
    case ConstraintViolation(s) => "Database constraint violation: " + s
    case NoResults => "No results found for the given criteria"
    case MappingError(s) => "Data mapping error: " + s
    case AffectedRowsMismatch(expected, actual) =>
      MISMATCH_HEADING + NatToDecimal(expected) + ", got " + NatToDecimal(actual)
    case ExecutionFailed(s) => "Query execution failed: " + s
    case InvalidId(s) => "Invalid ID provided: " + s
    case InvalidPassword(s) => "Invalid password provided for email: " + s
    case EmailNotFound(s) => "Email not found: " + s
  }

  /** Phrase whose presence in a driver message signals a uniqueness violation. */
  const UNIQUE_PHRASE: string := "unique constraint"
  /** Phrase whose presence in a driver message signals a missing row. */
  const ZERO_ROWS_PHRASE: string := "0 rows"

  /**
   * Conversion of a driver error into a `QueryError`, by ordered substring
   * tests on the driver's message: the uniqueness phrase first, then the
   * missing-row phrase, and a generic execution failure otherwise.
   */
  function Classify(message: string): (e: QueryError)
    ensures e.ConstraintViolation? || e.NoResults? || e.ExecutionFailed?
    ensures e.ConstraintViolation? <==> Contains(message, UNIQUE_PHRASE)
    ensures e.NoResults? <==> !Contains(message, UNIQUE_PHRASE) && Contains(message, ZERO_ROWS_PHRASE)
    ensures !e.NoResults? ==> e.detail == message
  {
    if Contains(message, UNIQUE_PHRASE) then ConstraintViolation(message)
    else if Contains(message, ZERO_ROWS_PHRASE) then NoResults
    else ExecutionFailed(message)
  }

  /** The uniqueness test runs first: a message with both phrases is a constraint violation. */
  lemma UniqueConstraintWinsOverZeroRows(message: string)
    requires Contains(message, UNIQUE_PHRASE) && Contains(message, ZERO_ROWS_PHRASE)
    ensures Classify(message) == ConstraintViolation(message)
  {
  }

  /** A message with the missing-row phrase and no uniqueness phrase is `NoResults`. */
  lemma ZeroRowsAloneIsNoResults(message: string)
    requires !Contains(message, UNIQUE_PHRASE) && Contains(message, ZERO_ROWS_PHRASE)
    ensures Classify(message) == NoResults
  {
  }

  /** A message with neither phrase is a generic failure carrying the message. */
  lemma OtherMessageIsExecutionFailed(message: string)
    requires !Contains(message, UNIQUE_PHRASE) && !Contains(message, ZERO_ROWS_PHRASE)
    ensures Classify(message) == ExecutionFailed(message)
  {
  }

  lemma UniqueConstraintExample()
    ensures Classify("unique constraint broken after 0 rows") == ConstraintViolation("unique constraint broken after 0 rows")
  {
    ContainsAt("unique constraint broken after 0 rows", UNIQUE_PHRASE, 0);
  }

  lemma ZeroRowsExample()
    ensures Classify("query returned 0 rows") == NoResults
  {
    var m := "query returned 0 rows";
    assert m[15..21] == ZERO_ROWS_PHRASE;
    ContainsAt(m, ZERO_ROWS_PHRASE, 15);
    assert UNIQUE_PHRASE[2] == 'i';
    MissingCharNotContained(m, UNIQUE_PHRASE, 'i');
  }

  lemma OtherMessageExample()
    ensures Classify("syntax error") == ExecutionFailed("syntax error")
  {
    var m := "syntax error";
    assert UNIQUE_PHRASE[0] == 'u';
    MissingCharNotContained(m, UNIQUE_PHRASE, 'u');
    assert ZERO_ROWS_PHRASE[0] == '0';
    MissingCharNotContained(m, ZERO_ROWS_PHRASE, '0');
    OtherMessageIsExecutionFailed(m);
  }

  /** The row-count error names both counts, expected first. */
  lemma MismatchDisplayExample()
    ensures Display(AffectedRowsMismatch(1, 0)) == MISMATCH_HEADING + "1" + ", got " + "0"
  {
    assert NatToDecimal(1) == "1";
    assert NatToDecimal(0) == "0";
  }

  /** The email errors show the email verbatim after their heading. */
  lemma EmailErrorsShowEmail(email: string)
    ensures StartsWith(Display(InvalidEmailFormat(email)), "Invalid email format: ")
    ensures Display(InvalidEmailFormat(email))[|"Invalid email format: "|..] == email
    ensures StartsWith(Display(EmailNotFound(email)), "Email not found: ")
    ensures Display(EmailNotFound(email))[|"Email not found: "|..] == email
  {
  }

  /** The classifier never invents a query-specific error. */
  lemma ClassifyOnlyGenericKinds(message: string)
    ensures !Classify(message).InvalidId?
    ensures !Classify(message).InvalidPassword?
    ensures !Classify(message).EmailNotFound?
    ensures !Classify(message).MappingError?
    ensures !Classify(message).AffectedRowsMismatch?
    ensures !Classify(message).InvalidEmailFormat?
    ensures !Classify(message).SyntaxError?
  {
  }

  // ---------------------------------------------------------------------
  // Distinct errors display distinctly.

  /** A number per variant. */
  function Kind(e: QueryError): nat {
    match e
    case InvalidEmailFormat(_) => 0
    case SyntaxError(_) => 1
    case ConstraintViolation(_) => 2
    case NoResults => 3
    case MappingError(_) => 4
    case AffectedRowsMismatch(_, _) => 5
    case ExecutionFailed(_) => 6
    case InvalidId(_) => 7
    case InvalidPassword(_) => 8
    case EmailNotFound(_) => 9
  }

  /** Reads the variant back from the first nine characters of a displayed error. */
  function KindOfText(s: string): nat
    requires 9 <= |s|
  {
    if s[0] == 'I' then (if s[8] == 'e' then 0 else if s[8] == 'I' then 7 else 8)
    else if s[0] == 'S' then 1
    else if s[0] == 'D' then (if s[4] == 'b' then 2 else 4)
    else if s[0] == 'N' then 3
    else if s[0] == 'U' then 5
    else if s[0] == 'Q' then 6
    else 9
  }

  /** The fixed text a displayed error starts with. */
  function Heading(e: QueryError): string {
    match e
    case InvalidEmailFormat(_) => "Invalid email format: "
    case SyntaxError(_) => "SQL syntax error: "
    case ConstraintViolation(_) => "Database constraint violation: "
    case NoResults => "No results found for the given criteria"
    case MappingError(_) => "Data mapping error: "
    case AffectedRowsMismatch(_, _) => MISMATCH_HEADING
    case ExecutionFailed(_) => "Query execution failed: "
    case InvalidId(_) => "Invalid ID provided: "
    case InvalidPassword(_) => "Invalid password provided for email: "
    case EmailNotFound(_) => "Email not found: "
  }

  /** The caller-supplied text an error carries, empty for the variants without one. */
  function Payload(e: QueryError): string {
    match e
    case InvalidEmailFormat(s) => s
    case SyntaxError(s) => s
    case ConstraintViolation(s) => s
    case MappingError(s) => s
    case ExecutionFailed(s) => s
    case InvalidId(s) => s
    case InvalidPassword(s) => s
    case EmailNotFound(s) => s
    case _ => ""
  }

  lemma HeadingRevealsKind(e: QueryError)
    ensures 9 <= |Heading(e)|
    ensures KindOfText(Heading(e)) == Kind(e)
  {
    match e
    case InvalidEmailFormat(_) => assert Heading(e)[0] == 'I' && Heading(e)[8] == 'e';
    case SyntaxError(_) => assert Heading(e)[0] == 'S';
    case ConstraintViolation(_) => assert Heading(e)[0] == 'D' && Heading(e)[4] == 'b';
    case NoResults => assert Heading(e)[0] == 'N';
    case MappingError(_) => assert Heading(e)[0] == 'D' && Heading(e)[4] == ' ';
    case AffectedRowsMismatch(_, _) =>
      assert Heading(e)[0] == 'U';
    case ExecutionFailed(_) => assert Heading(e)[0] == 'Q';
    case InvalidId(_) => assert Heading(e)[0] == 'I' && Heading(e)[8] == 'I';
    case InvalidPassword(_) => assert Heading(e)[0] == 'I' && Heading(e)[8] == 'p';
    case EmailNotFound(_) => assert Heading(e)[0] == 'E';
  }

  lemma DisplayRevealsKind(e: QueryError)
    ensures 9 <= |Display(e)|
    ensures KindOfText(Display(e)) == Kind(e)
    ensures !e.AffectedRowsMismatch? ==> Display(e) == Heading(e) + Payload(e)
  {
    var h := Heading(e);
    assert 9 <= |h|;
    if e.AffectedRowsMismatch? {
      assert Display(e) == h + (NatToDecimal(e.expected) + ", got " + NatToDecimal(e.actual));
    } else {
      assert Display(e) == h + Payload(e);
    }
    HeadingRevealsKind(e);
    assert Display(e)[0] == h[0] && Display(e)[4] == h[4] && Display(e)[8] == h[8];
  }

  /** After its heading, the row-count text is the expected count, a comma, and the rest. */
  lemma MismatchSuffix(a: U64, b: U64)
    ensures Display(AffectedRowsMismatch(a, b))[|MISMATCH_HEADING|..]
         == NatToDecimal(a) + [','] + (" got " + NatToDecimal(b))
  {
    assert NatToDecimal(a) + ", got " + NatToDecimal(b) == NatToDecimal(a) + [','] + (" got " + NatToDecimal(b));
  }

  /** The numbers of an `AffectedRowsMismatch` are recoverable from its text. */
  lemma MismatchTextInjective(a: U64, b: U64, a': U64, b': U64)
    requires Display(AffectedRowsMismatch(a, b)) == Display(AffectedRowsMismatch(a', b'))
    ensures a == a' && b == b'
  {
    MismatchSuffix(a, b);
    MismatchSuffix(a', b');
    var x, x' := NatToDecimal(a), NatToDecimal(a');
    assert ',' !in x && ',' !in x' by {
      assert !IsDigit(',');
    }
    SplitAtSeparator(x, " got " + NatToDecimal(b), x', " got " + NatToDecimal(b'), ',');
    CommonPrefix(" got ", NatToDecimal(b), NatToDecimal(b'));
    NatToDecimalInjective(a, a');
    NatToDecimalInjective(b, b');
  }

  /** Two errors display identically exactly when they are the same error. */
  lemma DisplayInjective(e: QueryError, e': QueryError)
    ensures Display(e) == Display(e') <==> e == e'
  {
    if Display(e) == Display(e') {
      DisplayRevealsKind(e);
      DisplayRevealsKind(e');
      match e
      case AffectedRowsMismatch(a, b) =>
        MismatchTextInjective(a, b, e'.expected, e'.actual);
      case NoResults =>
      case _ =>
        CommonPrefix(Heading(e), Payload(e), Payload(e'));
    }
  }
}
