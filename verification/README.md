# PostgreSQL query layer of mairie360 API_lib, in Dafny

This project models the PostgreSQL query layer of the `mairie360_api_lib` crate:

- the classifier that turns a driver error message into a `QueryError`, and the error texts;
- the five queries (user exists by id, user exists by email, about user, login, register).
  For each one, the model gives the bound parameters it sends and how it reads the driver's reply;
- the login query view, with its parameterised statement, its "raw" statement and its redacted display;
- the `PostgreInterface` state: the lazily created global slot, `connect` (which builds the
  connection string), `disconnect`, and `execute_query` with and without a client;
- the `DbInterface` façade over the global slot, and its `init_db_interface`;
- the `does_user_exist_by_id` helper.

The driver (`tokio_postgres`) is a value of type `Driver.Driver`: a record of three functions,
`queryOne`, `queryOpt` and `execute`. Each maps a `Call` (a statement and its bound parameters)
to a row, an optional row or an affected-row count, or to an error message. Every query is a pure
function of its parameters and a driver. The global mutex-protected slots become an explicit
`DbInterface.Process` value, which is threaded through `Step`/`Run`.

`ReferenceDatabase` is an in-memory `users` table. It answers each statement as the statement's
name describes, and it is used to state what the queries compute against real contents.
`TestScenario` replays the integration tests against a table that holds Alice, the seeded user.

Modules, in dependency order:

- `Wrappers`, `Text`, `Casts`: option/result types; substring search and decimal rendering; Rust's `u64 as i32` and `i32 as u64`.
- `QueryErrors`, `DatabaseErrors`: the error enums, their display texts and the classifier.
- `QueryViews`, `Driver`, `QueryResults`: statement descriptors, rows and typed column reads, and result views.
- `LoginUserView`, `DoesUserExistById`, `DoesUserExistByEmail`, `AboutUser`, `LoginUser`, `RegisterUser`, `Queries`: the views and queries.
- `PostgreInterface`, `DbInterface`, `UserExistsById`: the interface, the façade and the helper.
- `ReferenceDatabase`, `TestScenario`: the reference table and the test scenario.

## Model

| member | source | states |
|---|---|---|
| QueryErrors.Classify | src/database/postgresql/queries/errors.rs:48-58 | The result is a constraint violation exactly when the message contains "unique constraint". It is `NoResults` exactly when the message lacks that phrase but contains "0 rows". Otherwise it is a generic execution failure. Every result other than `NoResults` carries the whole message. |
| QueryErrors.UniqueConstraintWinsOverZeroRows | src/database/postgresql/queries/errors.rs:51-54 | For every message that contains both phrases, the unique-constraint test wins because it is checked first. |
| QueryErrors.ZeroRowsAloneIsNoResults | src/database/postgresql/queries/errors.rs:53-54 | Every message that contains "0 rows" but not "unique constraint" classifies as `NoResults`. |
| QueryErrors.OtherMessageIsExecutionFailed | src/database/postgresql/queries/errors.rs:55-56 | Every message with neither phrase becomes `ExecutionFailed`, carrying the message unchanged. |
| QueryErrors.UniqueConstraintExample | src/database/postgresql/queries/errors.rs:51-52 | For the message "unique constraint broken after 0 rows", the result is a constraint violation. |
| QueryErrors.ZeroRowsExample | src/database/postgresql/queries/errors.rs:53-54 | For the message "query returned 0 rows", the result is `NoResults`. |
| QueryErrors.OtherMessageExample | src/database/postgresql/queries/errors.rs:55-56 | For the message "syntax error", the result is `ExecutionFailed("syntax error")`. |
| QueryErrors.ClassifyOnlyGenericKinds | src/database/postgresql/queries/errors.rs:48-58 | The classifier never produces any of the seven query-specific error kinds. |
| QueryErrors.MismatchDisplayExample | src/database/postgresql/queries/errors.rs:26-27 | The affected-rows error renders as "Unexpected number of rows affected. Expected 1, got 0". |
| QueryErrors.Display | src/database/postgresql/queries/errors.rs:4-44 | Every error's text starts with its variant's fixed heading. After the heading comes the text the error carries, or the two counts ("E, got A") for the row-count error. |
| QueryErrors.EmailErrorsShowEmail | src/database/postgresql/queries/errors.rs:6-7 | For every email, the invalid-format error shows its prefix followed by the email verbatim. The not-found error at lines 41-43 does the same. |
| QueryErrors.HeadingRevealsKind | src/database/postgresql/queries/errors.rs:4-44 | The ten fixed display prefixes differ from each other within their first nine characters. |
| QueryErrors.DisplayRevealsKind | src/database/postgresql/queries/errors.rs:4-44 | The error kind can be read back from the first nine characters of any rendered error. |
| QueryErrors.MismatchTextInjective | src/database/postgresql/queries/errors.rs:26-27 | Two affected-rows errors with the same text have the same expected and actual counts. |
| QueryErrors.DisplayInjective | src/database/postgresql/queries/errors.rs:4-44 | Two errors render to the same text if and only if they are the same error. |
| Casts.U64ToI32 | src/database/postgresql/queries/does_user_exist_by_id.rs:27 | The `as i32` cast yields the 32-bit value congruent to the id modulo 2^32, and leaves ids below 2^31 unchanged. |
| Casts.I32ToU64 | src/database/postgresql/queries/login_user.rs:45 | The `as u64` cast is congruent modulo 2^64. It keeps non-negative ids and maps negative ids to the top of the u64 range. |
| Casts.U64ToI32Unique | src/database/postgresql/queries/does_user_exist_by_id.rs:27 | The truncated id is the only 32-bit value congruent to the input. |
| Casts.SignExtendThenTruncate | src/database/postgresql/queries/login_user.rs:45 | Widening an i32 id to u64 and then truncating it again gives back the original id. |
| Text.DecimalRoundTrip | src/database/postgresql/queries/does_user_exist_by_id.rs:47 | Reading back the decimal text of a natural number gives that number. |
| Text.NatToDecimalInjective | src/database/postgresql/queries/does_user_exist_by_id.rs:47 | Different numbers have different decimal texts. |
| Text.Contains | src/database/postgresql/queries/errors.rs:51-53 | `contains` holds exactly when the pattern sits in the message at some position. |
| Text.IntToDecimal | src/database/postgresql/queries/does_user_exist_by_id.rs:47 | The `to_string` of an i32 is its decimal digits, with a leading '-' exactly when the value is negative. |
| Text.SignedDecimalRoundTrip | src/database/postgresql/queries/does_user_exist_by_id.rs:47 | The `to_string` of a signed id reads back to the id, so `InvalidId` texts identify the bound id. |
| Driver.GetBool | src/database/postgresql/queries/does_user_exist_by_email.rs:36-37 | Reading a bool column succeeds exactly when the column exists and holds a non-NULL boolean, and it returns that value. Otherwise it returns the extraction message. |
| Driver.GetInt4 | src/database/postgresql/queries/login_user.rs:35-37 | Reading an int4 column succeeds exactly when the column exists and holds a non-NULL int4, and it returns that value. |
| Driver.GetText | src/database/postgresql/queries/about_user.rs:39-43 | Reading a text column succeeds exactly when the column exists and holds non-NULL text. This is why a NULL column is a mapping error. |
| Driver.FirstNamed | src/database/postgresql/queries/login_user.rs:35-41 | A lookup by column name finds the first column with that name, and no column when none has it. |
| QueryResults.BooleanOf | src/database/utils/does_user_exist_by_id.rs:36-39 | The boolean view is true exactly for a `Boolean(true)` result. |
| LoginUserView.New | src/database/query_views/login_user.rs:12-18 | A new view keeps the email and the password. |
| LoginUserView.GetRequest | src/database/query_views/login_user.rs:30-32 | The statement is exactly "SELECT id, password FROM users " followed by "WHERE email = $1". So it filters on the email alone, bound as parameter 1. |
| LoginUserView.GetRawRequest | src/database/query_views/login_user.rs:33-38 | The raw statement is the fixed head, then the email verbatim, then a closing quote. |
| LoginUserView.RequestIgnoresCredentials | src/database/query_views/login_user.rs:30-32 | The parameterised statement is the same for every email and password. |
| LoginUserView.GetQueryType | src/database/query_views/login_user.rs:40-42 | Every login view reports the login query type, which `new` always sets at line 16. |
| LoginUserView.Display | src/database/query_views/login_user.rs:45-53 | The display text is the fixed head, then the email verbatim, then ", password = [PROTECTED]". The password never appears. |
| LoginUserView.RawRequestDeterminesEmail | src/database/query_views/login_user.rs:33-38 | Two views have the same raw statement if and only if they have the same email. |
| LoginUserView.RawRequestOfInjectionText | src/database/query_views/login_user.rs:33-38 | An injection email is spliced verbatim into the raw statement. |
| LoginUserView.DisplayHidesPassword | src/database/query_views/login_user.rs:45-53 | The display text depends on the email only: two views display alike if and only if their emails are equal. |
| DoesUserExistByEmail.Execute | src/database/postgresql/queries/does_user_exist_by_email.rs:25-42 | An email without '@' is rejected as `InvalidEmailFormat` before the database is asked, and that error arises only then. Otherwise the call succeeds exactly when a row comes back whose column 0 is a non-NULL bool, and it returns that bool. A returned row whose column 0 does not read is exactly the mapping-error case, carrying the read's message. A driver error goes through the classifier. |
| DoesUserExistByEmail.RejectsInvalidEmail | src/database/postgresql/queries/does_user_exist_by_email.rs:26-28 | "invalid-email" is rejected whatever the database would answer. |
| DoesUserExistByEmail.CallOf | src/database/postgresql/queries/does_user_exist_by_email.rs:30-31 | The by-email statement is sent with an empty parameter list, so the email reaches the database only through the statement itself. |
| DoesUserExistById.BoundId | src/database/postgresql/queries/does_user_exist_by_id.rs:27 | The bound parameter is the id truncated to i32, congruent modulo 2^32. |
| DoesUserExistById.CallOf | src/database/postgresql/queries/does_user_exist_by_id.rs:27-33 | The by-id statement is sent with one int4 parameter: the i32 that is congruent to the id modulo 2^32. |
| DoesUserExistById.Execute | src/database/postgresql/queries/does_user_exist_by_id.rs:25-53 | Success means a row came back with a non-NULL bool in column 0. A driver message that contains "0 rows" becomes `InvalidId` of the truncated id's decimal text; any other message goes through the classifier. The result is therefore never `NoResults`. |
| DoesUserExistById.InvalidIdNamesTruncatedId | src/database/postgresql/queries/does_user_exist_by_id.rs:27-47 | Id 2^32+7 is bound as 7 and reported as "7". Id 2^32-1 is bound as -1 and reported as "-1". |
| AboutUser.ReadTexts | src/database/postgresql/queries/about_user.rs:39-43 | Reading the columns in order succeeds exactly when every column holds text, and it returns each column's text. A failure reports the first column that did not read. |
| AboutUser.BoundId | src/database/postgresql/queries/about_user.rs:26-27 | The id is bound as `id as i32`, not as the i64 that the comment on line 26 names. The bound value is congruent to the id modulo 2^32, and ids below 2^31 are unchanged. |
| AboutUser.CallOf | src/database/postgresql/queries/about_user.rs:27-34 | The profile statement is sent with one int4 parameter, the truncated id. |
| AboutUser.BoundIdAliases | src/database/postgresql/queries/about_user.rs:27-34 | Two ids that agree modulo 2^32 send the same parameter. |
| AboutUser.Execute | src/database/postgresql/queries/about_user.rs:25-56 | Success means the five columns first_name, last_name, email, phone_number and status all read as text, and the profile carries them unchanged. The first column that fails gives the mapping error. A driver message containing "0 rows" or "unexpected number of rows" becomes `InvalidId("User ID not found")`. Any other message goes through the classifier, so the result is never `NoResults`. |
| AboutUser.MissingRowBeatsUniqueConstraint | src/database/postgresql/queries/about_user.rs:47-54 | For every driver message containing "0 rows", the result is `InvalidId("User ID not found")`, because the missing-row test runs before the classifier. This holds even when the message also contains "unique constraint", which the classifier would have made a constraint violation. |
| AboutUser.FirstFailureUnique | src/database/postgresql/queries/about_user.rs:39-43 | Only one column can be the first to fail, so the mapping error is determined by the row. |
| AboutUser.FailsAtFirstFailure | src/database/postgresql/queries/about_user.rs:39-43 | When a row comes back and column k is the first that fails to read, the result is the mapping error carrying that column's read error. |
| LoginUser.New | src/database/postgresql/queries/login_user.rs:13-17 | The query keeps the email and the password it is given. |
| LoginUser.CallOf | src/database/postgresql/queries/login_user.rs:27-29 | The login call is the fixed statement "SELECT id, password FROM users WHERE email = $1", with the email as its only parameter. |
| LoginUser.Execute | src/database/postgresql/queries/login_user.rs:25-57 | Success means a row was found, its id and password both read, and the stored password equals the given one; the result is the id widened to u64. `InvalidPassword(email)` means exactly that the row was found, both columns read, and the passwords differ. `EmailNotFound(email)` means exactly that no row came back. The id is read first, then the password. A driver error goes through the classifier. |
| LoginUser.PasswordNotBound | src/database/postgresql/queries/login_user.rs:27-30 | Only the email is bound, so the call sent to the database does not depend on the password. |
| RegisterUser.New | src/database/postgresql/queries/register_user.rs:13-22 | The query keeps all five fields, including the optional phone. |
| RegisterUser.CallOf | src/database/postgresql/queries/register_user.rs:32 | The insert statement is sent with no bound parameters. It carries all five of the query's fields: first name, last name, email, password and phone. |
| RegisterUser.Execute | src/database/postgresql/queries/register_user.rs:31-39 | Success means exactly that one row was affected. Any other count `n` gives `AffectedRowsMismatch` with expected 1 and actual n, and a driver error goes through the classifier. |
| Queries.Execute | src/database/db_interface.rs:64-70 | Running any of the five queries gives a result of the shape its query type promises, and fails exactly when that query's own execution fails, with the same error. On success each payload is the query's own value. |
| PostgreInterface.New | src/database/postgresql/postgre_interface.rs:58-66 | A new interface holds the configuration and no client. |
| PostgreInterface.CreatePostgreInterface | src/database/postgresql/postgre_interface.rs:18-23 | Afterwards the slot is filled. An existing interface is kept, and an empty slot gets a new one. |
| PostgreInterface.CreateIsIdempotent | src/database/postgresql/postgre_interface.rs:18-23 | Creating twice is the same as creating once, whatever configuration the second call sees. |
| PostgreInterface.FieldInjective | src/database/postgresql/postgre_interface.rs:84-87 | A `key=value ` field whose value has no space determines its value and the rest of the string. |
| PostgreInterface.ConnectionString | src/database/postgresql/postgre_interface.rs:84-87 | The connection string is the `host=`, `user=` and `password=` fields, each followed by a space, then `dbname=` and the name. |
| PostgreInterface.ConnectionStringInjective | src/database/postgresql/postgre_interface.rs:84-87 | When host, user and password contain no space, two configurations give the same connection string if and only if they are equal. |
| PostgreInterface.Connect | src/database/postgresql/postgre_interface.rs:82-105 | The configuration is unchanged. On success the new client is stored and "PostgreSQL Connected" is returned. On refusal the driver's message is returned after "Failed to connect: " and the previous client is kept. |
| PostgreInterface.Disconnect | src/database/postgresql/postgre_interface.rs:107-109 | Disconnecting changes nothing and always reports "PostgreSql Disconnected". |
| PostgreInterface.ExecuteQuery | src/database/postgresql/postgre_interface.rs:111-121 | Without a client the result is "Database client is not connected". With a client the query runs on it, and its value or its error is passed through. |
| PostgreInterface.DisconnectKeepsClient | src/database/postgresql/postgre_interface.rs:107-121 | After a disconnect, every query gives exactly what it gave before. |
| PostgreInterface.RunSnoc | src/database/postgresql/postgre_interface.rs:82-121 | Running a trace extended by one operation equals running the trace, then that operation. |
| PostgreInterface.RunKeepsLastClient | src/database/postgresql/postgre_interface.rs:82-109 | After any sequence of connects and disconnects, the configuration is unchanged. The client is the one from the last accepted connect, or the original client if no connect was accepted. |
| DbInterface.Start | src/database/postgresql/postgre_interface.rs:10-11 | At start-up the façade slot is empty and the interface slot holds a fresh interface. |
| DbInterface.New | src/database/db_interface.rs:113-116 | Constructing the façade fills the interface slot and keeps an interface that is already there. |
| DbInterface.Init | src/database/db_interface.rs:15-19 | Initialisation fills the façade slot and the interface slot, and keeps an interface that is already present. |
| DbInterface.Connect | src/database/db_interface.rs:121-133 | Without an interface the result is `Internal("PostgreInterface not initialized")`. Otherwise the interface connects and its message or error is passed through. |
| DbInterface.Disconnect | src/database/db_interface.rs:138-150 | Without an interface the result is the not-initialised error. Otherwise it is the interface's disconnect message, and the state is unchanged. |
| DbInterface.ExecuteQuery | src/database/db_interface.rs:157-172 | Without an interface the result is the not-initialised error. Otherwise the interface's own execution result is returned. |
| DbInterface.NotConnectedFailsEveryQuery | src/database/db_interface.rs:157-172 | An interface that is present but not connected fails every query with the not-connected message. |
| DbInterface.SlotStaysFilled | src/database/db_interface.rs:113-172 | Once the interface slot is filled, no sequence of façade operations empties it, so the not-initialised error never appears. |
| DbInterface.FacadeSlotFilledByInit | src/database/db_interface.rs:15-19 | After a trace the façade slot is filled if and only if it was filled before or the trace contains an initialisation. |
| UserExistsById.DoesUserExistById | src/database/utils/does_user_exist_by_id.rs:16-40 | The helper answers true if and only if the façade is initialised and connected and the by-id query succeeds with true. An uninitialised façade, any error and a false answer all give false. |
| ReferenceDatabase.FindById | tests/common/queries_setup.rs:86-95 | The lookup finds a user in the table with that id, and finds none when no user has it. |
| ReferenceDatabase.FindByEmail | tests/common/queries_setup.rs:86-95 | The lookup finds a user in the table with that email, and finds none when no user has it. |
| ReferenceDatabase.ExistsByIdAgainstTable | src/database/postgresql/queries/does_user_exist_by_id.rs:25-53 | Against the table, the by-id query answers whether a user has the truncated id. |
| ReferenceDatabase.ExistsByEmailAgainstTable | src/database/postgresql/queries/does_user_exist_by_email.rs:25-42 | Against the table, a well-formed email query answers whether some user has that email. |
| ReferenceDatabase.LoginAgainstTable | src/database/postgresql/queries/login_user.rs:25-57 | An unknown email gives `EmailNotFound`. A matching password gives the user's id, and a wrong one gives `InvalidPassword`. |
| ReferenceDatabase.NoRowMessageMeansMissingRow | src/database/postgresql/queries/about_user.rs:48-50 | The driver's message for a missing row is recognised by the about-user check. |
| ReferenceDatabase.AboutAgainstTable | src/database/postgresql/queries/about_user.rs:25-56 | An unknown id gives `InvalidId("User ID not found")`. A known user with no NULL columns gives that user's profile. A NULL phone gives the mapping error for `phone_number`; otherwise a NULL status gives the one for `status`. |
| ReferenceDatabase.DuplicateMessageIsConstraintViolation | src/database/postgresql/queries/errors.rs:51-52 | The driver's duplicate-key message classifies as a constraint violation. |
| ReferenceDatabase.RegisterAgainstTable | src/database/postgresql/queries/register_user.rs:31-39 | Registering a new email succeeds. Registering a taken email gives a constraint violation. |
| ReferenceDatabase.FindByEmailAppend | tests/common/queries_setup.rs:86-95 | After a user is appended, an email is found if and only if it was found before or it is the new user's. |
| ReferenceDatabase.RegisterThenExists | src/database/postgresql/queries/register_user.rs:31-39 | For an email containing '@', after a successful registration the email-existence query answers true for that email. This is intended behaviour that no test checks. |
| ReferenceDatabase.RegisterThenRejectsEmailWithoutAt | src/database/postgresql/queries/does_user_exist_by_email.rs:26-28 | A fresh email without '@' registers successfully, because register_user.rs:31-39 does not check the email's form. The email-existence query then rejects it as `InvalidEmailFormat`. |
| ReferenceDatabase.RegisterThenRejectsBob | src/database/postgresql/queries/does_user_exist_by_email.rs:26-28 | "bob" registers in an empty table, and existence by "bob" then fails with `InvalidEmailFormat("bob")`. |
| ReferenceDatabase.RegisterKeepsEmailsUnique | src/database/postgresql/queries/register_user.rs:31-39 | A successful registration keeps emails unique in the table. |
| TestScenario.SetupReachesConnected | tests/common/queries_setup.rs:37-60 | Initialising and then connecting to the seeded database gives the connected process. |
| TestScenario.ExistenceById | tests/queries_tests.rs:22-50 | Id 1 exists and id 999 does not, both through the façade and through the helper. |
| TestScenario.ExistenceByEmail | tests/queries_tests.rs:54-92 | Alice's email exists, and "invalid-email" is rejected as badly formed. |
| TestScenario.Login | tests/queries_tests.rs:97-153 | Alice logs in as id 1. A wrong password and an unknown email give the matching errors, and so does the injection email (lines 236-260). |
| TestScenario.Profile | tests/queries_tests.rs:183-226 | Id 1 gives Alice's profile, and id 999 gives `InvalidId("User ID not found")`. |
| TestScenario.ProfileIdAliases | src/database/postgresql/queries/about_user.rs:27 | Id 2^32+1 reads Alice's profile, the profile of id 1, because the id is cast to i32. |
| TestScenario.Registration | tests/queries_tests.rs:159-179 | A new user registers, and so does the injection-name user of lines 265-279. Registering Alice's email a second time is a constraint violation. No test covers that last case; it rests on the reference table's duplicate-key message. |
| TestScenario.RegisteredWithoutPhoneHasNoProfile | src/database/postgresql/queries/about_user.rs:42 | A user registered without a phone cannot be read back. The error is the mapping error for the NULL `phone_number` column, the first column that fails. |

## Where the code departs from the intended behaviour

The model follows the code in each of these cases:

- Disconnect: a disconnected interface would be expected to refuse queries. `disconnect` (postgre_interface.rs:107-109) only returns its message and keeps the client, so queries still run. `PostgreInterface.DisconnectKeepsClient` states this.
- Failed connect: a failed connect would be expected to leave no client. The code stores a client only on success (postgre_interface.rs:89-103), so an earlier client survives. `PostgreInterface.RunKeepsLastClient` states this.
- Existence by id: a missing user would be expected to be a successful `false`. The code turns a driver message containing "0 rows" into `InvalidId` (does_user_exist_by_id.rs:46-48). Whether that path is taken depends on the statement, which is not part of this model.
- Registration: the fields would be expected to be bound as parameters. The code calls `execute` with an empty parameter list (register_user.rs:32), so the values must be part of the statement text. `RegisterUser.CallOf` states this.
- Existence by email: likewise, `query_one` gets an empty parameter list (does_user_exist_by_email.rs:31), so the email must be part of the statement text. `DoesUserExistByEmail.CallOf` sends no parameters.
- Registration and existence by email: an email that has been registered would be expected to exist. Registration does not check the email's form (register_user.rs:31-39), but existence by email rejects any email without '@' (does_user_exist_by_email.rs:26-28). So a user registered as "bob" can never be found by email. `ReferenceDatabase.RegisterThenRejectsEmailWithoutAt` states this, and `RegisterThenRejectsBob` gives the instance.
- Id width: the comments at about_user.rs:26 and does_user_exist_by_id.rs:26 speak of i64, but both queries cast the u64 id to i32 (line 27 of each file). Ids that agree modulo 2^32 therefore name the same user: id 2^32+1 reads user 1's profile. `AboutUser.BoundIdAliases` and `TestScenario.ProfileIdAliases` state this.

## Left out

- The `tokio_postgres` driver is a parameter. The model does not include its wire protocol, its connection task (the `tokio::spawn` in `connect`), or the exact wording of its errors.
- The mapping-error texts produced by `Driver.ExtractionMessage` stand in for the driver's own messages, and only their place in the error is modelled.
- The SQL text of the by-id, by-email, about-user and register views is not part of this model: those views' source files are not included. Their statements are identified by a `QueryViews.QueryView` descriptor carrying the view's fields. Only the login view's SQL text is modelled literally.
- The result-view structs and `get_boolean_from_query_result` are not part of this model. `QueryResults.BooleanOf` assumes that every result other than `Boolean(b)` reads as false.
- Concurrency is not modelled: the `LazyLock` statics, the mutexes, the `Arc` client and `async`. The two global slots are explicit fields of `DbInterface.Process`, and each operation runs atomically.
- `get_postgre_interface`, `get_db_interface` and `PostgreInterface::get_client` only hand out the locked slot. They are modelled as reading the field of the state.
- The tests call `reset_postgre_interface`, which `postgre_interface.rs` does not define, so it is not part of this model. Because the static starts filled (postgre_interface.rs:10-11), the façade's "PostgreInterface not initialized" branch can only be reached from a state that `DbInterface.Start` does not produce. `DbInterface.SlotStaysFilled` states this.
- `get_critical_env_var` and the environment are a `PostgreInterface.Config` parameter. The model does not cover the process exiting when a variable is missing.
- The trait-object layering of `DatabaseInterfaceActions`, and the `Box<dyn Error>` error type, are modelled as the `ExecutionError` sum `Message | Query | Database`.
- `eprintln!` logging in `does_user_exist_by_id` and in the connection task is output only, so it is left out.
- The JWT, Redis and environment-manager modules are outside the query layer.
- `ReferenceDatabase` answers statements the way the users table in the test schema would. It is a reference for stating properties, not a model of PostgreSQL, and it reports a missing row with the driver's "query returned an unexpected number of rows" message.
- ReferenceDatabase.Insert: assigns ids 1, 2, … in order, as `RESTART IDENTITY` does after the tests' truncation. It leaves status NULL because the register statement's text, and any column default, are not part of this model.
