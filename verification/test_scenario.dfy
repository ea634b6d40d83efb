/**
 * The integration-test scenario: a database holding one user, Alice, with
 * id 1, reached through the façade after initialisation and connection.
 */
module TestScenario {
  import opened Wrappers
  import opened Casts
  import opened QueryErrors
  import opened QueryResults
  import opened DatabaseErrors
  import opened ReferenceDatabase
  import opened Driver
  import PG = PostgreInterface
  import DbInterface
  import Queries
  import ById = DoesUserExistById
  import ByEmail = DoesUserExistByEmail
  import AboutUser
  import LoginUser
  import RegisterUser
  import UserExistsById

  const ALICE: User := User(1, "Alice", "Smith", "alice@example.com", "password123", Some("0102030405"), Some("active"))

  const SEEDED: Table := [ALICE]

  /** The process once the façade is initialised and connected to the seeded database. */
  function Connected(config: PG.Config): DbInterface.Process {
    DbInterface.Process(Some(DbInterface.DbInterface), Some(PG.Interface(config, Some(AsDriver(SEEDED)))))
  }

  /** Initialising and then connecting (the driver accepting) reaches the connected process. */
  lemma SetupReachesConnected(config: PG.Config, open: string -> PG.ConnectReply)
    requires open(PG.ConnectionString(config)) == PG.Established(AsDriver(SEEDED))
    ensures DbInterface.Run(DbInterface.Start(config), [DbInterface.InitOp(config), DbInterface.ConnectOp(open)])
         == Connected(config)
  {
    var p1 := DbInterface.Step(DbInterface.Start(config), DbInterface.InitOp(config));
    assert p1 == DbInterface.Process(Some(DbInterface.DbInterface), Some(PG.New(config)));
    var ops := [DbInterface.InitOp(config), DbInterface.ConnectOp(open)];
    var p2 := DbInterface.Step(p1, DbInterface.ConnectOp(open));
    assert PG.Connect(PG.New(config), open).0 == PG.Interface(config, Some(AsDriver(SEEDED)));
    assert p2 == Connected(config);
    assert ops[1..] == [DbInterface.ConnectOp(open)];
    assert ops[1..][1..] == [];
    assert DbInterface.Run(p1, ops[1..]) == DbInterface.Run(p2, []);
  }

  function Run(config: PG.Config, q: Queries.Query): Result<QueryResult, ExecutionError> {
    DbInterface.ExecuteQuery(Connected(config), q)
  }

  lemma ExistenceById(config: PG.Config)
    ensures Run(config, Queries.ExistsById(ById.Query(1))) == Success(Boolean(true))
    ensures Run(config, Queries.ExistsById(ById.Query(999))) == Success(Boolean(false))
    ensures UserExistsById.DoesUserExistById(Connected(config), 1)
    ensures !UserExistsById.DoesUserExistById(Connected(config), 999)
  {
    ExistsByIdAgainstTable(SEEDED, 1);
    ExistsByIdAgainstTable(SEEDED, 999);
  }

  lemma ExistenceByEmail(config: PG.Config)
    ensures Run(config, Queries.ExistsByEmail(ByEmail.Query("alice@example.com"))) == Success(Boolean(true))
    ensures Run(config, Queries.ExistsByEmail(ByEmail.Query("invalid-email")))
         == Failure(Query(InvalidEmailFormat("invalid-email")))
  {
    assert "alice@example.com"[5] == '@';
    ExistsByEmailAgainstTable(SEEDED, "alice@example.com");
    ByEmail.RejectsInvalidEmail(AsDriver(SEEDED));
  }

  lemma Login(config: PG.Config)
    ensures Run(config, Queries.Login(LoginUser.New("alice@example.com", "password123"))) == Success(U64(1))
    ensures Run(config, Queries.Login(LoginUser.New("alice@example.com", "wrong_pass")))
         == Failure(Query(InvalidPassword("alice@example.com")))
    ensures Run(config, Queries.Login(LoginUser.New("stranger@danger.com", "any_password")))
         == Failure(Query(EmailNotFound("stranger@danger.com")))
    ensures Run(config, Queries.Login(LoginUser.New("' OR 1=1 --", "any_password")))
         == Failure(Query(EmailNotFound("' OR 1=1 --")))
  {
    LoginAgainstTable(SEEDED, "alice@example.com", "password123");
    LoginAgainstTable(SEEDED, "alice@example.com", "wrong_pass");
    LoginAgainstTable(SEEDED, "stranger@danger.com", "any_password");
    LoginAgainstTable(SEEDED, "' OR 1=1 --", "any_password");
  }

  lemma Profile(config: PG.Config)
    ensures Run(config, Queries.About(AboutUser.Query(1)))
         == Success(Json(UserProfile("Alice", "Smith", "alice@example.com", "0102030405", "active")))
    ensures Run(config, Queries.About(AboutUser.Query(999)))
         == Failure(Query(InvalidId("User ID not found")))
  {
    AboutAgainstTable(SEEDED, 1);
    AboutAgainstTable(SEEDED, 999);
  }

  /** The `as i32` cast aliases ids: 2^32 + 1 reads Alice's profile, as id 1 does. */
  lemma ProfileIdAliases(config: PG.Config)
    ensures Run(config, Queries.About(AboutUser.Query(0x1_0000_0001)))
         == Success(Json(UserProfile("Alice", "Smith", "alice@example.com", "0102030405", "active")))
  {
    assert U64ToI32(0x1_0000_0001) == 1;
    AboutAgainstTable(SEEDED, 0x1_0000_0001);
  }

  lemma Registration(config: PG.Config)
    ensures Run(config, Queries.Register(RegisterUser.New("John", "Doe", "new_user@test.com", "secure_password", Some("0601020304"))))
         == Success(Completed(Success(())))
    ensures Run(config, Queries.Register(RegisterUser.New("John'); DROP TABLE users; --", "Doe", "attacker@test.com", "pass", None)))
         == Success(Completed(Success(())))
    ensures Run(config, Queries.Register(RegisterUser.New("Alice", "Again", "alice@example.com", "x", None)))
         == Failure(Query(ConstraintViolation(DUPLICATE_EMAIL_MESSAGE)))
  {
    RegisterAgainstTable(SEEDED, RegisterUser.New("John", "Doe", "new_user@test.com", "secure_password", Some("0601020304")));
    RegisterAgainstTable(SEEDED, RegisterUser.New("John'); DROP TABLE users; --", "Doe", "attacker@test.com", "pass", None));
    RegisterAgainstTable(SEEDED, RegisterUser.New("Alice", "Again", "alice@example.com", "x", None));
  }

  /** A user registered without a phone cannot be looked up: the NULL phone does not read as text. */
  lemma RegisteredWithoutPhoneHasNoProfile()
    ensures
      var q := RegisterUser.New("John", "Doe", "john@test.com", "pass", None);
      AboutUser.Execute(AboutUser.Query(2), AsDriver(Insert(SEEDED, q)))
        == Failure(MappingError(ExtractionMessage(Name("phone_number"), Some(None))))
  {
    var q := RegisterUser.New("John", "Doe", "john@test.com", "pass", None);
    var t := Insert(SEEDED, q);
    assert FindById(t, U64ToI32(2)) == Some(t[1]);
    AboutAgainstTable(t, 2);
  }
}
