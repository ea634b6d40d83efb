/**
 * The façade over the two process-wide slots: the façade slot (empty until
 * `init_db_interface`) and the PostgreSQL interface slot. Every façade call
 * forwards to the interface in the slot, or reports an internal error when
 * the slot is empty.
 */
module DbInterface {
  import opened Wrappers
  import opened QueryResults
  import opened DatabaseErrors
  import PG = PostgreInterface
  import Queries

  /** The façade value itself carries no state. */
  datatype DbInterface = DbInterface

  /** The two statics: the façade slot and the PostgreSQL interface slot. */
  datatype Process = Process(db: Option<DbInterface>, pg: Option<PG.Interface>)

  const NOT_INITIALIZED: string := "PostgreInterface not initialized"

  /**
   * The statics as first observed: the façade slot starts empty, and the
   * interface slot's lazy initialiser fills it with a fresh interface.
   */
  function Start(config: PG.Config): (p: Process)
    ensures p.db.None?
    ensures p.pg == Some(PG.New(config))
  {
    Process(None, Some(PG.New(config)))
  }

  /** `DbInterface::new`: makes sure the interface slot is filled. */
  function New(p: Process, config: PG.Config): (p': Process)
    ensures p'.db == p.db
    ensures p'.pg.Some?
    ensures p.pg.Some? ==> p'.pg == p.pg
  {
    p.(pg := PG.CreatePostgreInterface(p.pg, config))
  }

  /** `init_db_interface`: builds a façade and stores it in the façade slot. */
  function Init(p: Process, config: PG.Config): (p': Process)
    ensures p'.db == Some(DbInterface)
    ensures p'.pg.Some?
    ensures p.pg.Some? ==> p'.pg == p.pg
    ensures p.pg.None? ==> p'.pg == Some(PG.New(config))
  {
    New(p, config).(db := Some(DbInterface))
  }

  /** `DbInterface::connect`. */
  function Connect(p: Process, open: string -> PG.ConnectReply): (r: (Process, Result<string, ExecutionError>))
    ensures p.pg.None? ==> r.0 == p && r.1 == Failure(Database(Internal(NOT_INITIALIZED)))
    ensures p.pg.Some? ==> r.0.pg == Some(PG.Connect(p.pg.value, open).0) && r.0.db == p.db
    ensures p.pg.Some? ==> (r.1.Success? <==> PG.Connect(p.pg.value, open).1.Success?)
    ensures p.pg.Some? && r.1.Success? ==> r.1.value == PG.Connect(p.pg.value, open).1.value
    ensures p.pg.Some? && r.1.Failure? ==> r.1.error == Message(PG.Connect(p.pg.value, open).1.error)
  {
    match p.pg
    case None => (p, Failure(Database(Internal(NOT_INITIALIZED))))
    case Some(i) =>
      var (i', res) := PG.Connect(i, open);
      (p.(pg := Some(i')),
       match res
       case Success(m) => Success(m)
       case Failure(e) => Failure(Message(e)))
  }

  /** `DbInterface::disconnect`. */
  function Disconnect(p: Process): (r: (Process, Result<string, ExecutionError>))
    ensures r.0 == p
    ensures p.pg.None? ==> r.1 == Failure(Database(Internal(NOT_INITIALIZED)))
    ensures p.pg.Some? ==> r.1 == Success(PG.Disconnect(p.pg.value).1.value)
  {
    match p.pg
    case None => (p, Failure(Database(Internal(NOT_INITIALIZED))))
    case Some(i) =>
      var (i', res) := PG.Disconnect(i);
      (p.(pg := Some(i')),
       match res
       case Success(m) => Success(m)
       case Failure(e) => Failure(Message(e)))
  }

  /** `DbInterface::execute_query`. */
  function ExecuteQuery(p: Process, q: Queries.Query): (r: Result<QueryResult, ExecutionError>)
    ensures p.pg.None? ==> r == Failure(Database(Internal(NOT_INITIALIZED)))
    ensures p.pg.Some? ==> r == PG.ExecuteQuery(p.pg.value, q)
  {
    match p.pg
    case None => Failure(Database(Internal(NOT_INITIALIZED)))
    case Some(i) => PG.ExecuteQuery(i, q)
  }

  /** With an interface but no client, every query variant fails fast with the not-connected message. */
  lemma NotConnectedFailsEveryQuery(p: Process, q: Queries.Query)
    requires p.pg.Some? && p.pg.value.client.None?
    ensures ExecuteQuery(p, q) == Failure(Message(PG.NOT_CONNECTED))
  {
  }

  // ---------------------------------------------------------------------
  // Sequences of façade calls

  datatype Op = InitOp(config: PG.Config) | ConnectOp(open: string -> PG.ConnectReply) | DisconnectOp | ExecuteOp(query: Queries.Query)

  function Step(p: Process, op: Op): Process {
    match op
    case InitOp(config) => Init(p, config)
    case ConnectOp(open) => Connect(p, open).0
    case DisconnectOp => Disconnect(p).0
    case ExecuteOp(_) => p
  }

  function Run(p: Process, ops: seq<Op>): Process
    decreases |ops|
  {
    if |ops| == 0 then p else Run(Step(p, ops[0]), ops[1..])
  }

  /**
   * No façade call empties the interface slot, so starting from the
   * statics the internal not-initialised error never appears: it needs the
   * slot to be emptied by code outside the façade.
   */
  lemma {:induction false} SlotStaysFilled(p: Process, ops: seq<Op>, q: Queries.Query)
    requires p.pg.Some?
    ensures Run(p, ops).pg.Some?
    ensures ExecuteQuery(Run(p, ops), q) != Failure(Database(Internal(NOT_INITIALIZED)))
    decreases |ops|
  {
    if |ops| != 0 {
      SlotStaysFilled(Step(p, ops[0]), ops[1..], q);
    }
  }

  /** From the statics, the façade slot is filled exactly when some `init_db_interface` has run. */
  lemma {:induction false} FacadeSlotFilledByInit(p: Process, ops: seq<Op>)
    ensures Run(p, ops).db.Some? <==> p.db.Some? || exists k :: 0 <= k < |ops| && ops[k].InitOp?
    decreases |ops|
  {
    if |ops| != 0 {
      FacadeSlotFilledByInit(Step(p, ops[0]), ops[1..]);
      if exists k :: 0 <= k < |ops[1..]| && ops[1..][k].InitOp? {
        var k :| 0 <= k < |ops[1..]| && ops[1..][k].InitOp?;
        assert ops[k + 1].InitOp?;
      }
      if exists k :: 0 <= k < |ops| && ops[k].InitOp? {
        var k :| 0 <= k < |ops| && ops[k].InitOp?;
        if k > 0 {
          assert ops[1..][k - 1].InitOp?;
        }
      }
    }
  }
}
