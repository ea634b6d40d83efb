/**
 * The PostgreSQL interface: connection settings and a cell that holds the
 * connected client, if any. Connecting fills the cell, disconnecting
 * leaves it as it is, and executing a query needs a client in the cell.
 * The process-wide slot that holds the interface is an `Option`.
 */
module PostgreInterface {
  import opened Wrappers
  import opened Text
  import opened QueryResults
  import opened DatabaseErrors
  import opened Driver
  import Queries

  /** The four settings read from the environment at construction. */
  datatype Config = Config(host: string, user: string, password: string, name: string)

  datatype Interface = Interface(config: Config, client: Option<Driver>)

  /** What the driver's connect answers for a connection string. */
  datatype ConnectReply = Established(client: Driver) | Refused(message: string)

  const CONNECTED: string := "PostgreSQL Connected"
  const DISCONNECTED: string := "PostgreSql Disconnected"
  const CONNECT_FAILED: string := "Failed to connect: "
  const NOT_CONNECTED: string := "Database client is not connected"

  /** `PostgreInterface::new`: the settings, and no client yet. */
  function New(config: Config): (i: Interface)
    ensures i.config == config && i.client.None?
  {
    Interface(config, None)
  }

  /** `create_postgre_interface`: fills an empty slot, leaves a filled one alone. */
  function CreatePostgreInterface(slot: Option<Interface>, config: Config): (slot': Option<Interface>)
    ensures slot'.Some?
    ensures slot.Some? ==> slot' == slot
    ensures slot.None? ==> slot' == Some(New(config))
  {
    if slot.None? then Some(New(config)) else slot
  }

  /** Creating twice is the same as creating once. */
  lemma CreateIsIdempotent(slot: Option<Interface>, config: Config, config': Config)
    ensures CreatePostgreInterface(CreatePostgreInterface(slot, config), config') == CreatePostgreInterface(slot, config)
  {
  }

  /**
   * The libpq-style connection string: `key=value` settings for host, user,
   * password and dbname, in that order, each followed by a space but the last.
   */
  function ConnectionString(c: Config): (s: string)
    ensures s == Field("host=", c.host, Field("user=", c.user, Field("password=", c.password, "dbname=" + c.name)))
  {
    "host=" + c.host + " user=" + c.user + " password=" + c.password + " dbname=" + c.name
  }

  /** `key`, then `value`, then a space and the rest of the string. */
  function Field(key: string, value: string, rest: string): string {
    key + value + [' '] + rest
  }

  lemma FieldInjective(key: string, v: string, rest: string, v': string, rest': string)
    requires ' ' !in v && ' ' !in v'
    requires Field(key, v, rest) == Field(key, v', rest')
    ensures v == v' && rest == rest'
  {
    assert Field(key, v, rest) == key + (v + [' '] + rest);
    assert Field(key, v', rest') == key + (v' + [' '] + rest');
    CommonPrefix(key, v + [' '] + rest, v' + [' '] + rest');
    SplitAtSeparator(v, rest, v', rest', ' ');
  }

  /** When the first three settings contain no space, the string determines all four settings. */
  lemma ConnectionStringInjective(c: Config, c': Config)
    requires ' ' !in c.host && ' ' !in c.user && ' ' !in c.password
    requires ' ' !in c'.host && ' ' !in c'.user && ' ' !in c'.password
    ensures ConnectionString(c) == ConnectionString(c') <==> c == c'
  {
    if ConnectionString(c) == ConnectionString(c') {
      var tail, tail' := Field("password=", c.password, "dbname=" + c.name), Field("password=", c'.password, "dbname=" + c'.name);
      var mid, mid' := Field("user=", c.user, tail), Field("user=", c'.user, tail');
      FieldInjective("host=", c.host, mid, c'.host, mid');
      FieldInjective("user=", c.user, tail, c'.user, tail');
      FieldInjective("password=", c.password, "dbname=" + c.name, c'.password, "dbname=" + c'.name);
      CommonPrefix("dbname=", c.name, c'.name);
    }
  }

  /** `connect`: opens a client for the connection string and stores it, or reports the driver's refusal. */
  function Connect(i: Interface, open: string -> ConnectReply): (r: (Interface, Result<string, string>))
    ensures r.0.config == i.config
    ensures open(ConnectionString(i.config)).Established? ==>
      r.0.client == Some(open(ConnectionString(i.config)).client) && r.1 == Success(CONNECTED)
    ensures open(ConnectionString(i.config)).Refused? ==>
      r.0 == i && r.1 == Failure(CONNECT_FAILED + open(ConnectionString(i.config)).message)
  {
    match open(ConnectionString(i.config))
    case Established(client) => (i.(client := Some(client)), Success(CONNECTED))
    case Refused(message) => (i, Failure(CONNECT_FAILED + message))
  }

  /** `disconnect`: always succeeds and leaves the client cell as it is. */
  function Disconnect(i: Interface): (r: (Interface, Result<string, string>))
    ensures r.0 == i && r.1 == Success(DISCONNECTED)
  {
    (i, Success(DISCONNECTED))
  }

  /** `execute_query`: fails fast without a client, otherwise returns the query's own result. */
  function ExecuteQuery(i: Interface, q: Queries.Query): (r: Result<QueryResult, ExecutionError>)
    ensures i.client.None? ==> r == Failure(Message(NOT_CONNECTED))
    ensures i.client.Some? ==> (r.Success? <==> Queries.Execute(q, i.client.value).Success?)
    ensures i.client.Some? && r.Success? ==> r.value == Queries.Execute(q, i.client.value).value
    ensures i.client.Some? && r.Failure? ==> r.error == Query(Queries.Execute(q, i.client.value).error)
  {
    match i.client
    case None => Failure(Message(NOT_CONNECTED))
    case Some(client) =>
      match Queries.Execute(q, client)
      case Success(v) => Success(v)
      case Failure(e) => Failure(Query(e))
  }

  /** Queries run the same before and after a disconnect. */
  lemma DisconnectKeepsClient(i: Interface, q: Queries.Query)
    ensures ExecuteQuery(Disconnect(i).0, q) == ExecuteQuery(i, q)
  {
  }

  // ---------------------------------------------------------------------
  // Sequences of calls on one interface

  datatype Op = ConnectOp(open: string -> ConnectReply) | DisconnectOp | ExecuteOp(query: Queries.Query)

  /** The interface after one call. */
  function Step(i: Interface, op: Op): Interface {
    match op
    case ConnectOp(open) => Connect(i, open).0
    case DisconnectOp => Disconnect(i).0
    case ExecuteOp(_) => i
  }

  /** The interface after the calls in order. */
  function Run(i: Interface, ops: seq<Op>): Interface
    decreases |ops|
  {
    if |ops| == 0 then i else Run(Step(i, ops[0]), ops[1..])
  }

  /** The client of the last connect in `ops` that the driver accepted, if any. */
  function LastEstablished(ops: seq<Op>, connection: string): Option<Driver>
    decreases |ops|
  {
    if |ops| == 0 then None
    else
      var op := ops[|ops| - 1];
      if op.ConnectOp? && op.open(connection).Established? then Some(op.open(connection).client)
      else LastEstablished(ops[..|ops| - 1], connection)
  }

  lemma {:induction false} RunSnoc(i: Interface, ops: seq<Op>, op: Op)
    ensures Run(i, ops + [op]) == Step(Run(i, ops), op)
    decreases |ops|
  {
    if |ops| != 0 {
      assert (ops + [op])[1..] == ops[1..] + [op];
      RunSnoc(Step(i, ops[0]), ops[1..], op);
    }
  }

  /**
   * Whatever the calls, the cell holds the client of the last accepted
   * connect, or what it held before when no connect was accepted: failed
   * connects and disconnects never empty it.
   */
  lemma {:induction false} RunKeepsLastClient(i: Interface, ops: seq<Op>)
    ensures Run(i, ops).config == i.config
    ensures Run(i, ops).client ==
      (match LastEstablished(ops, ConnectionString(i.config))
       case Some(c) => Some(c)
       case None => i.client)
    decreases |ops|
  {
    if |ops| != 0 {
      var init := ops[..|ops| - 1];
      assert ops == init + [ops[|ops| - 1]];
      RunSnoc(i, init, ops[|ops| - 1]);
      RunKeepsLastClient(i, init);
    }
  }
}
