/** The server as a step system: outstanding operations complete, and their handlers run one at a
    time on the single thread of the I/O service. The classes in Server.dfy are proved to take
    exactly these steps.

    What is assumed of the I/O service: closing a socket completes its unfinished operations as
    aborted; an operation that has completed keeps its result, and its handler still runs after a
    close; an operation started on a closed socket fails, but not as aborted. */
module ServerProtocol {
  import opened HttpMessage
  import opened ParserMachine
  import opened Reply
  import opened RequestHandler

  const BUFFER_SIZE := 8192

  datatype Result = Success(data: string) | Aborted | Failed

  datatype OpStatus = Unfinished | Completed(result: Result)

  /** An outstanding operation; a write carries the reply it puts on the wire. */
  datatype Op = Read(status: OpStatus) | Write(reply: ReplyData, status: OpStatus)

  /** A connection: its socket, its outstanding operations, its parser with the request, and its
      reply. The last five fields record its history: where the parser started, the bytes read
      so far, how many verdicts and replies there have been, and the files as they were when the
      verdict fell. */
  datatype Conn = Conn(
    socketOpen: bool,
    pending: seq<Op>,
    parser: Config,
    reply: ReplyData,
    start: Config,
    received: string,
    verdicts: nat,
    replies: nat,
    store: map<string, string>
  )

  /** The server: whether it listens, its outstanding accepts, whether it still waits for a
      signal, every connection it ever started, and the ones the manager holds. */
  datatype ServerState = ServerState(
    docRoot: string,
    acceptorOpen: bool,
    accepts: seq<OpStatus>,
    signalArmed: bool,
    conns: seq<Conn>,
    managed: set<nat>
  )

  /** The values of fields that construction leaves uninitialised. */
  datatype Garbage = Garbage(major: int, minor: int, status: Status)

  // ---- One connection

  function StatusOnStart(socketOpen: bool): OpStatus {
    if socketOpen then Unfinished else Completed(Failed)
  }

  function StartRead(c: Conn): Conn {
    c.(pending := c.pending + [Read(StatusOnStart(c.socketOpen))])
  }

  function StartWrite(c: Conn): Conn {
    c.(pending := c.pending + [Write(c.reply, StatusOnStart(c.socketOpen))])
  }

  function AbortStatus(status: OpStatus): OpStatus {
    if status == Unfinished then Completed(Aborted) else status
  }

  function AbortOp(op: Op): Op {
    op.(status := AbortStatus(op.status))
  }

  function AbortOps(ops: seq<Op>): (r: seq<Op>)
    ensures |r| == |ops| && forall k | 0 <= k < |ops| :: r[k] == AbortOp(ops[k])
  {
    if ops == [] then [] else [AbortOp(ops[0])] + AbortOps(ops[1..])
  }

  function Close(c: Conn): Conn {
    c.(socketOpen := false, pending := AbortOps(c.pending))
  }

  function Without<T>(s: seq<T>, k: nat): seq<T>
    requires k < |s|
  {
    s[..k] + s[k + 1..]
  }

  function NewConn(g: Garbage): Conn {
    var config := Config(MethodStart, RequestData("", "", g.major, g.minor, []));
    Conn(true, [], config, ReplyData(g.status, [], ""), config, "", 0, 0, map[])
  }

  /** Handler of a read that brought `data`. */
  function Received(c: Conn, data: string, docRoot: string, files: map<string, string>): Conn
    requires Sound(c.parser)
  {
    var o := Run(c.parser, data);
    var d := c.(parser := o.config, received := c.received + data);
    match o.verdict
    case Good =>
      StartWrite(d.(reply := Handle(c.reply, docRoot, o.config.req.uri, files), store := files,
                    verdicts := c.verdicts + 1, replies := c.replies + 1))
    case Bad =>
      StartWrite(d.(reply := StockReply(BadRequest), store := files,
                    verdicts := c.verdicts + 1, replies := c.replies + 1))
    case Indeterminate => StartRead(d)
  }

  /** The connection after the handler of `op` has run, leaving its place in the manager aside. */
  function Handled(c: Conn, op: Op, docRoot: string, files: map<string, string>): Conn
    requires Sound(c.parser)
  {
    match op
    case Read(Completed(Success(data))) => Received(c, data, docRoot, files)
    case _ => c
  }

  /** Whether the handler of `op` ends with the manager stopping the connection. */
  predicate Stops(op: Op) {
    match op
    case Read(Completed(Failed)) => true
    case Write(_, Completed(Success(_))) => true
    case Write(_, Completed(Failed)) => true
    case _ => false
  }

  // ---- The whole server

  function StopConn(s: ServerState, i: nat): ServerState
    requires i < |s.conns|
  {
    s.(conns := s.conns[i := Close(s.conns[i])], managed := s.managed - {i})
  }

  function CloseManaged(conns: seq<Conn>, managed: set<nat>): (r: seq<Conn>)
    ensures |r| == |conns|
    ensures forall i | 0 <= i < |conns| :: r[i] == if i in managed then Close(conns[i]) else conns[i]
  {
    seq(|conns|, i requires 0 <= i < |conns| => if i in managed then Close(conns[i]) else conns[i])
  }

  function AbortAccepts(accepts: seq<OpStatus>): (r: seq<OpStatus>)
    ensures |r| == |accepts| && forall k | 0 <= k < |accepts| :: r[k] == AbortStatus(accepts[k])
  {
    seq(|accepts|, k requires 0 <= k < |accepts| => AbortStatus(accepts[k]))
  }

  datatype Event =
    | FinishAccept(k: nat, result: Result)
    | RunAccept(k: nat, garbage: Garbage)
    | Signal
    | Finish(i: nat, k: nat, result: Result)
    | RunOp(i: nat, k: nat, files: map<string, string>)

  /** The results the network may give an unfinished operation. */
  predicate PossibleResult(op: Op, result: Result) {
    match result
    case Success(data) => op.Read? ==> |data| <= BUFFER_SIZE
    case Aborted => false
    case Failed => true
  }

  predicate Enabled(s: ServerState, e: Event) {
    match e
    case FinishAccept(k, result) => k < |s.accepts| && s.accepts[k] == Unfinished && result != Aborted
    case RunAccept(k, _) => k < |s.accepts| && s.accepts[k] != Unfinished
    case Signal => s.signalArmed
    case Finish(i, k, result) =>
      && i < |s.conns| && k < |s.conns[i].pending|
      && s.conns[i].pending[k].status == Unfinished && PossibleResult(s.conns[i].pending[k], result)
    case RunOp(i, k, _) =>
      && i < |s.conns| && k < |s.conns[i].pending|
      && s.conns[i].pending[k].status != Unfinished && Sound(s.conns[i].parser)
  }

  function NextAccept(s: ServerState, k: nat, g: Garbage): ServerState
    requires k < |s.accepts|
  {
    var accepts := Without(s.accepts, k);
    if !s.acceptorOpen then s.(accepts := accepts)
    else if s.accepts[k].Completed? && s.accepts[k].result.Success? then
      s.(accepts := accepts + [Unfinished],
         conns := s.conns + [StartRead(NewConn(g))],
         managed := s.managed + {|s.conns|})
    else s.(accepts := accepts + [Unfinished])
  }

  function NextSignal(s: ServerState): ServerState {
    s.(acceptorOpen := false, accepts := AbortAccepts(s.accepts), signalArmed := false,
       conns := CloseManaged(s.conns, s.managed), managed := {})
  }

  function NextOp(s: ServerState, i: nat, k: nat, files: map<string, string>): ServerState
    requires i < |s.conns| && k < |s.conns[i].pending| && Sound(s.conns[i].parser)
  {
    var c := s.conns[i];
    var op := c.pending[k];
    var t := s.(conns := s.conns[i := Handled(c.(pending := Without(c.pending, k)), op, s.docRoot, files)]);
    if Stops(op) then StopConn(t, i) else t
  }

  function Next(s: ServerState, e: Event): ServerState
    requires Enabled(s, e)
  {
    match e
    case FinishAccept(k, result) => s.(accepts := s.accepts[k := Completed(result)])
    case RunAccept(k, g) => NextAccept(s, k, g)
    case Signal => NextSignal(s)
    case Finish(i, k, result) =>
      var c := s.conns[i];
      s.(conns := s.conns[i := c.(pending := c.pending[k := c.pending[k].(status := Completed(result))])])
    case RunOp(i, k, files) => NextOp(s, i, k, files)
  }

  function Init(docRoot: string): ServerState {
    ServerState(docRoot, true, [Unfinished], true, [], {})
  }

  /** The events can happen in this order from `s`. */
  predicate Possible(s: ServerState, events: seq<Event>)
    decreases |events|
  {
    events == [] || (Enabled(s, events[0]) && Possible(Next(s, events[0]), events[1..]))
  }

  function After(s: ServerState, events: seq<Event>): ServerState
    requires Possible(s, events)
    decreases |events|
  {
    if events == [] then s else After(Next(s, events[0]), events[1..])
  }
}
