/** What holds in every reachable state of the server. */
module ServerInvariants {
  import opened ParserMachine
  import opened Reply
  import opened RequestHandler
  import opened ServerProtocol

  const BLANK := ReplyData(Ok, [], "")

  /** `reply` is the answer to what parsing the received bytes gave: to a request the handler's,
      made from nothing; to anything else the stock 400. */
  predicate Answers(reply: ReplyData, docRoot: string, o: Outcome, files: map<string, string>) {
    match o.verdict
    case Good => reply == Handle(BLANK, docRoot, o.config.req.uri, files)
    case Bad => reply == StockReply(BadRequest)
    case Indeterminate => false
  }

  /** The parser and the counters of a connection agree with one parse of all it has read. */
  predicate HistoryOk(c: Conn, docRoot: string) {
    && Fresh(c.start)
    && var o := Run(c.start, c.received);
       && c.parser == o.config
       && c.verdicts == c.replies == (if o.verdict == Indeterminate then 0 else 1)
       && (o.verdict == Indeterminate ==> c.reply.headers == [] && c.reply.content == "")
       && (o.verdict != Indeterminate ==> Answers(c.reply, docRoot, o, c.store))
  }

  /** A completed read brought no more than the buffer holds. */
  predicate ResultFits(op: Op) {
    op.Read? && op.status.Completed? && op.status.result.Success? ==> |op.status.result.data| <= BUFFER_SIZE
  }

  /** An outstanding operation fits its connection: it is aborted or unfinished only as the
      socket allows, it reads before the verdict and writes the reply behind it. */
  predicate OpOk(c: Conn, op: Op) {
    && op.status != (if c.socketOpen then Completed(Aborted) else Unfinished)
    && (op.Read? <==> c.verdicts == 0)
    && (op.Write? ==> op.reply == c.reply)
    && ResultFits(op)
  }

  predicate PendingOk(c: Conn) {
    && |c.pending| <= 1
    && (c.socketOpen ==> |c.pending| == 1)
    && (c.pending != [] ==> OpOk(c, c.pending[0]))
  }

  predicate ConnOk(c: Conn, docRoot: string) {
    HistoryOk(c, docRoot) && PendingOk(c)
  }

  predicate Inv(s: ServerState) {
    && (forall i | 0 <= i < |s.conns| :: ConnOk(s.conns[i], s.docRoot))
    && (forall i | i in s.managed :: i < |s.conns|)
    && (forall i | 0 <= i < |s.conns| :: i in s.managed <==> s.conns[i].socketOpen)
    && |s.accepts| <= 1
    && (s.acceptorOpen <==> s.signalArmed)
    && (s.acceptorOpen ==> |s.accepts| == 1)
    && (!s.acceptorOpen ==> s.managed == {} && forall k | 0 <= k < |s.accepts| :: s.accepts[k] != Unfinished)
  }

  // ---- Steps of one connection

  lemma NewConnOk(g: Garbage, docRoot: string)
    ensures ConnOk(StartRead(NewConn(g)), docRoot)
  {
  }

  lemma CloseOk(c: Conn, docRoot: string)
    requires ConnOk(c, docRoot)
    ensures ConnOk(Close(c), docRoot)
  {
  }

  lemma FinishOk(c: Conn, docRoot: string, result: Result)
    requires ConnOk(c, docRoot) && |c.pending| == 1 && c.socketOpen && PossibleResult(c.pending[0], result)
    ensures ConnOk(c.(pending := [c.pending[0].(status := Completed(result))]), docRoot)
  {
  }

  lemma HandleIgnoresStatus(before: ReplyData, docRoot: string, uri: string, files: map<string, string>)
    requires before.content == ""
    ensures Handle(before, docRoot, uri, files) == Handle(BLANK, docRoot, uri, files)
  {
  }

  /** Reading more keeps the history: the verdict is that of one parse of everything read. */
  lemma ReceivedHistory(c: Conn, data: string, docRoot: string, files: map<string, string>)
    requires HistoryOk(c, docRoot) && c.verdicts == 0
    ensures HistoryOk(Received(c, data, docRoot, files), docRoot)
  {
    RunAppend(c.start, c.received, data);
    var o := Run(c.parser, data);
    assert Run(c.start, c.received + data) == Shift(o, |c.received|);
    if o.verdict == Good {
      HandleIgnoresStatus(c.reply, docRoot, o.config.req.uri, files);
    }
  }

  lemma ReceivedOk(c: Conn, data: string, docRoot: string, files: map<string, string>)
    requires HistoryOk(c, docRoot) && c.verdicts == 0 && c.pending == []
    ensures ConnOk(Received(c, data, docRoot, files), docRoot)
  {
    ReceivedHistory(c, data, docRoot, files);
    assert |Received(c, data, docRoot, files).pending| == 1;
  }

  /** What running a handler makes of its connection, the manager's stop included. */
  function AfterHandler(c: Conn, k: nat, docRoot: string, files: map<string, string>): Conn
    requires k < |c.pending| && Sound(c.parser)
  {
    var d := Handled(c.(pending := Without(c.pending, k)), c.pending[k], docRoot, files);
    if Stops(c.pending[k]) then Close(d) else d
  }

  /** The handler of an aborted operation leaves its connection alone; it only ever runs for a
      connection that is closed already. */
  lemma HandledOk(c: Conn, k: nat, docRoot: string, files: map<string, string>)
    requires ConnOk(c, docRoot) && k < |c.pending| && c.pending[k].status != Unfinished
    ensures ConnOk(AfterHandler(c, k, docRoot, files), docRoot)
    ensures AfterHandler(c, k, docRoot, files).socketOpen <==> c.socketOpen && !Stops(c.pending[k])
  {
    var op := c.pending[k];
    var bare := c.(pending := Without(c.pending, k));
    assert bare.pending == [];
    if op.Read? && op.status.result.Success? {
      ReceivedOk(bare, op.status.result.data, docRoot, files);
    }
  }

  // ---- Steps of the server

  lemma InitInv(docRoot: string)
    ensures Inv(Init(docRoot))
  {
  }

  lemma AcceptKeepsInv(s: ServerState, k: nat, g: Garbage)
    requires Inv(s) && Enabled(s, RunAccept(k, g))
    ensures Inv(NextAccept(s, k, g))
  {
    NewConnOk(g, s.docRoot);
    assert Without(s.accepts, k) == [];
  }

  lemma SignalKeepsInv(s: ServerState)
    requires Inv(s)
    ensures Inv(NextSignal(s))
  {
    forall i | 0 <= i < |s.conns| ensures ConnOk(NextSignal(s).conns[i], s.docRoot) {
      CloseOk(s.conns[i], s.docRoot);
    }
  }

  lemma FinishKeepsInv(s: ServerState, i: nat, k: nat, result: Result)
    requires Inv(s) && Enabled(s, Finish(i, k, result))
    ensures Inv(Next(s, Finish(i, k, result)))
  {
    var c := s.conns[i];
    FinishOk(c, s.docRoot, result);
    assert c.pending[k := c.pending[k].(status := Completed(result))] == [c.pending[0].(status := Completed(result))];
  }

  /** A handler changes its own connection and nothing else. */
  lemma OpChangesOne(s: ServerState, i: nat, k: nat, files: map<string, string>)
    requires i < |s.conns| && k < |s.conns[i].pending| && Sound(s.conns[i].parser)
    ensures NextOp(s, i, k, files)
         == s.(conns := s.conns[i := AfterHandler(s.conns[i], k, s.docRoot, files)],
               managed := if Stops(s.conns[i].pending[k]) then s.managed - {i} else s.managed)
  {
    var c := s.conns[i];
    var d := Handled(c.(pending := Without(c.pending, k)), c.pending[k], s.docRoot, files);
    assert s.conns[i := d][i := Close(d)] == s.conns[i := Close(d)];
  }

  lemma OpKeepsInv(s: ServerState, i: nat, k: nat, files: map<string, string>)
    requires Inv(s) && Enabled(s, RunOp(i, k, files))
    ensures Inv(NextOp(s, i, k, files))
  {
    HandledOk(s.conns[i], k, s.docRoot, files);
    OpChangesOne(s, i, k, files);
  }
}
