/** What holds over whole runs of the server. */
module ServerRuns {
  import opened ParserMachine
  import opened RequestGrammar
  import opened ParserLanguage
  import opened Reply
  import opened RequestHandler
  import opened ServerProtocol
  import opened ServerInvariants

  lemma StepKeepsInv(s: ServerState, e: Event)
    requires Inv(s) && Enabled(s, e)
    ensures Inv(Next(s, e))
  {
    match e
    case FinishAccept(k, result) =>
    case RunAccept(k, g) => AcceptKeepsInv(s, k, g);
    case Signal => SignalKeepsInv(s);
    case Finish(i, k, result) => FinishKeepsInv(s, i, k, result);
    case RunOp(i, k, files) => OpKeepsInv(s, i, k, files);
  }

  /** Every reachable state: the manager holds exactly the connections whose sockets are open,
      each of them has exactly one outstanding operation, a listening server has exactly one
      outstanding accept, and every connection's parser, reply and counters agree with one parse
      of everything it has read. */
  lemma {:induction false} RunKeepsInv(s: ServerState, events: seq<Event>)
    requires Inv(s) && Possible(s, events)
    ensures Inv(After(s, events))
    decreases |events|
  {
    if events != [] {
      StepKeepsInv(s, events[0]);
      RunKeepsInv(Next(s, events[0]), events[1..]);
    }
  }

  ghost predicate Reachable(s: ServerState) {
    exists docRoot, events :: Possible(Init(docRoot), events) && s == After(Init(docRoot), events)
  }

  lemma {:induction false} RunThenStep(s: ServerState, events: seq<Event>, e: Event)
    requires Possible(s, events) && Enabled(After(s, events), e)
    ensures Possible(s, events + [e]) && After(s, events + [e]) == Next(After(s, events), e)
    decreases |events|
  {
    if events == [] {
      assert [e][1..] == [] && events + [e] == [e];
    } else {
      RunThenStep(Next(s, events[0]), events[1..], e);
      assert (events + [e])[1..] == events[1..] + [e];
    }
  }

  /** The initial state is reachable, and every step leads on to a reachable state. */
  lemma StepsStayReachable(docRoot: string, s: ServerState, e: Event)
    ensures Reachable(Init(docRoot))
    ensures Reachable(s) && Enabled(s, e) ==> Reachable(Next(s, e))
  {
    assert Possible(Init(docRoot), []) && After(Init(docRoot), []) == Init(docRoot);
    if Reachable(s) && Enabled(s, e) {
      var root, events :| Possible(Init(root), events) && s == After(Init(root), events);
      RunThenStep(Init(root), events, e);
    }
  }

  lemma ReachableInv(s: ServerState)
    requires Reachable(s)
    ensures Inv(s)
  {
    var docRoot, events :| Possible(Init(docRoot), events) && s == After(Init(docRoot), events);
    InitInv(docRoot);
    RunKeepsInv(Init(docRoot), events);
  }

  // ---- Connections

  /** A connection is in the manager if and only if its socket is open, and then it has exactly
      one outstanding read or write; a connection with an aborted operation is in neither. */
  lemma ManagedMeansOneOperation(s: ServerState, i: nat)
    requires Reachable(s) && i < |s.conns|
    ensures i in s.managed <==> s.conns[i].socketOpen
    ensures i in s.managed ==> |s.conns[i].pending| == 1
    ensures |s.conns[i].pending| <= 1
    ensures forall op | op in s.conns[i].pending && op.status == Completed(Aborted) :: i !in s.managed
  {
    ReachableInv(s);
  }

  /** However the bytes came in, parser, request and reply are those of one parse of all of them:
      the handler has run if and only if that parse is good, the stock 400 has been given if and
      only if it is bad, and otherwise nothing has been answered. */
  lemma ReadsAreOneParse(s: ServerState, i: nat)
    requires Reachable(s) && i < |s.conns|
    ensures Fresh(s.conns[i].start)
    ensures var c, o := s.conns[i], Run(s.conns[i].start, s.conns[i].received);
            && c.parser == o.config
            && (o.verdict == Good ==> c.replies == 1 && c.reply == Handle(BLANK, s.docRoot, o.config.req.uri, c.store))
            && (o.verdict == Bad ==> c.replies == 1 && c.reply == StockReply(BadRequest))
            && (o.verdict == Indeterminate ==> c.replies == 0 && c.reply.headers == [] && c.reply.content == "")
  {
    ReachableInv(s);
  }

  /** A completed operation can always be dispatched: its parser is in a state it can work from. */
  lemma CompletedMeansEnabled(s: ServerState, i: nat, k: nat, files: map<string, string>)
    requires Reachable(s) && i < |s.conns| && k < |s.conns[i].pending|
    ensures Enabled(s, RunOp(i, k, files)) <==> s.conns[i].pending[k].status != Unfinished
  {
    ReachableInv(s);
    assert ConnOk(s.conns[i], s.docRoot);
  }

  /** A connection has been answered if and only if the bytes it has read so far contain a
      complete request or can no longer become one; the handler's answer goes to the former, the
      stock 400 to the latter. Nothing here depends on how the bytes came in. */
  lemma AnsweredByTheLanguage(s: ServerState, i: nat)
    requires Reachable(s) && i < |s.conns|
    ensures var c := s.conns[i];
            var complete := exists k :: 0 <= k <= |c.received| && IsRequest(c.received[..k]);
            && c.verdicts == c.replies
            && (c.verdicts == 0 <==> exists t :: t != "" && IsRequest(c.received + t))
            && (c.verdicts == 1 <==> complete || !Viable(c.received))
            && (c.verdicts == 1 && !complete ==> c.reply == StockReply(BadRequest))
            && (complete ==> c.reply == Handle(BLANK, s.docRoot, c.parser.req.uri, c.store))
  {
    ReachableInv(s);
    var c := s.conns[i];
    VerdictMeansLanguage(c.start, c.received);
  }

  /** The request that was handled is the meaning of the bytes up to its end. */
  lemma HandledTheMeaning(s: ServerState, i: nat, m: Message, k: nat)
    requires Reachable(s) && i < |s.conns| && k <= |s.conns[i].received|
    requires MessageOk(m) && MessageText(m) == s.conns[i].received[..k]
    ensures s.conns[i].parser.req == Meaning(m) && s.conns[i].verdicts == 1
  {
    ReachableInv(s);
    var c := s.conns[i];
    TreeAccepted(c.start, m, c.received[k..]);
    assert c.received[..k] + c.received[k..] == c.received;
  }

  /** The parser is never fed behind its verdict, and the handler always gets a fresh reply. */
  lemma NothingFedAfterVerdict(s: ServerState, i: nat, k: nat, files: map<string, string>)
    requires Reachable(s) && Enabled(s, RunOp(i, k, files)) && s.conns[i].pending[k].Read?
    ensures s.conns[i].verdicts == 0 && s.conns[i].replies == 0
    ensures s.conns[i].reply.headers == [] && s.conns[i].reply.content == ""
  {
    ReachableInv(s);
    ReadsComeFirst(s.conns[i], s.docRoot, k);
  }

  lemma ReadsComeFirst(c: Conn, docRoot: string, k: nat)
    requires ConnOk(c, docRoot) && k < |c.pending| && c.pending[k].Read?
    ensures c.verdicts == 0 && c.replies == 0 && c.reply.headers == [] && c.reply.content == ""
  {
  }

  /** Whatever reply a connection ends up with announces its own length. */
  lemma EveryReplyIsDelimited(s: ServerState, i: nat)
    requires Reachable(s) && i < |s.conns| && s.conns[i].replies > 0
    ensures Delimited(s.conns[i].reply)
  {
    ReachableInv(s);
    var c := s.conns[i];
    StockIsDelimited(BadRequest);
    HandledIsDelimited(BLANK, s.docRoot, c.parser.req.uri, c.store);
  }

  /** A reply of status 200 carries exactly the bytes of the file the request named, as the
      handler found it. */
  lemma EveryOkReplyIsAFile(s: ServerState, i: nat)
    requires Reachable(s) && i < |s.conns| && s.conns[i].replies > 0 && s.conns[i].reply.status == Ok
    ensures var c, target := s.conns[i], Target(s.docRoot, s.conns[i].parser.req.uri);
            target.Some? && target.value in c.store && c.reply.content == c.store[target.value]
  {
    ReachableInv(s);
    var c := s.conns[i];
    assert StockReply(BadRequest).status == BadRequest;
    OkCarriesFile(BLANK, s.docRoot, c.parser.req.uri, c.store);
  }

  lemma HandlerRecordsStore(c: Conn, k: nat, docRoot: string, files: map<string, string>)
    requires k < |c.pending| && Sound(c.parser)
    ensures var d := AfterHandler(c, k, docRoot, files);
            d.store == if d.verdicts > c.verdicts then files else c.store
  {
  }

  /** The store of a connection is the one its verdict was dealt with. */
  lemma StoreIsRecorded(s: ServerState, i: nat, k: nat, files: map<string, string>)
    requires Reachable(s) && Enabled(s, RunOp(i, k, files))
    ensures var c, d := s.conns[i], Next(s, RunOp(i, k, files)).conns[i];
            d.store == if d.verdicts > c.verdicts then files else c.store
  {
    OpChangesOne(s, i, k, files);
    HandlerRecordsStore(s.conns[i], k, s.docRoot, files);
  }

  /** `d` is a later state of connection `c`: no bytes, verdicts or replies are taken back, a
      closed socket stays closed, and behind a verdict nothing is read and the request and reply
      stay as they are. */
  predicate LaterThan(c: Conn, d: Conn) {
    && d.start == c.start && c.received <= d.received && c.verdicts <= d.verdicts && c.replies <= d.replies
    && (c.verdicts > 0 ==> d.received == c.received && d.parser == c.parser && d.reply == c.reply && d.store == c.store)
    && (!c.socketOpen ==> !d.socketOpen)
  }

  lemma HandlerMovesOn(c: Conn, k: nat, docRoot: string, files: map<string, string>)
    requires ConnOk(c, docRoot) && k < |c.pending| && c.pending[k].status != Unfinished
    ensures LaterThan(c, AfterHandler(c, k, docRoot, files))
  {
  }

  lemma LaterThanItself(c: Conn)
    ensures LaterThan(c, c) && LaterThan(c, Close(c))
  {
  }

  lemma HistoryOnlyGrows(s: ServerState, e: Event, i: nat)
    requires Reachable(s) && Enabled(s, e) && i < |s.conns|
    ensures i < |Next(s, e).conns| && LaterThan(s.conns[i], Next(s, e).conns[i])
  {
    ReachableInv(s);
    LaterThanItself(s.conns[i]);
    match e
    case FinishAccept(_, _) =>
    case RunAccept(_, _) =>
    case Signal =>
    case Finish(_, _, _) =>
    case RunOp(j, k, files) =>
      HandlerMovesOn(s.conns[j], k, s.docRoot, files);
      OpChangesOne(s, j, k, files);
  }

  // ---- Where a reply comes from

  /** When a handler gives a reply of status 200, its content is the file the request named, out of
      the files as that handler found them. */
  lemma OkReplyIsTheFile(s: ServerState, i: nat, k: nat, files: map<string, string>)
    requires Reachable(s) && Enabled(s, RunOp(i, k, files))
    requires var d := Next(s, RunOp(i, k, files)).conns[i];
             d.replies > s.conns[i].replies && d.reply.status == Ok
    ensures var d := Next(s, RunOp(i, k, files)).conns[i];
            var target := Target(s.docRoot, d.parser.req.uri);
            target.Some? && target.value in files && d.reply.content == files[target.value]
  {
    var t := Next(s, RunOp(i, k, files));
    StepsStayReachable(s.docRoot, s, RunOp(i, k, files));
    EveryOkReplyIsAFile(t, i);
    CountsAgree(s, i);
    CountsAgree(t, i);
    StoreIsRecorded(s, i, k, files);
  }

  lemma CountsAgree(s: ServerState, i: nat)
    requires Reachable(s) && i < |s.conns|
    ensures s.conns[i].verdicts == s.conns[i].replies
  {
    ReachableInv(s);
  }

  lemma LaterThanLater(c: Conn, d: Conn, e: Conn)
    requires LaterThan(c, d) && LaterThan(d, e)
    ensures LaterThan(c, e)
  {
  }

  /** Over a whole run the history of a connection only grows. */
  lemma {:induction false} RunOnlyGrows(s: ServerState, events: seq<Event>, i: nat)
    requires Reachable(s) && Possible(s, events) && i < |s.conns|
    ensures i < |After(s, events).conns| && LaterThan(s.conns[i], After(s, events).conns[i])
    decreases |events|
  {
    if events == [] {
      LaterThanItself(s.conns[i]);
    } else {
      var t := Next(s, events[0]);
      HistoryOnlyGrows(s, events[0], i);
      StepsStayReachable(s.docRoot, s, events[0]);
      RunOnlyGrows(t, events[1..], i);
      LaterThanLater(s.conns[i], t.conns[i], After(t, events[1..]).conns[i]);
    }
  }

  /** Only its own handlers give a connection a reply; a new connection has none. */
  lemma ReplyComesFromHandler(s: ServerState, e: Event, i: nat)
    requires Reachable(s) && Enabled(s, e) && i < |Next(s, e).conns| && Next(s, e).conns[i].replies > 0
    requires i < |s.conns| ==> s.conns[i].replies == 0
    ensures i < |s.conns| && e.RunOp? && e.i == i && Next(s, e).conns[i].store == e.files
  {
    if e.RunOp? {
      OpChangesOne(s, e.i, e.k, e.files);
      assert e.i == i;
      StepsStayReachable(s.docRoot, s, e);
      CountsAgree(s, i);
      CountsAgree(Next(s, e), i);
      StoreIsRecorded(s, i, e.k, e.files);
    }
  }

  lemma StoreStays(s: ServerState, events: seq<Event>, i: nat)
    requires Reachable(s) && Possible(s, events) && i < |s.conns| && s.conns[i].replies > 0
    ensures i < |After(s, events).conns| && After(s, events).conns[i].store == s.conns[i].store
  {
    RunOnlyGrows(s, events, i);
    CountsAgree(s, i);
  }

  /** A connection that gets its reply on the first step of a run keeps the store of that step. */
  lemma FirstReply(s: ServerState, e: Event, rest: seq<Event>, i: nat)
    requires Reachable(s) && Enabled(s, e) && Possible(Next(s, e), rest)
    requires i < |s.conns| ==> s.conns[i].replies == 0
    requires i < |Next(s, e).conns| && Next(s, e).conns[i].replies > 0
    ensures e.RunOp? && e.i == i && i < |After(Next(s, e), rest).conns|
    ensures After(Next(s, e), rest).conns[i].store == e.files
  {
    ReplyComesFromHandler(s, e, i);
    StepsStayReachable(s.docRoot, s, e);
    StoreStays(Next(s, e), rest, i);
  }

  /** In every run, a connection that has been answered was answered by one of its handlers, and
      its store is the one that handler ran with. */
  lemma {:induction false} ReplyHasItsEvent(s: ServerState, events: seq<Event>, i: nat) returns (j: nat)
    requires Reachable(s) && Possible(s, events)
    requires i < |After(s, events).conns| && After(s, events).conns[i].replies > 0
    requires i < |s.conns| ==> s.conns[i].replies == 0
    ensures j < |events| && events[j].RunOp? && events[j].i == i
    ensures After(s, events).conns[i].store == events[j].files
    decreases |events|
  {
    var t := Next(s, events[0]);
    if i < |t.conns| && t.conns[i].replies > 0 {
      FirstReply(s, events[0], events[1..], i);
      j := 0;
    } else {
      StepsStayReachable(s.docRoot, s, events[0]);
      var m := ReplyHasItsEvent(t, events[1..], i);
      j := m + 1;
    }
  }

  /** In every run from the start, each reply of status 200 has as its content the file the request
      named, out of the files that some handler of that connection was run with. */
  lemma OkRepliesComeFromFiles(docRoot: string, events: seq<Event>, i: nat) returns (j: nat)
    requires Possible(Init(docRoot), events) && i < |After(Init(docRoot), events).conns|
    requires var c := After(Init(docRoot), events).conns[i]; c.replies > 0 && c.reply.status == Ok
    ensures j < |events| && events[j].RunOp? && events[j].i == i
    ensures var t := After(Init(docRoot), events);
            var target := Target(t.docRoot, t.conns[i].parser.req.uri);
            && target.Some? && target.value in events[j].files
            && t.conns[i].reply.content == events[j].files[target.value]
  {
    assert Reachable(After(Init(docRoot), events));
    StepsStayReachable(docRoot, Init(docRoot), Signal);
    j := ReplyHasItsEvent(Init(docRoot), events, i);
    EveryOkReplyIsAFile(After(Init(docRoot), events), i);
  }

  // ---- Listening

  lemma ListeningMeansOneAccept(s: ServerState)
    requires Reachable(s)
    ensures s.acceptorOpen ==> |s.accepts| == 1
    ensures |s.accepts| <= 1
    ensures s.acceptorOpen <==> s.signalArmed
  {
    ReachableInv(s);
  }

  // ---- Shutting down

  /** How many handlers an operation still stands for once its socket is closed: a read that has
      brought bytes leads to one more operation, which fails at once. */
  function OpWeight(op: Op): nat {
    match op
    case Read(Completed(Success(_))) => 2
    case _ => 1
  }

  function OpsWeight(ops: seq<Op>): nat {
    if ops == [] then 0 else OpWeight(ops[0]) + OpsWeight(ops[1..])
  }

  function ConnsWeight(conns: seq<Conn>): nat {
    if conns == [] then 0 else OpsWeight(conns[0].pending) + ConnsWeight(conns[1..])
  }

  /** The measure that every step after the signal decreases. */
  function Remaining(s: ServerState): nat {
    |s.accepts| + ConnsWeight(s.conns)
  }

  /** Nothing outstanding: the I/O service returns from its run. */
  predicate Idle(s: ServerState) {
    s.accepts == [] && !s.signalArmed && forall i | 0 <= i < |s.conns| :: s.conns[i].pending == []
  }

  lemma {:induction false} WeightOfUpdate(conns: seq<Conn>, i: nat, c: Conn)
    requires i < |conns|
    ensures ConnsWeight(conns[i := c]) == ConnsWeight(conns) - OpsWeight(conns[i].pending) + OpsWeight(c.pending)
    decreases |conns|
  {
    if i == 0 {
      assert conns[0 := c][1..] == conns[1..];
    } else {
      WeightOfUpdate(conns[1..], i - 1, c);
      assert conns[i := c][1..] == conns[1..][i - 1 := c];
    }
  }

  lemma {:induction false} NoWeightIsNoOps(conns: seq<Conn>)
    ensures ConnsWeight(conns) == 0 <==> forall i | 0 <= i < |conns| :: conns[i].pending == []
  {
    if conns != [] {
      NoWeightIsNoOps(conns[1..]);
      assert forall i | 0 < i < |conns| :: conns[i] == conns[1..][i - 1];
      assert forall i | 0 <= i < |conns[1..]| :: conns[1..][i] == conns[i + 1];
      assert ConnsWeight(conns) == 0 <==> conns[0].pending == [] && ConnsWeight(conns[1..]) == 0;
    }
  }

  /** The handler of an operation on a closed connection leaves less to do than it takes away. */
  lemma HandlerLeavesLess(c: Conn, k: nat, docRoot: string, files: map<string, string>)
    requires ConnOk(c, docRoot) && !c.socketOpen && k < |c.pending|
    ensures OpsWeight(AfterHandler(c, k, docRoot, files).pending) < OpsWeight(c.pending)
  {
    var bare := c.(pending := Without(c.pending, k));
    assert bare.pending == [];
    assert OpsWeight(c.pending) == OpWeight(c.pending[0]) by {
      assert c.pending[1..] == [];
    }
    var d := AfterHandler(c, k, docRoot, files);
    assert |d.pending| <= 1;
    if d.pending != [] {
      assert d.pending[1..] == [] && d.pending[0].status == Completed(Failed);
    }
  }

  lemma StoppedStepIsHandler(s: ServerState, e: Event)
    requires Inv(s) && !s.acceptorOpen && Enabled(s, e)
    ensures e.RunAccept? || e.RunOp?
  {
    match e
    case FinishAccept(k, _) =>
    case RunAccept(_, _) =>
    case Signal =>
    case Finish(i, k, _) =>
    case RunOp(_, _, _) =>
  }

  lemma StoppedOpCountsDown(s: ServerState, i: nat, k: nat, files: map<string, string>)
    requires Inv(s) && !s.acceptorOpen && Enabled(s, RunOp(i, k, files))
    ensures Remaining(NextOp(s, i, k, files)) < Remaining(s)
  {
    OpChangesOne(s, i, k, files);
    HandlerLeavesLess(s.conns[i], k, s.docRoot, files);
    WeightOfUpdate(s.conns, i, AfterHandler(s.conns[i], k, s.docRoot, files));
  }

  /** Once the server has stopped listening, every possible step is a handler, starts no
      connection, keeps the server stopped and decreases the measure. */
  lemma StoppedStepsCountDown(s: ServerState, e: Event)
    requires Inv(s) && !s.acceptorOpen && Enabled(s, e)
    ensures e.RunAccept? || e.RunOp?
    ensures var t := Next(s, e);
            && !t.acceptorOpen && |t.conns| == |s.conns| && t.managed == {}
            && Remaining(t) < Remaining(s)
  {
    StepKeepsInv(s, e);
    StoppedStepIsHandler(s, e);
    if e.RunOp? {
      StoppedOpCountsDown(s, e.i, e.k, e.files);
    }
  }

  /** The signal itself stops listening, empties the manager and starts nothing. */
  lemma SignalStops(s: ServerState)
    requires Inv(s) && Enabled(s, Signal)
    ensures var t := Next(s, Signal);
            Inv(t) && !t.acceptorOpen && t.managed == {} && |t.conns| == |s.conns|
  {
    StepKeepsInv(s, Signal);
  }

  /** A stopped server with work outstanding can always take a step. */
  lemma StoppedIsNeverStuck(s: ServerState) returns (e: Event)
    requires Inv(s) && !s.acceptorOpen && !Idle(s)
    ensures Enabled(s, e)
  {
    if s.accepts != [] {
      e := RunAccept(0, Garbage(0, 0, Ok));
    } else {
      var i :| 0 <= i < |s.conns| && s.conns[i].pending != [];
      assert ConnOk(s.conns[i], s.docRoot);
      e := RunOp(i, 0, map[]);
    }
  }

  lemma IdleMeansStuck(s: ServerState, e: Event)
    requires Idle(s) && !s.acceptorOpen && !s.signalArmed
    ensures !Enabled(s, e)
  {
  }

  lemma IdleMeansWeightless(s: ServerState)
    requires !s.signalArmed
    ensures Idle(s) <==> Remaining(s) == 0
  {
    NoWeightIsNoOps(s.conns);
  }

  /** A stopped server has nothing left to do exactly when nothing is outstanding. */
  lemma StuckMeansIdle(s: ServerState)
    requires Inv(s) && !s.acceptorOpen
    ensures (forall e :: !Enabled(s, e)) <==> Idle(s)
    ensures Idle(s) <==> Remaining(s) == 0
  {
    IdleMeansWeightless(s);
    if Idle(s) {
      forall e ensures !Enabled(s, e) {
        IdleMeansStuck(s, e);
      }
    } else {
      var e := StoppedIsNeverStuck(s);
      assert Enabled(s, e);
    }
  }

  /** After the signal every run is shorter than the measure and starts no connection. */
  lemma {:induction false} ShutdownCountsDown(s: ServerState, events: seq<Event>)
    requires Inv(s) && !s.acceptorOpen && Possible(s, events)
    ensures var t := After(s, events);
            Inv(t) && !t.acceptorOpen && |t.conns| == |s.conns| && |events| + Remaining(t) <= Remaining(s)
    decreases |events|
  {
    if events != [] {
      StoppedStepsCountDown(s, events[0]);
      StepKeepsInv(s, events[0]);
      ShutdownCountsDown(Next(s, events[0]), events[1..]);
    }
  }

  lemma {:induction false} WeightBound(conns: seq<Conn>)
    requires forall i | 0 <= i < |conns| :: |conns[i].pending| <= 1
    ensures ConnsWeight(conns) <= 2 * |conns|
  {
    if conns != [] {
      WeightBound(conns[1..]);
      assert |conns[0].pending| <= 1;
      assert conns[0].pending == [] || conns[0].pending[1..] == [];
      assert OpsWeight(conns[0].pending) <= 2;
    }
  }

  /** Every run after the signal that cannot be continued has reached the point where nothing is
      outstanding, and no run goes on for more than two steps per connection ever started and
      one for the accept. */
  lemma ShutdownTerminates(s: ServerState, events: seq<Event>)
    requires Reachable(s) && !s.acceptorOpen && Possible(s, events)
    ensures var t := After(s, events);
            && |events| <= 2 * |s.conns| + 1
            && |t.conns| == |s.conns|
            && ((forall e :: !Enabled(t, e)) <==> Idle(t))
  {
    ReachableInv(s);
    ShutdownCountsDown(s, events);
    StuckMeansIdle(After(s, events));
    assert forall i | 0 <= i < |s.conns| :: ConnOk(s.conns[i], s.docRoot);
    WeightBound(s.conns);
  }

  /** From the signal on: the manager is empty and stays so, no connection is started, no run goes
      on for more than two steps per connection and one for the accept, and it ends with nothing
      outstanding. */
  lemma SignalEndsServer(s: ServerState, events: seq<Event>)
    requires Reachable(s) && Enabled(s, Signal) && Possible(Next(s, Signal), events)
    ensures var t := After(Next(s, Signal), events);
            && |events| <= 2 * |s.conns| + 1
            && |t.conns| == |s.conns| && !t.acceptorOpen && t.managed == {}
            && ((forall e :: !Enabled(t, e)) <==> Idle(t))
  {
    ReachableInv(s);
    SignalStops(s);
    StepsStayReachable(s.docRoot, s, Signal);
    ShutdownTerminates(Next(s, Signal), events);
    ShutdownCountsDown(Next(s, Signal), events);
  }
}
