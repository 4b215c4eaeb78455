/** The steps of the server in their own terms, and what they add up to over whole runs: where
    connections, bytes and status codes come from. */
module ServerSteps {
  import opened Options
  import opened HttpMessage
  import opened ParserMachine
  import opened Reply
  import opened UrlCodec
  import opened RequestHandler
  import opened ServerProtocol
  import opened ServerInvariants
  import opened ServerRuns

  // ---- When a step can be taken

  /** The network completes what is unfinished, with anything but an abort and at most 8192 bytes
      for a read; whatever has completed can have its handler run; the signal can come exactly
      while the server listens. */
  lemma EnabledMeans(s: ServerState, e: Event)
    requires Reachable(s)
    ensures match e
            case FinishAccept(k, result) =>
              Enabled(s, e) <==> k < |s.accepts| && s.accepts[k] == Unfinished && result != Aborted
            case RunAccept(k, _) => Enabled(s, e) <==> k < |s.accepts| && s.accepts[k] != Unfinished
            case Signal => Enabled(s, e) <==> s.acceptorOpen
            case Finish(i, k, result) =>
              Enabled(s, e) <==>
                && i < |s.conns| && k < |s.conns[i].pending| && s.conns[i].pending[k].status == Unfinished
                && result != Aborted
                && (s.conns[i].pending[k].Read? && result.Success? ==> |result.data| <= 8192)
            case RunOp(i, k, _) =>
              Enabled(s, e) <==>
                i < |s.conns| && k < |s.conns[i].pending| && s.conns[i].pending[k].status != Unfinished
  {
    ReachableInv(s);
    if e.RunOp? && e.i < |s.conns| && e.k < |s.conns[e.i].pending| {
      CompletedMeansEnabled(s, e.i, e.k, e.files);
    }
  }

  // ---- Accepting

  /** A connection that has just been started: open, fresh, and with one unfinished read. */
  predicate JustStarted(c: Conn) {
    && c.socketOpen && c.pending == [Read(Unfinished)]
    && c.parser.state == MethodStart && c.start == c.parser
    && c.parser.req.methodName == "" && c.parser.req.uri == "" && c.parser.req.headers == []
    && c.reply.headers == [] && c.reply.content == ""
    && c.received == "" && c.verdicts == c.replies == 0
  }

  /** The handler of a successful accept is about to run, and the server listens. */
  predicate Accepts(s: ServerState, e: Event) {
    e.RunAccept? && s.acceptorOpen && e.k < |s.accepts| && s.accepts[e.k].Completed? && s.accepts[e.k].result.Success?
  }

  /** A successful accept starts exactly one connection, which the manager then holds; a failed one,
      or one whose handler runs after the close, starts none. A listening server accepts again. */
  lemma AcceptStarts(s: ServerState, k: nat, g: Garbage)
    requires Reachable(s) && Enabled(s, RunAccept(k, g))
    ensures var t, n := Next(s, RunAccept(k, g)), |s.conns|;
            && t.docRoot == s.docRoot && t.acceptorOpen == s.acceptorOpen && t.signalArmed == s.signalArmed
            && t.accepts == (if s.acceptorOpen then [Unfinished] else [])
            && (Accepts(s, RunAccept(k, g)) ==>
                  && |t.conns| == n + 1 && t.conns[..n] == s.conns
                  && n !in s.managed && t.managed == s.managed + {n} && JustStarted(t.conns[n]))
            && (!Accepts(s, RunAccept(k, g)) ==> t.conns == s.conns && t.managed == s.managed)
  {
    ReachableInv(s);
    assert Without(s.accepts, k) == [];
  }

  /** How many accept handlers of a run found a success and the server listening. */
  function Accepted(s: ServerState, events: seq<Event>): nat
    requires Possible(s, events)
    decreases |events|
  {
    if events == [] then 0
    else (if Accepts(s, events[0]) then 1 else 0) + Accepted(Next(s, events[0]), events[1..])
  }

  lemma OnlyAcceptsStart(s: ServerState, e: Event)
    requires Reachable(s) && Enabled(s, e)
    ensures |Next(s, e).conns| == |s.conns| + if Accepts(s, e) then 1 else 0
  {
    if e.RunAccept? {
      AcceptStarts(s, e.k, e.garbage);
    }
  }

  /** Over any run, the connections that are started are the successful accepts of it. */
  lemma {:induction false} ConnectionsAreAccepts(s: ServerState, events: seq<Event>)
    requires Reachable(s) && Possible(s, events)
    ensures |After(s, events).conns| == |s.conns| + Accepted(s, events)
    decreases |events|
  {
    if events != [] {
      OnlyAcceptsStart(s, events[0]);
      StepsStayReachable(s.docRoot, s, events[0]);
      ConnectionsAreAccepts(Next(s, events[0]), events[1..]);
    }
  }

  // ---- Reading and writing

  /** What is started on a socket: it waits for the network, or has failed if the socket is closed. */
  function OnSocket(socketOpen: bool): OpStatus {
    if socketOpen then Unfinished else Completed(Failed)
  }

  /** The handler of a read that brought bytes adds exactly these to what was received, and starts
      the next operation: another read while there is no verdict, or the write of the reply. The
      socket stays as it is, and so does everything else in the server. */
  lemma ReadGoesOn(s: ServerState, i: nat, k: nat, data: string, files: map<string, string>)
    requires Reachable(s) && Enabled(s, RunOp(i, k, files))
    requires s.conns[i].pending[k] == Read(Completed(Success(data)))
    ensures var t := Next(s, RunOp(i, k, files));
            && t == s.(conns := s.conns[i := t.conns[i]])
            && (var c, d := s.conns[i], t.conns[i];
                && d.received == c.received + data && d.socketOpen == c.socketOpen
                && d.pending == (if d.replies == 0 then [Read(OnSocket(c.socketOpen))]
                                 else [Write(d.reply, OnSocket(c.socketOpen))]))
  {
    ReachableInv(s);
    ReadHandler(s.conns[i], s.docRoot, k, data, files);
    OpChangesOne(s, i, k, files);
  }

  lemma ReadHandler(c: Conn, docRoot: string, k: nat, data: string, files: map<string, string>)
    requires ConnOk(c, docRoot) && k < |c.pending| && c.pending[k] == Read(Completed(Success(data)))
    ensures var d := AfterHandler(c, k, docRoot, files);
            && d.received == c.received + data && d.socketOpen == c.socketOpen
            && d.pending == (if d.replies == 0 then [Read(OnSocket(c.socketOpen))]
                             else [Write(d.reply, OnSocket(c.socketOpen))])
  {
    var bare := c.(pending := Without(c.pending, k));
    assert bare.pending == [];
  }

  /** Any other handler starts nothing. It leaves an aborted operation at that; after a failed read
      and after every write the connection is closed and leaves the manager. */
  lemma OthersEnd(s: ServerState, i: nat, k: nat, files: map<string, string>)
    requires Reachable(s) && Enabled(s, RunOp(i, k, files))
    requires !(s.conns[i].pending[k].Read? && s.conns[i].pending[k].status.result.Success?)
    ensures var c, t := s.conns[i], Next(s, RunOp(i, k, files));
            if c.pending[k].status.result == Aborted
            then t == s.(conns := s.conns[i := c.(pending := [])])
            else t == s.(conns := s.conns[i := c.(pending := [], socketOpen := false)], managed := s.managed - {i})
  {
    ReachableInv(s);
    assert Without(s.conns[i].pending, k) == [];
    OpChangesOne(s, i, k, files);
  }

  /** Completing an operation gives it its result and does nothing else. */
  lemma FinishSettles(s: ServerState, i: nat, k: nat, result: Result)
    requires Reachable(s) && Enabled(s, Finish(i, k, result))
    ensures var t, c := Next(s, Finish(i, k, result)), s.conns[i];
            && t == s.(conns := s.conns[i := t.conns[i]])
            && t.conns[i] == c.(pending := t.conns[i].pending)
            && c.pending == [c.pending[0]] && c.pending[0].status == Unfinished
            && t.conns[i].pending == [if c.pending[0].Read? then Read(Completed(result))
                                      else Write(c.pending[0].reply, Completed(result))]
  {
    ReachableInv(s);
    assert |s.conns[i].pending| == 1;
  }

  lemma AcceptSettles(s: ServerState, k: nat, result: Result)
    requires Reachable(s) && Enabled(s, FinishAccept(k, result))
    ensures s.accepts == [Unfinished]
    ensures Next(s, FinishAccept(k, result)) == s.(accepts := [Completed(result)])
  {
    ReachableInv(s);
    assert s.accepts == [s.accepts[0]];
  }

  /** What a read handler is about to deliver to connection `i`. */
  function Brings(s: ServerState, e: Event, i: nat): string {
    match e
    case RunOp(j, k, _) =>
      if j == i < |s.conns| && k < |s.conns[i].pending| then
        match s.conns[i].pending[k]
        case Read(Completed(Success(data))) => data
        case _ => ""
      else ""
    case _ => ""
  }

  /** What the read handlers of a run deliver to connection `i`, in order. */
  function Brought(s: ServerState, events: seq<Event>, i: nat): string
    requires Possible(s, events)
    decreases |events|
  {
    if events == [] then "" else Brings(s, events[0], i) + Brought(Next(s, events[0]), events[1..], i)
  }

  /** The bytes a connection has received, none before it is started. */
  function ReceivedBy(s: ServerState, i: nat): string {
    if i < |s.conns| then s.conns[i].received else ""
  }

  lemma Regroup(a: string, b: string, c: string)
    ensures (a + b) + c == a + (b + c) && a + "" == a
  {
  }

  lemma StepBrings(s: ServerState, e: Event, i: nat)
    requires Reachable(s) && Enabled(s, e)
    ensures ReceivedBy(Next(s, e), i) == ReceivedBy(s, i) + Brings(s, e, i)
  {
    if e.RunOp? {
      HandlerBrings(s, e.i, e.k, e.files, i);
    } else {
      if e.RunAccept? {
        AcceptStarts(s, e.k, e.garbage);
      }
      assert Brings(s, e, i) == "";
      Regroup(ReceivedBy(s, i), "", "");
    }
  }

  lemma HandlerBrings(s: ServerState, j: nat, k: nat, files: map<string, string>, i: nat)
    requires Reachable(s) && Enabled(s, RunOp(j, k, files))
    ensures ReceivedBy(Next(s, RunOp(j, k, files)), i) == ReceivedBy(s, i) + Brings(s, RunOp(j, k, files), i)
  {
    var op := s.conns[j].pending[k];
    if op.Read? && op.status.result.Success? {
      ReadGoesOn(s, j, k, op.status.result.data, files);
    } else {
      OthersEnd(s, j, k, files);
    }
  }

  /** Over any run, what a connection has received is what its reads brought: every byte once, in
      order, and none of another connection's. */
  lemma {:induction false} ReceivedIsBrought(s: ServerState, events: seq<Event>, i: nat)
    requires Reachable(s) && Possible(s, events)
    ensures ReceivedBy(After(s, events), i) == ReceivedBy(s, i) + Brought(s, events, i)
    decreases |events|
  {
    if events == [] {
      Regroup(ReceivedBy(s, i), "", "");
    } else {
      var t := Next(s, events[0]);
      StepBrings(s, events[0], i);
      StepsStayReachable(s.docRoot, s, events[0]);
      ReceivedIsBrought(t, events[1..], i);
      Regroup(ReceivedBy(s, i), Brings(s, events[0], i), Brought(t, events[1..], i));
    }
  }

  // ---- Closing

  function ResultWhenClosed(status: OpStatus): OpStatus {
    match status
    case Unfinished => Completed(Aborted)
    case Completed(result) => Completed(result)
  }

  /** `after` are the same operations when their socket has been closed: the unfinished ones are
      aborted, the completed ones keep their results. */
  predicate Cancelled(before: seq<Op>, after: seq<Op>) {
    && |after| == |before|
    && forall k | 0 <= k < |before| ::
         && (before[k].Read? <==> after[k].Read?) && (before[k].Write? ==> after[k].reply == before[k].reply)
         && after[k].status == ResultWhenClosed(before[k].status)
  }

  /** The signal closes the acceptor and every connection, and changes nothing else in them. */
  lemma SignalCloses(s: ServerState)
    requires Reachable(s) && Enabled(s, Signal)
    ensures var t := Next(s, Signal);
            && t.docRoot == s.docRoot && !t.acceptorOpen && !t.signalArmed && t.managed == {}
            && |t.accepts| == |s.accepts| && |t.conns| == |s.conns|
            && (forall k | 0 <= k < |s.accepts| ::
                  t.accepts[k] == ResultWhenClosed(s.accepts[k]))
            && (forall i | 0 <= i < |s.conns| ::
                  && t.conns[i] == s.conns[i].(socketOpen := false, pending := t.conns[i].pending)
                  && Cancelled(s.conns[i].pending, t.conns[i].pending))
  {
    var t := Next(s, Signal);
    ReachableInv(s);
    forall i | 0 <= i < |s.conns|
      ensures t.conns[i] == s.conns[i].(socketOpen := false, pending := t.conns[i].pending)
      ensures Cancelled(s.conns[i].pending, t.conns[i].pending)
    {
      ClosedIsCancelled(s, i);
    }
  }

  lemma ClosedIsCancelled(s: ServerState, i: nat)
    requires Inv(s) && i < |s.conns|
    ensures var c, d := s.conns[i], NextSignal(s).conns[i];
            d == c.(socketOpen := false, pending := d.pending) && Cancelled(c.pending, d.pending)
  {
    var c, d := s.conns[i], NextSignal(s).conns[i];
    assert ConnOk(c, s.docRoot);
    if i in s.managed {
      assert d == Close(c);
    } else {
      assert d == c && !c.socketOpen;
      assert forall k | 0 <= k < |c.pending| :: c.pending[k].status != Unfinished;
    }
  }

  // ---- Runs from the start

  /** A server starts with its acceptor open, one accept waiting for the network, and nothing else. */
  lemma StartsListening(docRoot: string)
    ensures var s := After(Init(docRoot), []);
            && s.docRoot == docRoot && s.acceptorOpen && s.signalArmed
            && s.accepts == [Unfinished] && s.conns == [] && s.managed == {}
  {
  }

  lemma StepKeepsRoot(s: ServerState, e: Event)
    requires Reachable(s) && Enabled(s, e)
    ensures Next(s, e).docRoot == s.docRoot
    ensures Next(s, e).acceptorOpen == (s.acceptorOpen && e != Signal)
  {
    ReachableInv(s);
    if e.RunOp? {
      OpChangesOne(s, e.i, e.k, e.files);
    }
  }

  /** No run changes the root that is served, and the server listens as long as there is no signal. */
  lemma {:induction false} ListensUntilSignal(s: ServerState, events: seq<Event>)
    requires Reachable(s) && Possible(s, events)
    ensures After(s, events).docRoot == s.docRoot
    ensures After(s, events).acceptorOpen <==> s.acceptorOpen && Signal !in events
    decreases |events|
  {
    if events != [] {
      StepKeepsRoot(s, events[0]);
      StepsStayReachable(s.docRoot, s, events[0]);
      ListensUntilSignal(Next(s, events[0]), events[1..]);
    }
  }

  // ---- Status codes

  /** In every reachable state, an answered connection has status 400 if and only if what it read
      is bad or asks for no file in an acceptable way, 404 if and only if the file it asks for is
      missing, and 200 if and only if the file is there. A write that is outstanding puts that
      reply on the wire. */
  lemma StatusInEveryState(s: ServerState, i: nat)
    requires Reachable(s) && i < |s.conns| && s.conns[i].replies > 0
    ensures Fresh(s.conns[i].start)
    ensures var c, o := s.conns[i], Run(s.conns[i].start, s.conns[i].received);
            var asked := o.verdict == Good && AsksForFile(o.config.req.uri);
            && (c.reply.status == BadRequest <==> !asked)
            && (c.reply.status == NotFound
                <==> asked && FileName(s.docRoot, Decode(o.config.req.uri).value) !in c.store)
            && (c.reply.status == Ok <==> asked && FileName(s.docRoot, Decode(o.config.req.uri).value) in c.store)
    ensures forall op | op in s.conns[i].pending :: op.Write? && op.reply == s.conns[i].reply
  {
    ReachableInv(s);
    StatusOfReply(s.conns[i], s.docRoot);
    OnlyWritesBehindReply(s.conns[i], s.docRoot);
  }

  lemma OnlyWritesBehindReply(c: Conn, docRoot: string)
    requires ConnOk(c, docRoot) && c.replies > 0
    ensures forall op | op in c.pending :: op.Write? && op.reply == c.reply
  {
    if c.pending != [] {
      assert c.pending == [c.pending[0]];
    }
  }

  lemma StatusOfReply(c: Conn, docRoot: string)
    requires HistoryOk(c, docRoot) && c.replies > 0
    ensures var o := Run(c.start, c.received);
            var asked := o.verdict == Good && AsksForFile(o.config.req.uri);
            && (c.reply.status == BadRequest <==> !asked)
            && (c.reply.status == NotFound
                <==> asked && FileName(docRoot, Decode(o.config.req.uri).value) !in c.store)
            && (c.reply.status == Ok <==> asked && FileName(docRoot, Decode(o.config.req.uri).value) in c.store)
  {
    StockWrittenOut(BadRequest);
    StatusIsExact(BLANK, docRoot, c.parser.req.uri, c.store);
  }

  /** The code on the wire tells which of the three it was. */
  lemma CodeOnTheWire(s: ServerState, i: nat)
    requires Reachable(s) && i < |s.conns| && s.conns[i].replies > 0
    ensures Fresh(s.conns[i].start)
    ensures var c, o := s.conns[i], Run(s.conns[i].start, s.conns[i].received);
            var asked := o.verdict == Good && AsksForFile(o.config.req.uri);
            && ("HTTP/1.0 400 Bad Request\r\n" <= Wire(c.reply) <==> !asked)
            && ("HTTP/1.0 404 Not Found\r\n" <= Wire(c.reply)
                <==> asked && FileName(s.docRoot, Decode(o.config.req.uri).value) !in c.store)
            && ("HTTP/1.0 200 OK\r\n" <= Wire(c.reply)
                <==> asked && FileName(s.docRoot, Decode(o.config.req.uri).value) in c.store)
  {
    StatusInEveryState(s, i);
    LineOnWire(s.conns[i].reply);
  }

  lemma LineOnWire(r: ReplyData)
    ensures "HTTP/1.0 400 Bad Request\r\n" <= Wire(r) <==> r.status == BadRequest
    ensures "HTTP/1.0 404 Not Found\r\n" <= Wire(r) <==> r.status == NotFound
    ensures "HTTP/1.0 200 OK\r\n" <= Wire(r) <==> r.status == Ok
  {
    FirstLines();
    StatusOnWire(r, BadRequest);
    StatusOnWire(r, NotFound);
    StatusOnWire(r, Ok);
  }

  lemma FirstLines()
    ensures "HTTP/1.0 " + Code(BadRequest) + " " + Phrase(BadRequest) + "\r\n" == "HTTP/1.0 400 Bad Request\r\n"
    ensures "HTTP/1.0 " + Code(NotFound) + " " + Phrase(NotFound) + "\r\n" == "HTTP/1.0 404 Not Found\r\n"
    ensures "HTTP/1.0 " + Code(Ok) + " " + Phrase(Ok) + "\r\n" == "HTTP/1.0 200 OK\r\n"
  {
  }

  /** The first line of a reply is that of its own status and of no other. */
  lemma StatusOnWire(r: ReplyData, status: Status)
    ensures "HTTP/1.0 " + Code(status) + " " + Phrase(status) + "\r\n" <= Wire(r) <==> r.status == status
  {
    WireWrittenOut(r);
    CodeIsNumber(status);
    CodeInLine(Code(status), Phrase(status));
    CodeInLine(Code(r.status), Phrase(r.status));
    var wire, line := Wire(r), "HTTP/1.0 " + Code(status) + " " + Phrase(status) + "\r\n";
    assert "HTTP/1.0 " + Code(r.status) + " " + Phrase(r.status) + "\r\n" <= wire;
    if line <= wire {
      assert wire[9..12] == Code(r.status);
      assert wire[9..12] == line[9..12] == Code(status);
    }
  }

  lemma CodeInLine(code: string, phrase: string)
    requires |code| == 3
    ensures var line := "HTTP/1.0 " + code + " " + phrase + "\r\n"; |line| >= 12 && line[9..12] == code
  {
  }
}
