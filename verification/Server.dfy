/** The server's objects. Every method that stands for a step of the I/O service is proved to
    take exactly the step of ServerProtocol.dfy, so what is proved there of all runs holds of
    these objects. */
module Server {
  import opened HttpMessage
  import opened ParserMachine
  import opened RequestParser
  import opened Reply
  import opened RequestHandler
  import opened ServerProtocol
  import opened ServerInvariants

  /** The objects of one connection; the ghost fields keep the history `Conn` speaks of. */
  class Connection {
    var socketOpen: bool
    /** The operations started on the socket whose handlers have not run yet. */
    var pending: seq<Op>

    const manager: ConnectionManager
    const handler: Handler
    const buffer: array<char>
    const request: Request
    const parser: Parser
    const reply: Reply

    ghost var start: Config
    ghost var received: string
    ghost var verdicts: nat
    ghost var replies: nat
    ghost var store: map<string, string>

    ghost function Data(): Conn
      reads this, request, parser, reply
    {
      Conn(socketOpen, pending, parser.Config(request), reply.Data(), start, received, verdicts, replies, store)
    }

    constructor (manager: ConnectionManager, handler: Handler)
      ensures this.manager == manager && this.handler == handler
      ensures fresh(buffer) && fresh(request) && fresh(parser) && fresh(reply) && buffer.Length == BUFFER_SIZE
      ensures Data() == NewConn(Garbage(request.major, request.minor, reply.status))
    {
      this.manager, this.handler := manager, handler;
      buffer := new char[BUFFER_SIZE];
      request := new Request();
      parser := new Parser();
      reply := new Reply();
      socketOpen, pending := true, [];
      received, verdicts, replies, store := "", 0, 0, map[];
      new;
      start := parser.Config(request);
    }

    method Start()
      modifies this`pending
      ensures Data() == StartRead(old(Data()))
    {
      DoRead();
    }

    method Stop()
      modifies this`pending, this`socketOpen
      ensures Data() == Close(old(Data()))
    {
      socketOpen := false;
      pending := AbortOps(pending);
    }

    method DoRead()
      modifies this`pending
      ensures Data() == StartRead(old(Data()))
    {
      pending := pending + [Read(StatusOnStart(socketOpen))];
    }

    method DoWrite()
      modifies this`pending
      ensures Data() == StartWrite(old(Data()))
    {
      var buffers := reply.ToBuffers();
      assert Concat(buffers) == Wire(reply.Data());
      pending := pending + [Write(reply.Data(), StatusOnStart(socketOpen))];
    }

    /** The network completes operation `k`. */
    method Complete(k: nat, result: Result)
      requires k < |pending|
      modifies this`pending
      ensures Data() == old(Data()).(pending := old(pending)[k := old(pending)[k].(status := Completed(result))])
    {
      pending := pending[k := pending[k].(status := Completed(result))];
    }

    /** The I/O service takes operation `k` off its queue and runs the handler. */
    method RunHandler(k: nat, files: map<string, string>)
      requires buffer.Length == BUFFER_SIZE && Sound(parser.Config(request))
      requires k < |pending| && pending[k].status != Unfinished && ResultFits(pending[k])
      modifies this, buffer, request, parser, reply, manager
      ensures Data() == AfterHandler(old(Data()), k, handler.docRoot, files)
      ensures manager.connections
           == if Stops(old(pending)[k]) then old(manager.connections) - {this} else old(manager.connections)
    {
      var op := pending[k];
      pending := Without(pending, k);
      assert Data() == old(Data()).(pending := Without(old(Data()).pending, k));
      match op {
        case Read(status) => OnRead(status.result, files);
        case Write(data, status) => OnWrite(data, status.result);
      }
    }

    /** The completion handler of a read. */
    method OnRead(result: Result, files: map<string, string>)
      requires buffer.Length == BUFFER_SIZE && Sound(parser.Config(request))
      requires result.Success? ==> |result.data| <= BUFFER_SIZE
      modifies this, buffer, request, parser, reply, manager
      ensures Data() == StoppedIf(Read(Completed(result)),
                                  Handled(old(Data()), Read(Completed(result)), handler.docRoot, files))
      ensures manager.connections
           == if Stops(Read(Completed(result))) then old(manager.connections) - {this} else old(manager.connections)
    {
      match result {
        case Success(data) =>
          Received(data, files);
        case Failed =>
          manager.Stop(this);
        case Aborted =>
      }
    }

    /** The part of the read handler that deals with bytes: they are in the buffer by then. */
    method Received(data: string, files: map<string, string>)
      requires buffer.Length == BUFFER_SIZE && Sound(parser.Config(request))
      requires |data| <= BUFFER_SIZE
      modifies this, buffer, request, parser, reply
      ensures Data() == ServerProtocol.Received(old(Data()), data, handler.docRoot, files)
    {
      var verdict := ParseBytes(data);
      if verdict == Good {
        Answer(files);
      } else if verdict == Bad {
        Refuse(files);
      } else {
        DoRead();
      }
    }

    method ParseBytes(data: string) returns (verdict: Verdict)
      requires buffer.Length == BUFFER_SIZE && Sound(parser.Config(request))
      requires |data| <= BUFFER_SIZE
      modifies this`received, buffer, request, parser
      ensures var c, o := old(Data()), Run(old(Data()).parser, data);
              verdict == o.verdict && Data() == c.(parser := o.config, received := c.received + data)
    {
      forall i | 0 <= i < |data| {
        buffer[i] := data[i];
      }
      assert buffer[0..|data|] == data;
      var position;
      verdict, position := parser.Parse(request, buffer, 0, |data|);
      received := received + data;
    }

    method Answer(files: map<string, string>)
      modifies this, reply
      ensures var c := old(Data());
              Data() == StartWrite(c.(reply := Handle(c.reply, handler.docRoot, c.parser.req.uri, files),
                                      store := files,
                                      verdicts := c.verdicts + 1, replies := c.replies + 1))
    {
      handler.HandleRequest(request, reply, files);
      verdicts, replies, store := verdicts + 1, replies + 1, files;
      DoWrite();
    }

    method Refuse(files: map<string, string>)
      modifies this, reply
      ensures var c := old(Data());
              Data() == StartWrite(c.(reply := StockReply(BadRequest), store := files,
                                      verdicts := c.verdicts + 1, replies := c.replies + 1))
    {
      reply.AssignStock(BadRequest);
      verdicts, replies, store := verdicts + 1, replies + 1, files;
      DoWrite();
    }

    /** The completion handler of a write. The shutdown of the socket that follows a success
        leaves it open. */
    method OnWrite(data: ReplyData, result: Result)
      modifies this`pending, this`socketOpen, manager
      ensures Data() == StoppedIf(Write(data, Completed(result)), old(Data()))
      ensures manager.connections
           == if Stops(Write(data, Completed(result))) then old(manager.connections) - {this}
              else old(manager.connections)
    {
      if result != Aborted {
        manager.Stop(this);
      }
    }
  }

  function StoppedIf(op: Op, c: Conn): Conn {
    if Stops(op) then Close(c) else c
  }

  /** The set of connections that the server would have to close on shutdown. */
  class ConnectionManager {
    var connections: set<Connection>

    constructor ()
      ensures connections == {}
    {
      connections := {};
    }

    method Start(c: Connection)
      modifies this, c`pending
      ensures connections == old(connections) + {c}
      ensures c.Data() == StartRead(old(c.Data()))
    {
      connections := connections + {c};
      c.Start();
    }

    method Stop(c: Connection)
      modifies this, c`pending, c`socketOpen
      ensures connections == old(connections) - {c}
      ensures c.Data() == Close(old(c.Data()))
    {
      connections := connections - {c};
      c.Stop();
    }

    method StopAll()
      modifies this, connections
      ensures connections == {}
      ensures forall c | c in old(connections) :: c.Data() == Close(old(c.Data()))
    {
      var rest := connections;
      while rest != {}
        invariant rest <= connections == old(connections)
        invariant forall c | c in connections - rest :: c.Data() == Close(old(c.Data()))
        invariant forall c | c in rest :: c.Data() == old(c.Data())
        decreases rest
      {
        var c :| c in rest;
        c.Stop();
        rest := rest - {c};
      }
      connections := {};
    }
  }

  /** Two connections share no object. */
  predicate Apart(c: Connection, d: Connection) {
    c != d && c.buffer != d.buffer && c.request != d.request && c.parser != d.parser && c.reply != d.reply
  }

  /** The connections belong to one server and share no object. */
  predicate Wired(conns: seq<Connection>, manager: ConnectionManager, handler: Handler) {
    && (forall i | 0 <= i < |conns| ::
          conns[i].manager == manager && conns[i].handler == handler && conns[i].buffer.Length == BUFFER_SIZE)
    && (forall i, j | 0 <= i < j < |conns| :: Apart(conns[i], conns[j]))
  }

  lemma WiredSnoc(conns: seq<Connection>, c: Connection, manager: ConnectionManager, handler: Handler)
    requires Wired(conns, manager, handler)
    requires c.manager == manager && c.handler == handler && c.buffer.Length == BUFFER_SIZE
    requires forall i | 0 <= i < |conns| :: Apart(conns[i], c)
    ensures Wired(conns + [c], manager, handler)
  {
  }

  lemma WiredApart(conns: seq<Connection>, manager: ConnectionManager, handler: Handler, i: nat)
    requires Wired(conns, manager, handler) && i < |conns|
    ensures forall j | 0 <= j < |conns| && j != i :: Apart(conns[j], conns[i])
  {
    forall j | 0 <= j < |conns| && j != i ensures Apart(conns[j], conns[i]) {
      if j < i {
        assert Apart(conns[j], conns[i]);
      } else {
        assert Apart(conns[i], conns[j]);
      }
    }
  }

  /** Acceptor, signal wait and connections, tied to a state of the step system. */
  class Server {
    const handler: Handler
    const manager: ConnectionManager
    var acceptorOpen: bool
    /** The accepts whose handlers have not run yet. */
    var accepts: seq<OpStatus>
    var signalArmed: bool
    /** Every connection that was ever started, oldest first; their handlers keep them alive. */
    var conns: seq<Connection>

    /** The state of the step system that the objects are in. */
    ghost var state: ServerState

    ghost predicate Valid()
      reads this, manager, conns
      reads set c | c in conns :: c.request
      reads set c | c in conns :: c.parser
      reads set c | c in conns :: c.reply
    {
      ValidBut(|conns|)
    }

    /** `Valid`, except that connection `n` may have moved on. */
    ghost predicate ValidBut(n: nat)
      reads this, manager, conns
      reads set c | c in conns :: c.request
      reads set c | c in conns :: c.parser
      reads set c | c in conns :: c.reply
    {
      && Wired(conns, manager, handler)
      && state.docRoot == handler.docRoot
      && state.acceptorOpen == acceptorOpen && state.accepts == accepts && state.signalArmed == signalArmed
      && |state.conns| == |conns|
      && (forall i {:trigger conns[i]} | 0 <= i < |conns| && i != n :: conns[i].Data() == state.conns[i])
      && (forall i | i in state.managed :: i < |conns|)
      && (forall i {:trigger conns[i]} | 0 <= i < |conns| && i != n ::
            i in state.managed <==> conns[i] in manager.connections)
      && (forall c {:trigger c in manager.connections} | c in manager.connections :: c in conns)
    }

    /** Listens from the start. */
    constructor (docRoot: string)
      ensures Valid() && state == Init(docRoot) && fresh(manager)
    {
      handler := new Handler(docRoot);
      manager := new ConnectionManager();
      acceptorOpen, accepts, signalArmed, conns := true, [Unfinished], true, [];
      state := Init(docRoot);
    }

    method DoAccept()
      requires Valid()
      modifies this`accepts, this`state
      ensures Valid() && state == old(state).(accepts := old(accepts) + [Unfinished])
    {
      accepts := accepts + [Unfinished];
      state := state.(accepts := accepts);
    }

    /** The I/O service takes accept `k` off its queue. */
    method TakeAccept(k: nat) returns (status: OpStatus)
      requires Valid() && k < |accepts|
      modifies this`accepts, this`state
      ensures Valid() && state == old(state).(accepts := Without(old(accepts), k)) && status == old(accepts)[k]
    {
      status := accepts[k];
      accepts := Without(accepts, k);
      state := state.(accepts := accepts);
    }

    /** The completion handler of accept `k`. */
    method OnAccept(k: nat) returns (ghost garbage: Garbage)
      requires Valid() && k < |accepts| && accepts[k] != Unfinished
      modifies this, manager
      ensures Valid() && old(conns) <= conns && fresh(conns[|old(conns)|..])
      ensures state == Next(old(state), RunAccept(k, garbage))
    {
      garbage := Garbage(0, 0, Ok);
      var status := TakeAccept(k);
      if !acceptorOpen {
        return;
      }
      if status.result.Success? {
        garbage := AddConnection();
      }
      DoAccept();
    }

    /** A new connection takes over the accepted socket and is started by the manager. */
    method AddConnection() returns (ghost garbage: Garbage)
      requires Valid()
      modifies this`conns, this`state, manager
      ensures Valid() && old(conns) <= conns && fresh(conns[|old(conns)|..])
      ensures state == old(state).(conns := old(state).conns + [StartRead(NewConn(garbage))],
                                   managed := old(state).managed + {|old(state).conns|})
    {
      var c := new Connection(manager, handler);
      garbage := Garbage(c.request.major, c.request.minor, c.reply.status);
      Register(c);
    }

    method Register(c: Connection)
      requires Valid() && c.manager == manager && c.handler == handler && c.buffer.Length == BUFFER_SIZE
      requires c !in manager.connections && c !in conns && forall i | 0 <= i < |conns| :: Apart(conns[i], c)
      requires c.socketOpen
      modifies this`conns, this`state, manager, c`pending
      ensures Valid() && conns == old(conns) + [c]
      ensures state == old(state).(conns := old(state).conns + [StartRead(old(c.Data()))],
                                   managed := old(state).managed + {|old(state).conns|})
    {
      manager.Start(c);
      forall j {:trigger conns[j]} | 0 <= j < |conns| ensures conns[j].Data() == state.conns[j] {
        assert Apart(conns[j], c);
      }
      WiredSnoc(conns, c, manager, handler);
      conns := conns + [c];
      state := state.(conns := state.conns + [c.Data()], managed := state.managed + {|state.conns|});
    }

    /** The handler of the signal wait. */
    method OnSignal()
      requires Valid() && signalArmed
      modifies this, manager, manager.connections
      ensures Valid() && state == Next(old(state), Signal) && conns == old(conns)
    {
      signalArmed := false;
      acceptorOpen := false;
      accepts := AbortAccepts(accepts);
      state := state.(signalArmed := false, acceptorOpen := false, accepts := accepts);
      StopConnections();
    }

    method StopConnections()
      requires Valid()
      modifies this`state, manager, manager.connections
      ensures Valid()
      ensures state == old(state).(conns := CloseManaged(old(state).conns, old(state).managed), managed := {})
    {
      ghost var closed := CloseManaged(state.conns, state.managed);
      manager.StopAll();
      forall j {:trigger conns[j]} | 0 <= j < |conns|
        ensures conns[j].Data() == closed[j] && conns[j] !in manager.connections
      {
        if conns[j] in old(manager.connections) {
          assert closed[j] == Close(state.conns[j]);
        } else {
          assert conns[j].Data() == old(conns[j].Data());
        }
      }
      state := state.(conns := closed, managed := {});
    }

    /** The network completes an accept. */
    method CompleteAccept(k: nat, result: Result)
      requires Valid() && Enabled(state, FinishAccept(k, result))
      modifies this
      ensures Valid() && state == Next(old(state), FinishAccept(k, result)) && conns == old(conns)
    {
      accepts := accepts[k := Completed(result)];
      state := state.(accepts := accepts);
    }

    /** The network completes operation `k` of connection `i`. */
    method CompleteOp(i: nat, k: nat, result: Result)
      requires Valid() && Enabled(state, Finish(i, k, result))
      modifies this`state, conns[i]
      ensures Valid() && state == Next(old(state), Finish(i, k, result)) && conns == old(conns)
    {
      var c := conns[i];
      c.Complete(k, result);
      WiredApart(conns, manager, handler, i);
      Settle(state, i, false);
    }

    /** The I/O service takes the completed operation `k` of connection `i` and runs its handler. */
    method DispatchOp(i: nat, k: nat, files: map<string, string>)
      requires Valid() && Enabled(state, RunOp(i, k, files)) && Inv(state)
      modifies this`state, manager, conns[i], conns[i].buffer, conns[i].request, conns[i].parser, conns[i].reply
      ensures Valid() && state == Next(old(state), RunOp(i, k, files)) && conns == old(conns)
    {
      OpChangesOne(state, i, k, files);
      ghost var d := RunHandlerOf(i, k, files);
    }

    method RunHandlerOf(i: nat, k: nat, files: map<string, string>) returns (ghost d: Conn)
      requires Valid() && i < |conns| && Sound(conns[i].parser.Config(conns[i].request))
      requires k < |conns[i].pending| && conns[i].pending[k].status != Unfinished && ResultFits(conns[i].pending[k])
      modifies this`state, manager, conns[i], conns[i].buffer, conns[i].request, conns[i].parser, conns[i].reply
      ensures Valid() && conns == old(conns)
      ensures d == AfterHandler(old(conns[i].Data()), k, handler.docRoot, files)
      ensures var s := old(state);
              state == s.(conns := s.conns[i := d],
                          managed := if Stops(old(conns[i].pending)[k]) then s.managed - {i} else s.managed)
    {
      WiredApart(conns, manager, handler, i);
      ghost var stops := Stops(conns[i].pending[k]);
      conns[i].RunHandler(k, files);
      d := conns[i].Data();
      forall j {:trigger conns[j]} | 0 <= j < |conns| && j != i
        ensures conns[j].Data() == state.conns[j]
        ensures j in state.managed <==> conns[j] in manager.connections
      {
        assert Apart(conns[j], conns[i]);
      }
      Settle(old(state), i, stops);
    }

    /** Brings `state` up to date after a step of connection `i` alone. */
    ghost method Settle(s: ServerState, i: nat, stops: bool)
      requires i < |conns| && s == state && ValidBut(i)
      requires stops ==> conns[i] !in manager.connections
      requires !stops ==> (conns[i] in manager.connections <==> i in state.managed)
      modifies this`state
      ensures Valid() && conns == old(conns)
      ensures state == s.(conns := s.conns[i := conns[i].Data()],
                          managed := if stops then s.managed - {i} else s.managed)
    {
      state := state.(conns := state.conns[i := conns[i].Data()],
                      managed := if stops then state.managed - {i} else state.managed);
    }
  }
}
