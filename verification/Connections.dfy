/** The server's objects; their handlers perform the steps of the protocol. */
module Connections {
  import opened Octets
  import opened RequestMachine
  import opened RequestAccepts
  import opened RequestParsing
  import opened Replies
  import opened RequestHandling
  import opened Lifecycle

  class Connection {
    const manager: ConnectionManager
    const handler: RequestHandler
    const parser: RequestParser
    const request: Request
    /** The socket: whether it is open, and the operations pending on it. */
    var open: bool
    var ops: seq<Op>
    var reply: Reply
    ghost const start: Config
    ghost var received: bytes
    ghost var sent: seq<Reply>

    constructor (manager: ConnectionManager, handler: RequestHandler, charSigned: bool)
      ensures Valid() && fresh(parser) && fresh(request)
      ensures this.manager == manager && this.handler == handler && Fresh(start)
      ensures View() == Conn(true, [], start, BLANK, start, [], [])
    {
      this.manager, this.handler := manager, handler;
      var p := new RequestParser(charSigned);
      var r := new Request();
      parser, request := p, r;
      open, ops, reply := true, [], BLANK;
      start, received, sent := At(p.state, r.Contents()), [], [];
    }

    ghost predicate Valid()
      reads parser, request
    {
      parser.Valid(request)
    }

    ghost function View(): Conn
      requires Valid()
      reads this, parser, request
    {
      Conn(open, ops, parser.Position(request), reply, start, received, sent)
    }

    /** `c` is the protocol's view of this connection. */
    ghost predicate Shows(c: Conn)
      reads this, parser, request
    {
      Valid() && View() == c
    }

    method Start()
      requires Valid()
      modifies this
      ensures Valid() && View() == Lifecycle.DoRead(old(View()))
    {
      DoRead();
    }

    method Stop()
      requires Valid()
      modifies this
      ensures Valid() && View() == Close(old(View()))
    {
      open, ops := false, CutOps(ops);
    }

    method DoRead()
      requires Valid()
      modifies this
      ensures Valid() && View() == Lifecycle.DoRead(old(View()))
    {
      ops := ops + [Read(Issued(open))];
    }

    method DoWrite()
      requires Valid()
      modifies this
      ensures Valid() && View() == Lifecycle.DoWrite(old(View()))
    {
      var buffers := ToBuffers(reply);
      ops := ops + [Write(Flatten(buffers), Issued(open))];
      sent := sent + [reply];
    }

    /** The completion handler of a read. */
    method HandleRead(outcome: Outcome)
      requires Valid()
      modifies this, parser, request, manager
      ensures Valid() && View() == OnOp(handler.site, old(View()), Read(Ready(outcome)))
      ensures manager.connections ==
              old(manager.connections) - (if Stops(Read(Ready(outcome))) then {this} else {})
    {
      if outcome.Done? {
        ghost var c := View();
        var result, used := parser.Parse(request, outcome.data);
        received := received + outcome.data;
        assert View() == c.(parser := Run(c.parser, outcome.data).config, received := received);
        if result == Good {
          reply := handler.HandleRequest(request, reply);
          DoWrite();
        } else if result == Bad {
          reply := StockReply(BadRequest);
          DoWrite();
        } else {
          DoRead();
        }
      } else if outcome != Aborted {
        manager.Stop(this);
      }
    }

    /** The completion handler of a write; a successful write also shuts the socket down. */
    method HandleWrite(outcome: Outcome, ghost buffers: bytes)
      requires Valid()
      modifies this, manager
      ensures Valid() && View() == OnOp(handler.site, old(View()), Write(buffers, Ready(outcome)))
      ensures manager.connections ==
              old(manager.connections) - (if Stops(Write(buffers, Ready(outcome))) then {this} else {})
    {
      if outcome != Aborted {
        manager.Stop(this);
      }
    }

    /** Operation `k`, in flight until now, ends with `outcome` and its handler is queued. */
    method Complete(k: nat, outcome: Outcome)
      requires Valid() && k < |ops|
      modifies this
      ensures Valid()
      ensures var c := old(View());
              View() == c.(ops := c.ops[k := c.ops[k].(progress := Ready(outcome))])
    {
      ops := ops[k := ops[k].(progress := Ready(outcome))];
    }

    /** The event loop takes operation `k`, which is ready, and runs its handler. */
    method Dispatch(k: nat)
      requires Valid() && k < |ops| && ops[k].progress.Ready?
      modifies this, parser, request, manager
      ensures Valid()
      ensures var c := old(View());
              View() == OnOp(handler.site, c.(ops := Without(c.ops, k)), c.ops[k])
      ensures manager.connections == old(manager.connections) - (if Stops(old(ops[k])) then {this} else {})
    {
      var op := ops[k];
      ops := Without(ops, k);
      match op {
        case Read(p) => HandleRead(p.outcome);
        case Write(buffers, p) => HandleWrite(p.outcome, buffers);
      }
    }
  }

  class ConnectionManager {
    var connections: set<Connection>

    constructor ()
      ensures connections == {}
    {
      connections := {};
    }

    method Start(c: Connection)
      requires c.Valid()
      modifies this, c
      ensures c.Valid() && c.View() == Lifecycle.DoRead(old(c.View()))
      ensures connections == old(connections) + {c}
    {
      connections := connections + {c};
      c.Start();
    }

    method Stop(c: Connection)
      requires c.Valid()
      modifies this, c
      ensures c.Valid() && c.View() == Close(old(c.View()))
      ensures connections == old(connections) - {c}
    {
      connections := connections - {c};
      c.Stop();
    }

    method StopAll()
      requires forall c | c in connections :: c.Valid()
      modifies this, connections
      ensures connections == {}
      ensures forall c | c in old(connections) :: c.Valid() && c.View() == Close(old(c.View()))
    {
      var rest := connections;
      while rest != {}
        invariant rest <= connections == old(connections)
        invariant forall c | c in connections :: c.Valid()
        invariant forall c | c in connections ::
                    c.View() == if c in rest then old(c.View()) else Close(old(c.View()))
      {
        var c :| c in rest;
        c.Stop();
        rest := rest - {c};
      }
      connections := {};
    }
  }
}
