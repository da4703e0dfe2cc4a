/** The server object: its handlers, with those of its connections, are the protocol's steps. */
module HttpServers {
  import opened RequestMachine
  import opened RequestAccepts
  import opened RequestHandling
  import opened Lifecycle
  import opened LifecycleLaws
  import opened Connections

  /** Two connections share none of the objects that their handlers update. */
  predicate Apart(c: Connection, d: Connection) {
    c != d && c.parser != d.parser && c.request != d.request
  }

  class HttpServer {
    const charSigned: bool
    const handler: RequestHandler
    const manager: ConnectionManager
    var acceptorOpen: bool
    /** The pending waits on the acceptor and on the signal set. */
    var accepts: seq<Progress>
    var signals: seq<Progress>
    /** Every connection that was ever started, in order; pending operations keep them alive. */
    var conns: seq<Connection>

    ghost predicate Valid()
      reads this`conns
    {
      && (forall i | 0 <= i < |conns| :: conns[i].manager == manager && conns[i].handler == handler)
      && (forall i, j | 0 <= i < |conns| && 0 <= j < |conns| && i != j :: Apart(conns[i], conns[j]))
    }

    ghost predicate ShowsConns(cs: seq<Conn>)
      reads this`conns, conns, set c | c in conns :: c.parser, set c | c in conns :: c.request
    {
      |cs| == |conns| && forall i | 0 <= i < |conns| :: conns[i].Shows(cs[i])
    }

    ghost predicate ShowsMembers(members: set<nat>)
      reads this`conns, manager
    {
      && (forall i | 0 <= i < |conns| :: i in members <==> conns[i] in manager.connections)
      && (forall i | i in members :: i < |conns|)
      && (forall c | c in manager.connections :: c in conns)
    }

    /** `s` is the protocol state that the objects are in. */
    ghost predicate Shows(s: Server)
      reads this, manager, conns, set c | c in conns :: c.parser, set c | c in conns :: c.request
    {
      && Valid()
      && s.acceptorOpen == acceptorOpen && s.accepts == accepts && s.signals == signals
      && ShowsConns(s.conns) && ShowsMembers(s.members)
    }

    constructor (site: Site, charSigned: bool)
      ensures Shows(BOOTED) && handler.site == site
    {
      this.charSigned := charSigned;
      handler := new RequestHandler(site);
      manager := new ConnectionManager();
      acceptorOpen, accepts, signals, conns := true, [], [], [];
      new;
      DoAwaitStop();
      DoAccept();
    }

    method DoAwaitStop()
      modifies this`signals
      ensures signals == old(signals) + [InFlight]
    {
      signals := signals + [InFlight];
    }

    method DoAccept()
      modifies this`accepts
      ensures accepts == old(accepts) + [Issued(acceptorOpen)]
    {
      accepts := accepts + [Issued(acceptorOpen)];
    }

    method Register(c: Connection, ghost cs: seq<Conn>, ghost d: Conn, ghost members: set<nat>)
      requires Valid() && ShowsConns(cs) && c.Shows(d) && c in manager.connections
      requires forall i | 0 <= i < |conns| :: i in members <==> conns[i] in manager.connections
      requires forall i | i in members :: i < |conns|
      requires forall e | e in manager.connections :: e in conns || e == c
      requires c.manager == manager && c.handler == handler
      requires forall i | 0 <= i < |conns| :: Apart(conns[i], c)
      modifies this`conns
      ensures Valid() && ShowsConns(cs + [d]) && ShowsMembers(members + {|cs|})
      ensures conns == old(conns) + [c]
    {
      conns := conns + [c];
      assert forall i | 0 <= i < |cs| :: conns[i].Shows(cs[i]);
    }

    /** Starts a connection on an accepted socket. */
    method StartConnection(ghost cs: seq<Conn>, ghost members: set<nat>)
      returns (c: Connection, ghost start: Config)
      requires Valid() && ShowsConns(cs) && ShowsMembers(members)
      modifies this`conns, manager
      ensures Valid() && Fresh(start)
      ensures ShowsConns(cs + [Started(start)]) && ShowsMembers(members + {|cs|})
      ensures conns == old(conns) + [c] && fresh(c) && fresh(c.parser) && fresh(c.request)
    {
      c := new Connection(manager, handler, charSigned);
      start := c.start;
      assert forall i | 0 <= i < |conns| :: conns[i].Shows(cs[i]) && Apart(conns[i], c);
      manager.Start(c);
      assert c.Shows(Started(start));
      assert forall i | 0 <= i < |conns| :: conns[i].Shows(cs[i]);
      Register(c, cs, Started(start), members);
    }

    /** Starts a connection if the accept was successful. */
    method Admit(outcome: Outcome, ghost cs: seq<Conn>, ghost members: set<nat>) returns (ghost start: Config)
      requires Valid() && ShowsConns(cs) && ShowsMembers(members)
      modifies this`conns, manager
      ensures Valid() && Fresh(start)
      ensures ShowsConns(if outcome.Done? then cs + [Started(start)] else cs)
      ensures ShowsMembers(if outcome.Done? then members + {|cs|} else members)
      ensures forall c | c in conns :: c in old(conns) || (fresh(c) && fresh(c.parser) && fresh(c.request))
    {
      start := At(MethodStart, EMPTY);
      if outcome.Done? {
        var c;
        c, start := StartConnection(cs, members);
      }
    }

    /** The completion handler of accept `k`. */
    method HandleAccept(k: nat, ghost s: Server) returns (ghost start: Config)
      requires Shows(s) && k < |accepts| && accepts[k].Ready?
      modifies this, manager
      ensures Fresh(start) && Shows(AcceptStep(s, k, start))
      ensures forall c | c in conns :: c in old(conns) || (fresh(c) && fresh(c.parser) && fresh(c.request))
    {
      var outcome := accepts[k].outcome;
      accepts := Without(accepts, k);
      start := At(MethodStart, EMPTY);
      if !acceptorOpen {
        return;
      }
      start := Admit(outcome, s.conns, s.members);
      DoAccept();
    }

    /** The handler of signal wait `k`: closes the acceptor and stops every connection. */
    method HandleStop(k: nat, ghost s: Server)
      requires Shows(s) && k < |signals| && signals[k].Ready?
      modifies this, manager, manager.connections
      ensures Shows(StopStep(s, k)) && conns == old(conns)
    {
      signals := Without(signals, k);
      acceptorOpen := false;
      accepts := CutAll(accepts);
      manager.StopAll();
    }

    /** The event loop runs the handler of operation `k` of connection `i`. */
    method DispatchConnection(i: nat, k: nat, c: Connection, ghost s: Server)
      requires Shows(s) && i < |conns| && c == conns[i]
      requires k < |c.ops| && c.ops[k].progress.Ready?
      modifies manager, c, c.parser, c.request
      ensures Shows(OpStep(handler.site, s, i, k))
    {
      ghost var t := OpStep(handler.site, s, i, k);
      assert c.View() == s.conns[i];
      c.Dispatch(k);
      assert forall j | 0 <= j < |conns| && j != i :: Apart(conns[j], c) && conns[j].Shows(s.conns[j]);
      assert c.Shows(t.conns[i]);
      assert ShowsMembers(t.members);
    }

    // The event loop. What happens outside, and which queued handler is next, is up to a schedule.

    /** Whether `e` can happen; the configuration that an event names plays no part. */
    predicate CanHappen(e: Event)
      reads this, conns
    {
      match e
      case AcceptReady(k, o) => k < |accepts| && accepts[k] == InFlight && o != Aborted
      case SignalReady(k, o) => k < |signals| && signals[k] == InFlight && o != Aborted
      case OpReady(i, k, o) =>
        && i < |conns| && k < |conns[i].ops| && conns[i].ops[k].progress == InFlight
        && o != Aborted && (o.Done? ==> |o.data| <= READ_BUFFER)
      case RunAccept(k, _) => k < |accepts| && accepts[k].Ready?
      case RunSignal(k) => k < |signals| && signals[k].Ready?
      case RunOp(i, k) => i < |conns| && k < |conns[i].ops| && conns[i].ops[k].progress.Ready?
    }

    /** The schedule can have what the protocol allows, and nothing else. */
    lemma CanHappenIffEnabled(s: Server, e: Event)
      requires Shows(s) && (e.RunAccept? ==> Fresh(e.start))
      ensures CanHappen(e) <==> Enabled(s, e)
    {
      if (e.OpReady? || e.RunOp?) && e.i < |conns| {
        assert conns[e.i].View() == s.conns[e.i];
      }
    }

    method CompleteOp(i: nat, k: nat, outcome: Outcome, ghost s: Server)
      requires Shows(s) && CanHappen(OpReady(i, k, outcome))
      modifies conns[i]
      ensures Shows(Next(handler.site, s, OpReady(i, k, outcome)))
    {
      var c := conns[i];
      assert c.View() == s.conns[i];
      c.Complete(k, outcome);
      ghost var t := Next(handler.site, s, OpReady(i, k, outcome));
      assert forall j | 0 <= j < |conns| && j != i :: Apart(conns[j], c) && conns[j].Shows(s.conns[j]);
      assert c.Shows(t.conns[i]);
    }

    /** One turn of the event loop. */
    method Turn(e: Event, ghost s: Server) returns (ghost t: Server)
      requires Shows(s) && CanHappen(e)
      modifies this, manager, conns, set c | c in conns :: c.parser, set c | c in conns :: c.request
      ensures Shows(t) && StepsTo(handler.site, s, t)
      ensures forall c | c in conns :: c in old(conns) || (fresh(c) && fresh(c.parser) && fresh(c.request))
    {
      ghost var f := e;
      match e {
        case AcceptReady(k, o) => accepts := accepts[k := Ready(o)];
        case SignalReady(k, o) => signals := signals[k := Ready(o)];
        case OpReady(i, k, o) => CompleteOp(i, k, o, s);
        case RunAccept(k, _) =>
          ghost var start := HandleAccept(k, s);
          f := RunAccept(k, start);
        case RunSignal(k) => HandleStop(k, s);
        case RunOp(i, k) => DispatchConnection(i, k, conns[i], s);
      }
      t := Next(handler.site, s, f);
    }

    /**
     * The event loop, over any schedule; what cannot happen when its turn comes is passed over. It
     * keeps to the protocol, so the objects have what every reachable state has.
     */
    method Run(schedule: seq<Event>) returns (ghost s: Server)
      requires Shows(BOOTED)
      modifies this, manager
      ensures Shows(s) && Reaches(handler.site, BOOTED, s)
      ensures forall c | c in conns :: (c in manager.connections <==> c.open) && |c.ops| <= 1
      ensures forall c | c in manager.connections :: c in conns && |c.ops| == 1
      ensures if acceptorOpen then |accepts| == 1 else manager.connections == {}
    {
      s := BOOTED;
      assert Runs(handler.site, BOOTED, [], s);
      for n := 0 to |schedule|
        invariant Shows(s) && Reaches(handler.site, BOOTED, s)
        invariant forall c | c in conns :: fresh(c) && fresh(c.parser) && fresh(c.request)
      {
        if CanHappen(schedule[n]) {
          ghost var t := Turn(schedule[n], s);
          ReachesThen(handler.site, s, t);
          s := t;
        }
      }
      Lawful(s);
    }

    /** What the laws of the protocol say of the objects. */
    lemma Lawful(s: Server)
      requires Shows(s) && Reaches(handler.site, BOOTED, s)
      ensures forall c | c in conns :: (c in manager.connections <==> c.open) && |c.ops| <= 1
      ensures forall c | c in manager.connections :: c in conns && |c.ops| == 1
      ensures if acceptorOpen then |accepts| == 1 else manager.connections == {}
    {
      var es :| Runs(handler.site, BOOTED, es, s);
      AcceptorArmed(handler.site, es, s);
      forall i | 0 <= i < |conns|
        ensures (conns[i] in manager.connections <==> conns[i].open) && |conns[i].ops| <= 1
        ensures conns[i] in manager.connections ==> |conns[i].ops| == 1
      {
        NoLeakedConnections(handler.site, es, s, i);
        assert conns[i].View() == s.conns[i];
      }
    }
  }
}
