/** What holds in every reachable state of the server, and how it shuts down. */
module LifecycleLaws {
  import opened Octets
  import opened RequestMachine
  import opened RequestGrammar
  import opened RequestAccepts
  import opened RequestTheorems
  import opened ParserReuse
  import opened Replies
  import opened RequestHandling
  import opened Lifecycle

  /** The replies owed for the bytes received so far: none until they decide the request. */
  function Owed(site: Site, start: Config, received: bytes): seq<Reply> {
    var p := Run(start, received);
    match p.verdict
    case Good => [Handle(site, p.config.req, BLANK)]
    case Bad => [StockReply(BadRequest)]
    case Indeterminate => []
  }

  /** An operation may be pending on a connection that is `open` or not. */
  predicate OpOk(open: bool, op: Op) {
    match op.progress
    case InFlight => open
    case Ready(o) => o == Aborted ==> !open
  }

  predicate ConnOk(site: Site, c: Conn) {
    && Fresh(c.start)
    && |c.ops| <= 1 && (c.open ==> |c.ops| == 1)
    && c.sent == Owed(site, c.start, c.received)
    && (|c.ops| == 1 ==> OpOk(c.open, c.ops[0]) && Matches(c, c.ops[0]))
  }

  /** A read is pending while the bytes so far decide nothing, a write once they have. */
  predicate Matches(c: Conn, op: Op) {
    match op
    case Read(_) => Drives(c.start, c.received, c.parser) && c.reply == BLANK
    case Write(buffers, _) => buffers == Serialised(c.reply) && c.sent == [c.reply]
  }

  predicate Inv(site: Site, s: Server) {
    && (s.acceptorOpen ==> |s.accepts| == 1 && |s.signals| == 1)
    && (!s.acceptorOpen ==> |s.accepts| <= 1 && s.signals == [] && s.members == {})
    && (forall k | 0 <= k < |s.accepts| :: s.accepts[k] == InFlight ==> s.acceptorOpen)
    && (forall i | 0 <= i < |s.conns| :: Kept(site, s, i))
    && (forall i | i in s.members :: i < |s.conns|)
  }

  predicate Kept(site: Site, s: Server, i: nat)
    requires i < |s.conns|
  {
    ConnOk(site, s.conns[i]) && (i in s.members <==> s.conns[i].open)
  }

  // How much a pending operation leaves to run: a successful read issues one more operation.

  function Weight(op: Op): nat {
    if op.Read? && op.progress.Ready? && op.progress.outcome.Done? then 2 else 1
  }

  function OpsWeight(ops: seq<Op>): nat {
    if ops == [] then 0 else Weight(ops[0]) + OpsWeight(ops[1..])
  }

  lemma StartedOk(site: Site, start: Config)
    requires Fresh(start)
    ensures ConnOk(site, Started(start)) && Started(start).open
  {
  }

  lemma CloseOk(site: Site, c: Conn)
    requires ConnOk(site, c)
    ensures ConnOk(site, Close(c)) && !Close(c).open
  {
  }

  lemma ReadyOk(site: Site, c: Conn, k: nat, o: Outcome)
    requires ConnOk(site, c) && k < |c.ops| && c.ops[k].progress == InFlight && o != Aborted
    ensures ConnOk(site, c.(ops := c.ops[k := c.ops[k].(progress := Ready(o))]))
  {
  }

  /** The handler of a read issues exactly one operation. */
  lemma DataIssues(site: Site, c: Conn, data: bytes)
    requires c.ops == []
    ensures var d := OnData(site, c, data);
            |d.ops| == 1 && d.ops[0].progress == Issued(c.open) && d.open == c.open
  {
  }

  /** After a read the bytes so far decide what comes next: one reply, or another read. */
  lemma DataOk(site: Site, c: Conn, data: bytes)
    requires ConnOk(site, c) && |c.ops| == 1 && c.ops[0].Read?
    ensures ConnOk(site, OnData(site, c.(ops := []), data))
  {
    After(c.start, c.received, c.parser, data);
    var d := OnData(site, c.(ops := []), data);
    DataIssues(site, c.(ops := []), data);
    assert d.sent == Owed(site, c.start, c.received + data);
  }

  lemma OpDone(site: Site, c: Conn, k: nat)
    requires ConnOk(site, c) && k < |c.ops| && c.ops[k].progress.Ready?
    ensures var d := OnOp(site, c.(ops := Without(c.ops, k)), c.ops[k]);
            && ConnOk(site, d) && (d.open <==> c.open && !Stops(c.ops[k]))
            && (!c.open ==> OpsWeight(d.ops) < OpsWeight(c.ops))
  {
    assert Without(c.ops, k) == [];
    assert OpsWeight(c.ops) == Weight(c.ops[0]) + OpsWeight([]);
    assert CutOps([]) == [];
    if c.ops[k].progress.outcome.Done? && c.ops[k].Read? {
      var data := c.ops[k].progress.outcome.data;
      DataOk(site, c, data);
      DataIssues(site, c.(ops := []), data);
      var d := OnData(site, c.(ops := []), data);
      assert OpsWeight(d.ops) == Weight(d.ops[0]) + OpsWeight([]);
    }
  }

  lemma OpKeeps(site: Site, s: Server, i: nat, k: nat)
    requires Inv(site, s) && Enabled(s, RunOp(i, k))
    ensures Inv(site, OpStep(site, s, i, k))
  {
    var c, t := s.conns[i], OpStep(site, s, i, k);
    assert Kept(site, s, i);
    OpDone(site, c, k);
    forall j | 0 <= j < |t.conns| ensures Kept(site, t, j) {
      assert Kept(site, s, j);
    }
  }

  lemma AcceptKeeps(site: Site, s: Server, k: nat, start: Config)
    requires Inv(site, s) && Enabled(s, RunAccept(k, start))
    ensures Inv(site, AcceptStep(s, k, start))
  {
    var t := AcceptStep(s, k, start);
    StartedOk(site, start);
    assert Without(s.accepts, k) == [];
    forall j | 0 <= j < |t.conns| ensures Kept(site, t, j) {
      assert j < |s.conns| ==> Kept(site, s, j);
    }
  }

  lemma StopConn(site: Site, s: Server, k: nat, i: nat)
    requires Inv(site, s) && Enabled(s, RunSignal(k)) && i < |s.conns|
    ensures Kept(site, StopStep(s, k), i)
  {
    assert Kept(site, s, i);
    CloseOk(site, s.conns[i]);
  }

  lemma StopKeeps(site: Site, s: Server, k: nat)
    requires Inv(site, s) && Enabled(s, RunSignal(k))
    ensures Inv(site, StopStep(s, k)) && !StopStep(s, k).acceptorOpen
  {
    var t := StopStep(s, k);
    forall i | 0 <= i < |t.conns| ensures Kept(site, t, i) {
      StopConn(site, s, k, i);
    }
    assert t.signals == [];
  }

  lemma EnvironmentKeeps(site: Site, s: Server, e: Event)
    requires Inv(site, s) && Enabled(s, e) && (e.AcceptReady? || e.SignalReady? || e.OpReady?)
    ensures Inv(site, Next(site, s, e))
  {
    var t := Next(site, s, e);
    forall j | 0 <= j < |t.conns| ensures Kept(site, t, j) {
      assert Kept(site, s, j);
      if e.OpReady? && e.i == j {
        ReadyOk(site, s.conns[e.i], e.k, e.outcome);
      }
    }
  }

  lemma StepKeeps(site: Site, s: Server, e: Event)
    requires Inv(site, s) && Enabled(s, e)
    ensures Inv(site, Next(site, s, e))
  {
    match e
    case RunAccept(k, start) => AcceptKeeps(site, s, k, start);
    case RunSignal(k) => StopKeeps(site, s, k);
    case RunOp(i, k) => OpKeeps(site, s, i, k);
    case _ => EnvironmentKeeps(site, s, e);
  }

  lemma {:induction false} RunKeeps(site: Site, s: Server, es: seq<Event>, t: Server)
    requires Inv(site, s) && Runs(site, s, es, t)
    ensures Inv(site, t)
    decreases es
  {
    if es != [] {
      StepKeeps(site, s, es[0]);
      RunKeeps(site, Next(site, s, es[0]), es[1..], t);
    }
  }

  lemma Reachable(site: Site, es: seq<Event>, s: Server)
    requires Runs(site, BOOTED, es, s)
    ensures Inv(site, s)
  {
    RunKeeps(site, BOOTED, es, s);
  }

  // Connections.

  /** Membership, an open socket and exactly one pending operation go together. */
  lemma NoLeakedConnections(site: Site, es: seq<Event>, s: Server, i: nat)
    requires Runs(site, BOOTED, es, s) && i < |s.conns|
    ensures i in s.members <==> s.conns[i].open
    ensures i in s.members ==> |s.conns[i].ops| == 1
    ensures |s.conns[i].ops| <= 1
  {
    Reachable(site, es, s);
    assert Kept(site, s, i);
  }

  /**
   * While a write is pending it is the only operation, the reply it refers to is unchanged, and that
   * reply is the one the connection has sent.
   */
  lemma BufferStability(site: Site, es: seq<Event>, s: Server, i: nat, k: nat)
    requires Runs(site, BOOTED, es, s) && i < |s.conns| && k < |s.conns[i].ops|
    requires s.conns[i].ops[k].Write?
    ensures |s.conns[i].ops| == 1 && s.conns[i].ops[k].buffers == Serialised(s.conns[i].reply)
    ensures s.conns[i].sent == [s.conns[i].reply]
  {
    Reachable(site, es, s);
    assert Kept(site, s, i);
    WriteMatches(site, s.conns[i], k);
  }

  lemma WriteMatches(site: Site, c: Conn, k: nat)
    requires ConnOk(site, c) && k < |c.ops| && c.ops[k].Write?
    ensures |c.ops| == 1 && c.ops[k].buffers == Serialised(c.reply) && c.sent == [c.reply]
  {
    assert Matches(c, c.ops[0]);
  }

  lemma RepliedReadsNothing(site: Site, c: Conn)
    requires ConnOk(site, c) && c.sent != []
    ensures forall op | op in c.ops :: !op.Read?
  {
  }

  /** No byte is read, and so none is parsed, once a reply has begun. */
  lemma NoReadAfterReply(site: Site, es: seq<Event>, s: Server, i: nat)
    requires Runs(site, BOOTED, es, s) && i < |s.conns| && s.conns[i].sent != []
    ensures forall op | op in s.conns[i].ops :: !op.Read?
  {
    Reachable(site, es, s);
    assert Kept(site, s, i);
    RepliedReadsNothing(site, s.conns[i]);
  }

  lemma OwedByMeaning(site: Site, c: Config, w: bytes)
    requires Fresh(c)
    ensures Owed(site, c, w) == [] <==> Viable(w)
    ensures forall t, k, r | 0 <= k <= |w| && Derives(t, w[..k], r) ::
              Owed(site, c, w) == [Handle(site, r, BLANK)]
    ensures !Viable(w) && (forall k | 0 <= k <= |w| :: !InLanguage(w[..k])) ==>
              Owed(site, c, w) == [StockReply(BadRequest)]
  {
    IndeterminateIffViable(c, w);
    forall t, k, r | 0 <= k <= |w| && Derives(t, w[..k], r)
      ensures Owed(site, c, w) == [Handle(site, r, BLANK)]
    {
      Decides(c, w, k, r);
    }
    GoodIffInLanguage(c, w, Run(c, w).used);
  }

  /** `sent` is what is to be sent for the bytes `w`. */
  ghost predicate RepliesTo(site: Site, w: bytes, sent: seq<Reply>) {
    && |sent| <= 1
    && (sent == [] <==> Viable(w))
    && (forall t, k, r | 0 <= k <= |w| && Derives(t, w[..k], r) :: sent == [Handle(site, r, BLANK)])
    && (!Viable(w) && (forall k | 0 <= k <= |w| :: !InLanguage(w[..k])) ==>
          sent == [StockReply(BadRequest)])
  }

  lemma OwedReplies(site: Site, c: Conn)
    requires ConnOk(site, c)
    ensures RepliesTo(site, c.received, c.sent)
  {
    OwedByMeaning(site, c.start, c.received);
  }

  /** The bytes that the handler of a successful read of connection `i` is given at event `e`. */
  function Given(s: Server, e: Event, i: nat): bytes
    requires Enabled(s, e)
  {
    if e.RunOp? && e.i == i && s.conns[i].ops[e.k].Read? && s.conns[i].ops[e.k].progress.outcome.Done?
    then s.conns[i].ops[e.k].progress.outcome.data else []
  }

  /** All the bytes that connection `i` is given in a run, in order. */
  function Delivered(site: Site, s: Server, es: seq<Event>, i: nat): bytes
    decreases es
  {
    if es == [] || !Enabled(s, es[0]) then []
    else Given(s, es[0], i) + Delivered(site, Next(site, s, es[0]), es[1..], i)
  }

  function Received(s: Server, i: nat): bytes { if i < |s.conns| then s.conns[i].received else [] }

  lemma GivenReceived(site: Site, s: Server, e: Event, i: nat)
    requires Enabled(s, e)
    ensures Received(Next(site, s, e), i) == Received(s, i) + Given(s, e, i)
  {
  }

  lemma Rejoin(p: bytes, q: bytes, r: bytes)
    ensures p + q + r == p + (q + r)
  {
  }

  lemma {:induction false} DeliveredReceived(site: Site, s: Server, es: seq<Event>, t: Server, i: nat)
    requires Runs(site, s, es, t)
    ensures Received(t, i) == Received(s, i) + Delivered(site, s, es, i)
    decreases es
  {
    if es != [] {
      var u := Next(site, s, es[0]);
      GivenReceived(site, s, es[0], i);
      DeliveredReceived(site, u, es[1..], t, i);
      Rejoin(Received(s, i), Given(s, es[0], i), Delivered(site, u, es[1..], i));
    }
  }

  /** What a connection has received is all that its reads delivered. */
  lemma ReceivedIsDelivered(site: Site, es: seq<Event>, s: Server, i: nat)
    requires Runs(site, BOOTED, es, s) && i < |s.conns|
    ensures s.conns[i].received == Delivered(site, BOOTED, es, i)
  {
    DeliveredReceived(site, BOOTED, es, s, i);
  }

  /**
   * What a connection has sent is a function of the bytes its reads delivered, however they split
   * them: nothing while they can still become a request, then the handler's reply to the request
   * they begin with, or else the bad-request reply; never two replies.
   */
  lemma RepliesByBytes(site: Site, es: seq<Event>, s: Server, i: nat)
    requires Runs(site, BOOTED, es, s) && i < |s.conns|
    ensures RepliesTo(site, Delivered(site, BOOTED, es, i), s.conns[i].sent)
  {
    Reachable(site, es, s);
    assert Kept(site, s, i);
    ReceivedIsDelivered(site, es, s, i);
    OwedReplies(site, s.conns[i]);
  }

  /** The bytes being written are those of the reply to the bytes delivered. */
  lemma BytesWritten(site: Site, es: seq<Event>, s: Server, i: nat, k: nat)
    requires Runs(site, BOOTED, es, s) && i < |s.conns| && k < |s.conns[i].ops|
    requires s.conns[i].ops[k].Write?
    ensures RepliesTo(site, Delivered(site, BOOTED, es, i), [s.conns[i].reply])
    ensures s.conns[i].ops[k].buffers == Serialised(s.conns[i].reply)
  {
    BufferStability(site, es, s, i, k);
    RepliesByBytes(site, es, s, i);
  }

  /** Two connections that were given the same bytes, in whatever pieces, have sent the same. */
  lemma SameBytesSameReply(site: Site, es: seq<Event>, s: Server, i: nat, fs: seq<Event>, t: Server, j: nat)
    requires Runs(site, BOOTED, es, s) && i < |s.conns|
    requires Runs(site, BOOTED, fs, t) && j < |t.conns|
    requires Delivered(site, BOOTED, es, i) == Delivered(site, BOOTED, fs, j)
    ensures s.conns[i].sent == t.conns[j].sent
  {
    Reachable(site, es, s);
    Reachable(site, fs, t);
    ReceivedIsDelivered(site, es, s, i);
    ReceivedIsDelivered(site, fs, t, j);
    assert Kept(site, s, i) && Kept(site, t, j);
    FreshAlike(s.conns[i].start, t.conns[j].start, s.conns[i].received);
  }

  /** So what the two put on the wire is the same. */
  lemma SameBytesWritten(site: Site, es: seq<Event>, s: Server, i: nat, k: nat,
                         fs: seq<Event>, t: Server, j: nat, l: nat)
    requires Runs(site, BOOTED, es, s) && i < |s.conns| && k < |s.conns[i].ops| && s.conns[i].ops[k].Write?
    requires Runs(site, BOOTED, fs, t) && j < |t.conns| && l < |t.conns[j].ops| && t.conns[j].ops[l].Write?
    requires Delivered(site, BOOTED, es, i) == Delivered(site, BOOTED, fs, j)
    ensures s.conns[i].ops[k].buffers == t.conns[j].ops[l].buffers
  {
    BufferStability(site, es, s, i, k);
    BufferStability(site, fs, t, j, l);
    SameBytesSameReply(site, es, s, i, fs, t, j);
  }

  // The acceptor.

  /** One accept is pending while the acceptor is open, so the event loop does not run dry. */
  lemma AcceptorArmed(site: Site, es: seq<Event>, s: Server)
    requires Runs(site, BOOTED, es, s)
    ensures s.acceptorOpen ==> |s.accepts| == 1 && |s.signals| == 1
    ensures !s.acceptorOpen ==> |s.accepts| <= 1 && s.signals == [] && s.members == {}
  {
    Reachable(site, es, s);
  }

  predicate HasAccept(es: seq<Event>) { exists b :: 0 <= b < |es| && es[b].RunAccept? }

  predicate HasSignal(es: seq<Event>) { exists a :: 0 <= a < |es| && es[a].RunSignal? }

  /** The handler of an accept has run after the stop handler. */
  predicate AcceptAfterStop(es: seq<Event>) {
    exists a, b :: 0 <= a < b < |es| && es[a].RunSignal? && es[b].RunAccept?
  }

  lemma FirstEvent(es: seq<Event>)
    requires es != []
    ensures HasAccept(es) <==> es[0].RunAccept? || HasAccept(es[1..])
    ensures HasSignal(es) <==> es[0].RunSignal? || HasSignal(es[1..])
    ensures AcceptAfterStop(es) <==> (es[0].RunSignal? && HasAccept(es[1..])) || AcceptAfterStop(es[1..])
  {
    if b :| 0 <= b < |es| && es[b].RunAccept? && b > 0 {
      assert es[1..][b - 1].RunAccept?;
    }
    if b :| 0 <= b < |es| && es[b].RunSignal? && b > 0 {
      assert es[1..][b - 1].RunSignal?;
    }
    if a, b :| 0 <= a < b < |es| && es[a].RunSignal? && es[b].RunAccept? {
      assert es[1..][b - 1].RunAccept?;
      assert a > 0 ==> es[1..][a - 1].RunSignal?;
    }
    if b :| 0 <= b < |es[1..]| && es[1..][b].RunAccept? {
      assert es[b + 1].RunAccept?;
    }
    if a :| 0 <= a < |es[1..]| && es[1..][a].RunSignal? {
      assert es[a + 1].RunSignal?;
    }
    if a, b :| 0 <= a < b < |es[1..]| && es[1..][a].RunSignal? && es[1..][b].RunAccept? {
      assert es[a + 1].RunSignal? && es[b + 1].RunAccept?;
    }
  }

  lemma AcceptorStep(site: Site, s: Server, e: Event)
    requires Inv(site, s) && Enabled(s, e)
    ensures var t := Next(site, s, e);
            && (t.acceptorOpen <==> s.acceptorOpen && !e.RunSignal?)
            && (t.accepts == [] <==> s.accepts == [] || (e.RunAccept? && !s.acceptorOpen))
  {
  }

  lemma {:induction false} AcceptorRun(site: Site, s: Server, es: seq<Event>, t: Server)
    requires Inv(site, s) && Runs(site, s, es, t)
    ensures t.acceptorOpen <==> s.acceptorOpen && !HasSignal(es)
    ensures t.accepts == [] <==>
            s.accepts == [] || (!s.acceptorOpen && HasAccept(es)) || AcceptAfterStop(es)
    decreases es
  {
    if es != [] {
      FirstEvent(es);
      StepKeeps(site, s, es[0]);
      AcceptorStep(site, s, es[0]);
      AcceptorRun(site, Next(site, s, es[0]), es[1..], t);
    }
  }

  /** No accept is pending exactly when the handler of one has run after the stop handler. */
  lemma NoAcceptIff(site: Site, es: seq<Event>, s: Server)
    requires Runs(site, BOOTED, es, s)
    ensures s.acceptorOpen <==> !HasSignal(es)
    ensures s.accepts == [] <==> AcceptAfterStop(es)
  {
    AcceptorRun(site, BOOTED, es, s);
  }

  /** Whether `e` runs the handler of a successful accept while the acceptor is open. */
  predicate Admits(s: Server, e: Event)
    requires Enabled(s, e)
  {
    e.RunAccept? && s.acceptorOpen && s.accepts[e.k].outcome.Done?
  }

  function Admissions(site: Site, s: Server, es: seq<Event>): nat
    decreases es
  {
    if es == [] || !Enabled(s, es[0]) then 0
    else (if Admits(s, es[0]) then 1 else 0) + Admissions(site, Next(site, s, es[0]), es[1..])
  }

  lemma AdmitsOne(site: Site, s: Server, e: Event)
    requires Enabled(s, e)
    ensures |Next(site, s, e).conns| == |s.conns| + if Admits(s, e) then 1 else 0
  {
  }

  lemma {:induction false} AdmissionsFrom(site: Site, s: Server, es: seq<Event>, t: Server)
    requires Runs(site, s, es, t)
    ensures |t.conns| == |s.conns| + Admissions(site, s, es)
    decreases es
  {
    if es != [] {
      AdmitsOne(site, s, es[0]);
      AdmissionsFrom(site, Next(site, s, es[0]), es[1..], t);
    }
  }

  /** There is a connection for every successful accept handled while the acceptor was open. */
  lemma OneConnectionEach(site: Site, es: seq<Event>, s: Server)
    requires Runs(site, BOOTED, es, s)
    ensures |s.conns| == Admissions(site, BOOTED, es)
  {
    AdmissionsFrom(site, BOOTED, es, s);
  }

  /** Some run leads from `s` to `t`. */
  ghost predicate Reaches(site: Site, s: Server, t: Server) { exists es :: Runs(site, s, es, t) }

  lemma ReachesFirst(site: Site, s: Server, e: Event, u: Server, t: Server)
    requires Enabled(s, e) && Next(site, s, e) == u && Reaches(site, u, t)
    ensures Reaches(site, s, t)
  {
    var es :| Runs(site, u, es, t);
    assert ([e] + es)[1..] == es;
    assert Runs(site, s, [e] + es, t);
  }

  lemma {:induction false} RunsLast(site: Site, s: Server, es: seq<Event>, t: Server, e: Event)
    requires Runs(site, s, es, t) && Enabled(t, e)
    ensures Runs(site, s, es + [e], Next(site, t, e))
    decreases es
  {
    if es == [] {
      assert [e][1..] == [] && es + [e] == [e];
    } else {
      RunsLast(site, Next(site, s, es[0]), es[1..], t, e);
      assert (es + [e])[1..] == es[1..] + [e];
    }
  }

  lemma ReachesThen(site: Site, s: Server, t: Server)
    requires Reaches(site, BOOTED, s) && StepsTo(site, s, t)
    ensures Reaches(site, BOOTED, t)
  {
    var es :| Runs(site, BOOTED, es, s);
    var e :| Enabled(s, e) && Next(site, s, e) == t;
    RunsLast(site, BOOTED, es, s, e);
  }

  /** Some event leads from `s` to `t`. */
  ghost predicate StepsTo(site: Site, s: Server, t: Server) {
    exists e :: Enabled(s, e) && Next(site, s, e) == t
  }

  /** One connection is managed and reads. */
  function OneReader(start: Config, signal: Progress): Server {
    Server(true, [InFlight], [signal], {0}, [Started(start)])
  }

  /** The same after a stop. */
  function StoppedReader(start: Config, accepts: seq<Progress>): Server {
    Server(false, accepts, [], {}, [Close(Started(start))])
  }

  lemma BootToReader(site: Site, start: Config, t: Server)
    requires Fresh(start) && Reaches(site, OneReader(start, InFlight), t)
    ensures Reaches(site, BOOTED, t)
  {
    var v := BOOTED.(accepts := [Ready(Done([]))]);
    ReachesFirst(site, v, RunAccept(0, start), OneReader(start, InFlight), t);
    ReachesFirst(site, BOOTED, AcceptReady(0, Done([])), v, t);
  }

  lemma StopReader(start: Config)
    requires Fresh(start)
    ensures StopStep(OneReader(start, Ready(Failed)), 0) == StoppedReader(start, [Ready(Aborted)])
  {
    var c := Started(start);
    assert CutAll([InFlight]) == [Ready(Aborted)];
    assert CloseMembers([c], {0}) == [Close(c)];
  }

  lemma ReaderToStopped(site: Site, start: Config, t: Server)
    requires Fresh(start) && Reaches(site, StoppedReader(start, [Ready(Aborted)]), t)
    ensures Reaches(site, OneReader(start, InFlight), t)
  {
    StopReader(start);
    ReachesFirst(site, OneReader(start, Ready(Failed)), RunSignal(0),
                 StoppedReader(start, [Ready(Aborted)]), t);
    ReachesFirst(site, OneReader(start, InFlight), SignalReady(0, Failed), OneReader(start, Ready(Failed)), t);
  }

  /** The server goes on without an accept while the aborted read of a connection is to be handled. */
  lemma RunsWithoutAccept(site: Site, start: Config)
    requires Fresh(start)
    ensures var s := StoppedReader(start, []);
            && Reaches(site, BOOTED, s) && s.accepts == []
            && s.conns[0].ops == [Read(Ready(Aborted))] && Enabled(s, RunOp(0, 0))
  {
    var s := StoppedReader(start, []);
    assert Runs(site, s, [], s);
    ReachesFirst(site, StoppedReader(start, [Ready(Aborted)]), RunAccept(0, start), s, s);
    ReaderToStopped(site, start, s);
    BootToReader(site, start, s);
  }

  // Shutting down.

  function TotalWeight(conns: seq<Conn>): nat {
    if conns == [] then 0
    else TotalWeight(conns[..|conns| - 1]) + OpsWeight(conns[|conns| - 1].ops)
  }

  /** What is still to run: handlers, counting twice a read whose handler issues one more operation. */
  function Pending(s: Server): nat { |s.accepts| + |s.signals| + TotalWeight(s.conns) }

  lemma {:induction false} TotalUpdate(conns: seq<Conn>, i: nat, c: Conn)
    requires i < |conns|
    ensures TotalWeight(conns[i := c]) == TotalWeight(conns) - OpsWeight(conns[i].ops) + OpsWeight(c.ops)
    decreases |conns|
  {
    var n := |conns| - 1;
    if i < n {
      TotalUpdate(conns[..n], i, c);
      assert conns[i := c][..n] == conns[..n][i := c];
    } else {
      assert conns[i := c][..n] == conns[..n];
    }
  }

  /** After the stop handler no operation is left to abort. */
  lemma NothingInFlight(site: Site, s: Server)
    requires Inv(site, s) && !s.acceptorOpen
    ensures forall k | 0 <= k < |s.accepts| :: s.accepts[k].Ready?
    ensures forall i, k | 0 <= i < |s.conns| && 0 <= k < |s.conns[i].ops| :: s.conns[i].ops[k].progress.Ready?
  {
    forall i, k | 0 <= i < |s.conns| && 0 <= k < |s.conns[i].ops|
      ensures s.conns[i].ops[k].progress.Ready?
    {
      assert Kept(site, s, i);
    }
  }

  /** After the stop handler every step runs a handler, and less remains to run. */
  lemma DrainStep(site: Site, s: Server, e: Event)
    requires Inv(site, s) && !s.acceptorOpen && Enabled(s, e)
    ensures Pending(Next(site, s, e)) < Pending(s)
  {
    NothingInFlight(site, s);
    if e.RunOp? {
      var c := s.conns[e.i];
      assert Kept(site, s, e.i);
      OpDone(site, c, e.k);
      TotalUpdate(s.conns, e.i, OnOp(site, c.(ops := Without(c.ops, e.k)), c.ops[e.k]));
    }
  }

  /** After the stop handler no step re-arms an accept or adds a connection. */
  lemma StaysClosed(site: Site, s: Server, e: Event)
    requires Inv(site, s) && !s.acceptorOpen && Enabled(s, e)
    ensures var t := Next(site, s, e);
            !t.acceptorOpen && t.members == {} && |t.conns| == |s.conns| && |t.accepts| <= |s.accepts|
  {
  }

  /** From the stop handler on, a run has at most `Pending` steps. */
  lemma {:induction false} Drains(site: Site, s: Server, es: seq<Event>, t: Server)
    requires Inv(site, s) && !s.acceptorOpen && Runs(site, s, es, t)
    ensures |es| + Pending(t) <= Pending(s)
    ensures !t.acceptorOpen && t.members == {} && |t.conns| == |s.conns|
    decreases es
  {
    if es != [] {
      var u := Next(site, s, es[0]);
      StepKeeps(site, s, es[0]);
      DrainStep(site, s, es[0]);
      StaysClosed(site, s, es[0]);
      Drains(site, u, es[1..], t);
    }
  }

  /** Nothing is left to happen, and the event loop returns. */
  predicate Quiet(s: Server) {
    s.accepts == [] && s.signals == [] && forall i | 0 <= i < |s.conns| :: s.conns[i].ops == []
  }

  /** No step is possible. */
  ghost predicate Stuck(s: Server) { forall e :: !Enabled(s, e) }

  /** While anything is pending some step is possible. */
  lemma QuietIffStuck(site: Site, s: Server)
    requires Inv(site, s)
    ensures Quiet(s) <==> Stuck(s)
    ensures s.acceptorOpen ==> !Quiet(s)
  {
    if s.accepts != [] {
      assert Enabled(s, if s.accepts[0] == InFlight then AcceptReady(0, Failed)
                        else RunAccept(0, At(MethodStart, EMPTY)));
    }
    if s.signals != [] {
      assert Enabled(s, if s.signals[0] == InFlight then SignalReady(0, Failed) else RunSignal(0));
    }
    if i :| 0 <= i < |s.conns| && s.conns[i].ops != [] {
      assert Enabled(s, if s.conns[i].ops[0].progress == InFlight then OpReady(i, 0, Failed)
                        else RunOp(i, 0));
    }
  }

  lemma {:induction false} WeightBound(conns: seq<Conn>)
    requires forall i | 0 <= i < |conns| :: |conns[i].ops| <= 1
    ensures TotalWeight(conns) <= 2 * |conns|
    decreases |conns|
  {
    if conns != [] {
      WeightBound(conns[..|conns| - 1]);
      var ops := conns[|conns| - 1].ops;
      assert |ops| == 1 ==> OpsWeight(ops) == Weight(ops[0]) + OpsWeight([]);
    }
  }

  lemma PendingBound(site: Site, s: Server)
    requires Inv(site, s) && !s.acceptorOpen
    ensures Pending(s) <= 2 * |s.conns| + 1
  {
    forall i | 0 <= i < |s.conns| ensures |s.conns[i].ops| <= 1 {
      assert Kept(site, s, i);
    }
    WeightBound(s.conns);
  }

  /** Shutdown ends: a run past the stop handler has at most two steps per connection and one more. */
  lemma ShutdownEnds(site: Site, before: seq<Event>, s: Server, es: seq<Event>, t: Server)
    requires Runs(site, BOOTED, before, s) && !s.acceptorOpen && Runs(site, s, es, t)
    ensures |es| <= 2 * |s.conns| + 1
  {
    Reachable(site, before, s);
    Drains(site, s, es, t);
    PendingBound(site, s);
  }

  /** Past the stop handler no connection is managed, the acceptor stays closed and none is added. */
  lemma ShutdownEmpties(site: Site, before: seq<Event>, s: Server, es: seq<Event>, t: Server)
    requires Runs(site, BOOTED, before, s) && !s.acceptorOpen && Runs(site, s, es, t)
    ensures t.members == {} && !t.acceptorOpen && |t.conns| == |s.conns|
  {
    Reachable(site, before, s);
    Drains(site, s, es, t);
  }

  /** A run past the stop handler that cannot go on has nothing pending. */
  lemma ShutdownDrains(site: Site, before: seq<Event>, s: Server, es: seq<Event>, t: Server)
    requires Runs(site, BOOTED, before, s) && !s.acceptorOpen && Runs(site, s, es, t)
    ensures Stuck(t) ==> Quiet(t)
  {
    Reachable(site, before, s);
    RunKeeps(site, s, es, t);
    QuietIffStuck(site, t);
  }
}
