/**
 * The server as a protocol: completion handlers run one at a time, and between them the pending
 * operations of the sockets, the acceptor and the signal set make progress.
 */
module Lifecycle {
  import opened Octets
  import opened RequestMachine
  import opened RequestAccepts
  import opened Replies
  import opened RequestHandling

  /** How an operation ended. Only closing its socket aborts an operation. */
  datatype Outcome = Done(data: bytes) | Failed | Aborted

  /** An operation is in flight, or its result is fixed and its handler is queued. */
  datatype Progress = InFlight | Ready(outcome: Outcome)

  datatype Op = Read(progress: Progress) | Write(buffers: bytes, progress: Progress)

  /**
   * A connection. `start` is where its parser began; `received` and `sent` record every byte read
   * and every reply whose sending was begun.
   */
  datatype Conn = Conn(open: bool, ops: seq<Op>, parser: Config, reply: Reply,
                       start: Config, received: bytes, sent: seq<Reply>)

  const READ_BUFFER := 8192
  const BLANK := Reply(Status.Ok, [], [])

  /** An operation on a closed socket fails at once. */
  function Issued(open: bool): Progress { if open then InFlight else Ready(Failed) }

  function Cut(p: Progress): Progress { if p == InFlight then Ready(Aborted) else p }

  function CutAll(ps: seq<Progress>): seq<Progress> {
    seq(|ps|, i requires 0 <= i < |ps| => Cut(ps[i]))
  }

  function CutOps(ops: seq<Op>): seq<Op> {
    seq(|ops|, i requires 0 <= i < |ops| => ops[i].(progress := Cut(ops[i].progress)))
  }

  function DoRead(c: Conn): Conn { c.(ops := c.ops + [Read(Issued(c.open))]) }

  function DoWrite(c: Conn): Conn {
    c.(ops := c.ops + [Write(Serialised(c.reply), Issued(c.open))], sent := c.sent + [c.reply])
  }

  function Close(c: Conn): Conn { c.(open := false, ops := CutOps(c.ops)) }

  function Started(start: Config): Conn {
    DoRead(Conn(true, [], start, BLANK, start, [], []))
  }

  /** The handler of a finished read. */
  function OnData(site: Site, c: Conn, data: bytes): Conn {
    var p := Run(c.parser, data);
    var d := c.(parser := p.config, received := c.received + data);
    match p.verdict
    case Good => DoWrite(d.(reply := Handle(site, p.config.req, d.reply)))
    case Bad => DoWrite(d.(reply := StockReply(BadRequest)))
    case Indeterminate => DoRead(d)
  }

  /** The handler of an operation that has left the queue; a stopped connection is closed. */
  function OnOp(site: Site, c: Conn, op: Op): Conn
    requires op.progress.Ready?
  {
    match op.progress.outcome
    case Aborted => c
    case Failed => Close(c)
    case Done(data) => if op.Read? then OnData(site, c, data) else Close(c)
  }

  /** Whether that handler also takes the connection out of the manager's set. */
  predicate Stops(op: Op)
    requires op.progress.Ready?
  {
    op.progress.outcome == Failed || (op.progress.outcome.Done? && op.Write?)
  }

  datatype Server = Server(acceptorOpen: bool, accepts: seq<Progress>, signals: seq<Progress>,
                           members: set<nat>, conns: seq<Conn>)

  datatype Event =
    | AcceptReady(k: nat, outcome: Outcome)
    | SignalReady(k: nat, outcome: Outcome)
    | OpReady(i: nat, k: nat, outcome: Outcome)
    | RunAccept(k: nat, start: Config)
    | RunSignal(k: nat)
    | RunOp(i: nat, k: nat)

  function Without<T>(q: seq<T>, k: nat): seq<T>
    requires k < |q|
  {
    q[..k] + q[k + 1..]
  }

  predicate Enabled(s: Server, e: Event) {
    match e
    case AcceptReady(k, o) => k < |s.accepts| && s.accepts[k] == InFlight && o != Aborted
    case SignalReady(k, o) => k < |s.signals| && s.signals[k] == InFlight && o != Aborted
    case OpReady(i, k, o) =>
      && i < |s.conns| && k < |s.conns[i].ops| && s.conns[i].ops[k].progress == InFlight
      && o != Aborted && (o.Done? ==> |o.data| <= READ_BUFFER)
    case RunAccept(k, start) => k < |s.accepts| && s.accepts[k].Ready? && Fresh(start)
    case RunSignal(k) => k < |s.signals| && s.signals[k].Ready?
    case RunOp(i, k) => i < |s.conns| && k < |s.conns[i].ops| && s.conns[i].ops[k].progress.Ready?
  }

  function AcceptStep(s: Server, k: nat, start: Config): Server
    requires k < |s.accepts| && s.accepts[k].Ready?
  {
    var t := s.(accepts := Without(s.accepts, k));
    if !s.acceptorOpen then t
    else
      var u := if s.accepts[k].outcome.Done?
               then t.(members := t.members + {|t.conns|}, conns := t.conns + [Started(start)])
               else t;
      u.(accepts := u.accepts + [Issued(u.acceptorOpen)])
  }

  function CloseMembers(conns: seq<Conn>, members: set<nat>): seq<Conn> {
    seq(|conns|, i requires 0 <= i < |conns| => if i in members then Close(conns[i]) else conns[i])
  }

  function StopStep(s: Server, k: nat): Server
    requires k < |s.signals|
  {
    Server(false, CutAll(s.accepts), Without(s.signals, k), {}, CloseMembers(s.conns, s.members))
  }

  function OpStep(site: Site, s: Server, i: nat, k: nat): Server
    requires i < |s.conns| && k < |s.conns[i].ops| && s.conns[i].ops[k].progress.Ready?
  {
    var c := s.conns[i];
    var d := OnOp(site, c.(ops := Without(c.ops, k)), c.ops[k]);
    s.(conns := s.conns[i := d], members := if Stops(c.ops[k]) then s.members - {i} else s.members)
  }

  function Next(site: Site, s: Server, e: Event): Server
    requires Enabled(s, e)
  {
    match e
    case AcceptReady(k, o) => s.(accepts := s.accepts[k := Ready(o)])
    case SignalReady(k, o) => s.(signals := s.signals[k := Ready(o)])
    case OpReady(i, k, o) =>
      var c := s.conns[i];
      s.(conns := s.conns[i := c.(ops := c.ops[k := c.ops[k].(progress := Ready(o))])])
    case RunAccept(k, start) => AcceptStep(s, k, start)
    case RunSignal(k) => StopStep(s, k)
    case RunOp(i, k) => OpStep(site, s, i, k)
  }

  predicate Runs(site: Site, s: Server, es: seq<Event>, t: Server)
    decreases es
  {
    if es == [] then s == t
    else Enabled(s, es[0]) && Runs(site, Next(site, s, es[0]), es[1..], t)
  }

  /** The server as its constructor leaves it: waiting for a signal and for a connection. */
  const BOOTED := Server(true, [InFlight], [InFlight], {}, [])
}
