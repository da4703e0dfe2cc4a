/**
 * What each handler does in a reachable state, and that whoever sends a request can get the reply.
 */
module HandlerLaws {
  import opened Octets
  import opened RequestMachine
  import opened RequestGrammar
  import opened RequestAccepts
  import opened RequestTheorems
  import opened Replies
  import opened UrlDecoding
  import opened Paths
  import opened RequestHandling
  import opened Lifecycle
  import opened LifecycleLaws

  /** How an operation starts on a socket that is open or not. */
  function Begun(open: bool): Progress { if open then InFlight else Ready(Failed) }

  /** The connection reads on, or writes the reply to what it has received. */
  predicate GoesOn(c: Conn) {
    c.ops == [if c.sent == [] then Read(Begun(c.open)) else Write(Serialised(c.sent[0]), Begun(c.open))]
  }

  lemma DataHandled(site: Site, c: Conn, data: bytes)
    requires ConnOk(site, c) && |c.ops| == 1 && c.ops[0].Read?
    ensures var d := OnData(site, c.(ops := []), data);
            && d.open == c.open && d.received == c.received + data
            && RepliesTo(site, c.received + data, d.sent) && GoesOn(d)
  {
    var d := OnData(site, c.(ops := []), data);
    DataOk(site, c, data);
    DataIssues(site, c.(ops := []), data);
    OwedReplies(site, d);
    assert Matches(d, d.ops[0]) && Matches(c, c.ops[0]);
  }

  /**
   * After a successful read the connection has the bytes, and either reads on or writes the reply to
   * all its bytes. Nothing else in the server changes.
   */
  lemma ReadHandled(site: Site, es: seq<Event>, s: Server, i: nat, k: nat, data: bytes)
    requires Runs(site, BOOTED, es, s) && Enabled(s, RunOp(i, k))
    requires s.conns[i].ops[k] == Read(Ready(Done(data)))
    ensures var c, t := s.conns[i], Next(site, s, RunOp(i, k));
            var d := t.conns[i];
            && t == s.(conns := s.conns[i := d])
            && d.open == c.open && d.received == c.received + data
            && RepliesTo(site, c.received + data, d.sent) && GoesOn(d)
  {
    Reachable(site, es, s);
    assert Kept(site, s, i);
    assert Without(s.conns[i].ops, k) == [];
    DataHandled(site, s.conns[i], data);
  }

  /** A read that failed and a write that ended in any way close the connection for good. */
  lemma ConnectionEnds(site: Site, es: seq<Event>, s: Server, i: nat, k: nat)
    requires Runs(site, BOOTED, es, s) && Enabled(s, RunOp(i, k))
    requires var op := s.conns[i].ops[k];
             op.progress.outcome == Failed || (op.Write? && op.progress.outcome.Done?)
    ensures var c, t := s.conns[i], Next(site, s, RunOp(i, k));
            && t == s.(conns := s.conns[i := c.(open := false, ops := [])], members := s.members - {i})
            && i !in t.members
  {
    Reachable(site, es, s);
    assert Kept(site, s, i);
    assert CutOps([]) == [];
  }

  /** The handler of an aborted operation does nothing. */
  lemma AbortIgnored(site: Site, es: seq<Event>, s: Server, i: nat, k: nat)
    requires Runs(site, BOOTED, es, s) && Enabled(s, RunOp(i, k))
    requires s.conns[i].ops[k].progress.outcome == Aborted
    ensures Next(site, s, RunOp(i, k)) == s.(conns := s.conns[i := s.conns[i].(ops := [])])
    ensures i !in s.members
  {
    Reachable(site, es, s);
    assert Kept(site, s, i);
    assert k == 0 && OpOk(s.conns[i].open, s.conns[i].ops[0]);
    assert Without(s.conns[i].ops, k) == [];
  }

  predicate NewlyReading(c: Conn, start: Config) {
    c.open && c.ops == [Read(InFlight)] && c.parser == start && c.received == [] && c.sent == []
  }

  /**
   * An accept is handled by waiting for the next one, after starting a connection if it succeeded;
   * once the acceptor is closed it is dropped.
   */
  lemma AcceptHandled(site: Site, es: seq<Event>, s: Server, k: nat, start: Config)
    requires Runs(site, BOOTED, es, s) && Enabled(s, RunAccept(k, start))
    ensures var t, n := Next(site, s, RunAccept(k, start)), |s.conns|;
            if !s.acceptorOpen then t == s.(accepts := [])
            else if s.accepts[k].outcome.Done? then
              && |t.conns| == n + 1 && t.conns[..n] == s.conns
              && NewlyReading(t.conns[n], start)
              && t == s.(accepts := [InFlight], members := s.members + {n}, conns := t.conns)
            else t == s.(accepts := [InFlight])
  {
    Reachable(site, es, s);
  }

  /** An operation that is in flight is aborted, and one whose result is fixed keeps it. */
  predicate CutFrom(p: Progress, q: Progress) {
    (p == InFlight ==> q == Ready(Aborted)) && (p.Ready? ==> q == p)
  }

  /** The stop handler closes what is open; results that are already queued stay as they are. */
  lemma StopHandled(site: Site, es: seq<Event>, s: Server, k: nat)
    requires Runs(site, BOOTED, es, s) && Enabled(s, RunSignal(k))
    ensures var t := Next(site, s, RunSignal(k));
            && !t.acceptorOpen && t.members == {} && t.signals == []
            && |t.accepts| == |s.accepts| && |t.conns| == |s.conns|
            && (forall j | 0 <= j < |s.accepts| :: CutFrom(s.accepts[j], t.accepts[j]))
            && (forall i | 0 <= i < |s.conns| :: ClosedFrom(s.conns[i], t.conns[i]))
  {
    Reachable(site, es, s);
    forall i | 0 <= i < |s.conns| ensures ClosedFrom(s.conns[i], Next(site, s, RunSignal(k)).conns[i]) {
      assert Kept(site, s, i);
      Closes(site, s.conns[i]);
    }
  }

  lemma Closes(site: Site, c: Conn)
    requires ConnOk(site, c)
    ensures ClosedFrom(c, Close(c)) && (!c.open ==> ClosedFrom(c, c))
  {
    forall k | 0 <= k < |c.ops| ensures OpCutFrom(c.ops[k], CutOps(c.ops)[k]) {
    }
    if c.ops != [] {
      assert OpOk(c.open, c.ops[0]);
    }
  }

  predicate OpCutFrom(p: Op, q: Op) {
    CutFrom(p.progress, q.progress) && q == p.(progress := q.progress)
  }

  predicate ClosedFrom(c: Conn, d: Conn) {
    && d == c.(open := false, ops := d.ops) && |d.ops| == |c.ops|
    && forall k | 0 <= k < |c.ops| :: OpCutFrom(c.ops[k], d.ops[k])
  }

  // A client that sends its bytes in any pieces can have its reply.

  /** The server with one connection, which it manages. */
  function Only(c: Conn): Server { Server(true, [InFlight], [InFlight], {0}, [c]) }

  lemma Completes(site: Site, c: Conn, o: Outcome)
    requires |c.ops| == 1 && Enabled(Only(c), OpReady(0, 0, o)) && Reaches(site, BOOTED, Only(c))
    ensures Reaches(site, BOOTED, Only(c.(ops := [c.ops[0].(progress := Ready(o))])))
  {
    var b := c.(ops := [c.ops[0].(progress := Ready(o))]);
    assert c.ops[0 := c.ops[0].(progress := Ready(o))] == b.ops && [c][0 := b] == [b];
    assert Next(site, Only(c), OpReady(0, 0, o)) == Only(b);
    ReachesThen(site, Only(c), Only(b));
  }

  lemma ReceivesOne(site: Site, c: Conn, data: bytes) returns (d: Conn)
    requires Reaches(site, BOOTED, Only(c)) && c.open && c.ops == [Read(InFlight)] && |data| <= READ_BUFFER
    ensures Reaches(site, BOOTED, Only(d)) && d.open && d.received == c.received + data
    ensures RepliesTo(site, d.received, d.sent) && GoesOn(d)
  {
    var b := c.(ops := [Read(Ready(Done(data)))]);
    Completes(site, c, Done(data));
    var es :| Runs(site, BOOTED, es, Only(b));
    ReadHandled(site, es, Only(b), 0, 0, data);
    var t := Next(site, Only(b), RunOp(0, 0));
    ReachesThen(site, Only(b), t);
    d := t.conns[0];
    assert t == Only(d);
  }

  /** Pieces of at most a buffer each; before the last the bytes can still become a request. */
  ghost predicate Pieces(chunks: seq<bytes>) {
    forall k | 0 <= k < |chunks| :: |chunks[k]| <= READ_BUFFER && Viable(Flatten(chunks[..k]))
  }

  lemma StartsReading(site: Site, start: Config)
    requires Fresh(start)
    ensures var c := Started(start);
            && Reaches(site, BOOTED, Only(c)) && c.open && c.received == [] && GoesOn(c)
            && RepliesTo(site, [], c.sent)
  {
    var s := OneReader(start, InFlight);
    assert Runs(site, s, [], s);
    BootToReader(site, start, s);
    StartedOk(site, start);
    OwedReplies(site, Started(start));
  }

  lemma {:induction false} Receives(site: Site, start: Config, chunks: seq<bytes>) returns (c: Conn)
    requires Fresh(start) && Pieces(chunks)
    ensures Reaches(site, BOOTED, Only(c)) && c.open && c.received == Flatten(chunks)
    ensures RepliesTo(site, Flatten(chunks), c.sent) && GoesOn(c)
    decreases |chunks|
  {
    if chunks == [] {
      StartsReading(site, start);
      c := Started(start);
    } else {
      var n := |chunks| - 1;
      assert forall k | 0 <= k < n :: chunks[..n][..k] == chunks[..k];
      c := Receives(site, start, chunks[..n]);
      c := ReceivesOne(site, c, chunks[n]);
    }
  }

  /** A written reply ends the connection. */
  lemma Written(site: Site, c: Conn, buffers: bytes)
    requires Reaches(site, BOOTED, Only(c)) && c.ops == [Write(buffers, InFlight)]
    ensures Reaches(site, BOOTED, Only(c.(open := false, ops := [])).(members := {}))
  {
    var b := c.(ops := [Write(buffers, Ready(Done([])))]);
    Completes(site, c, Done([]));
    var es :| Runs(site, BOOTED, es, Only(b));
    ConnectionEnds(site, es, Only(b), 0, 0);
    var d := c.(open := false, ops := []);
    assert [b][0 := d] == [d] && {0} - {0} == {};
    assert Next(site, Only(b), RunOp(0, 0)) == Only(d).(members := {});
    ReachesThen(site, Only(b), Only(d).(members := {}));
  }

  /**
   * Whatever bytes begin with a request, and however they are cut up to there, some run delivers
   * them, writes the handler's reply and then closes the connection.
   */
  lemma CanBeServed(site: Site, start: Config, chunks: seq<bytes>, t: Syntax, n: nat, r: RequestValue)
    returns (c: Conn)
    requires Fresh(start) && Pieces(chunks) && n <= |Flatten(chunks)| && Derives(t, Flatten(chunks)[..n], r)
    ensures Reaches(site, BOOTED, Only(c)) && c.received == Flatten(chunks)
    ensures c.ops == [Write(Serialised(Handle(site, r, BLANK)), InFlight)]
    ensures Reaches(site, BOOTED, Only(c.(open := false, ops := [])).(members := {}))
  {
    c := Receives(site, start, chunks);
    assert c.sent == [Handle(site, r, BLANK)];
    Written(site, c, Serialised(Handle(site, r, BLANK)));
  }

  /**
   * From bytes to bytes: however a request writes an admitted path, and however the request itself
   * is written and cut, what the client can be sent has, after the header block, the file.
   */
  lemma CanFetch(site: Site, start: Config, chunks: seq<bytes>, t: Syntax, n: nat,
                 path: bytes, styles: seq<Style>)
    returns (c: Conn, buffers: bytes)
    requires Fresh(start) && Pieces(chunks) && n <= |Flatten(chunks)|
    requires IsSyntax(t) && Text(t) == Flatten(chunks)[..n]
    requires Admitted(path) && Chosen(site.odd, path, styles) && t.uri == Encode(path, styles)
    requires AskedFor(site, path).Some?
    ensures Reaches(site, BOOTED, Only(c)) && c.ops == [Write(buffers, InFlight)]
    ensures |buffers| > |StatusLine(Status.Ok)| && SaysCode(buffers, 200)
    ensures var block := buffers[|StatusLine(Status.Ok)|..];
            var p := Run(At(LineStart, EMPTY), block);
            p.verdict == Good && block[p.used..] == AskedFor(site, path).value
  {
    var r := Meaning(t);
    c := CanBeServed(site, start, chunks, t, n, r);
    buffers := Serialised(Handle(site, r, BLANK));
    FileServed(site, r, BLANK, path, styles);
    FileOnTheWire(site, r, path, styles, EMPTY);
    StatusOnTheWire(Handle(site, r, BLANK));
  }
}
