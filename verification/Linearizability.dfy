/** Every interleaving of storage clients is a sequential history of operations on two maps. */
module Linearizability {
  import opened JoinSpec
  import opened OrderedSets
  import opened JoinStorage
  import opened StorageClients

  datatype Mutex = Free | Held(client: nat)

  /** An operation is called, takes the mutex, works, releases the mutex and delivers its answer. */
  datatype Client = Idle | Waiting(op: Op) | Holding(op: Op, work: Work) | Answered(answer: Answer)

  datatype Entry = Entry(client: nat, op: Op, answer: Answer)

  /** The log holds the finished operations in the order in which they held the mutex. */
  datatype System = System(tables: seq<Table>, mutex: Mutex, clients: seq<Client>, log: seq<Entry>)

  datatype Event =
    | Call(client: nat, op: Op)
    | Lock(client: nat)
    | Step(client: nat)
    | Unlock(client: nat)
    | Return(client: nat)

  predicate Enabled(s: System, e: Event) {
    && e.client < |s.clients|
    && var c := s.clients[e.client];
       match e
       case Call(_, _) => c.Idle?
       case Lock(_) => c.Waiting? && s.mutex == Free
       case Step(_) => c.Holding? && !c.work.Finished? && Fits(c.op, c.work) && |s.tables| == 2
       case Unlock(_) => c.Holding? && c.work.Finished?
       case Return(_) => c.Answered?
  }

  function Next(s: System, e: Event): System
    requires Enabled(s, e)
  {
    var i := e.client;
    var c := s.clients[i];
    match e
    case Call(_, op) => s.(clients := s.clients[i := Waiting(op)])
    case Lock(_) => s.(mutex := Held(i), clients := s.clients[i := Holding(c.op, Begin)])
    case Step(_) =>
      var w := WorkStep(c.op, c.work, s.tables);
      s.(tables := w.tables, clients := s.clients[i := c.(work := w.work)])
    case Unlock(_) =>
      s.(mutex := Free, clients := s.clients[i := Answered(c.work.answer)],
         log := s.log + [Entry(i, c.op, c.work.answer)])
    case Return(_) => s.(clients := s.clients[i := Idle])
  }

  predicate Runs(s: System, es: seq<Event>, t: System)
    decreases es
  {
    if es == [] then s == t
    else Enabled(s, es[0]) && Runs(Next(s, es[0]), es[1..], t)
  }

  function Initial(n: nat): System {
    System([[], []], Free, seq(n, _ => Idle), [])
  }

  // The sequential history.

  ghost function ReplayA(log: seq<Entry>): Names {
    if log == [] then map[] else NextA(log[|log| - 1].op, ReplayA(log[..|log| - 1]))
  }

  ghost function ReplayB(log: seq<Entry>): Names {
    if log == [] then map[] else NextB(log[|log| - 1].op, ReplayB(log[..|log| - 1]))
  }

  /** Every answer is the one a sequential run in log order gives. */
  ghost predicate Sequential(log: seq<Entry>) {
    forall k | 0 <= k < |log| ::
      log[k].answer == Respond(log[k].op, ReplayA(log[..k]), ReplayB(log[..k]))
  }

  ghost predicate ClientOk(s: System, i: nat)
    requires i < |s.clients|
  {
    match s.clients[i]
    case Holding(op, work) =>
      s.mutex == Held(i) && OnCourse(op, work, s.tables, ReplayA(s.log), ReplayB(s.log))
    case _ => true
  }

  ghost predicate Inv(s: System) {
    && TwoTables(s.tables) && Sequential(s.log)
    && (forall i | 0 <= i < |s.clients| :: ClientOk(s, i))
    && match s.mutex
       case Free =>
         AsMap(s.tables[0]) == ReplayA(s.log) && AsMap(s.tables[1]) == ReplayB(s.log)
       case Held(i) => i < |s.clients| && s.clients[i].Holding?
  }

  lemma LockKeeps(s: System, e: Event)
    requires Inv(s) && Enabled(s, e) && e.Lock?
    ensures Inv(Next(s, e))
  {
    var t := Next(s, e);
    forall j | 0 <= j < |t.clients| ensures ClientOk(t, j) {
      assert ClientOk(s, j);
    }
  }

  lemma StepKeeps(s: System, e: Event)
    requires Inv(s) && Enabled(s, e) && e.Step?
    ensures Inv(Next(s, e))
  {
    var t, i := Next(s, e), e.client;
    var c := s.clients[i];
    assert ClientOk(s, i);
    WorkKeeps(c.op, c.work, s.tables, ReplayA(s.log), ReplayB(s.log));
    forall j | 0 <= j < |t.clients| ensures ClientOk(t, j) {
      assert ClientOk(s, j);
    }
  }

  lemma UnlockKeeps(s: System, e: Event)
    requires Inv(s) && Enabled(s, e) && e.Unlock?
    ensures Inv(Next(s, e))
  {
    var t, i := Next(s, e), e.client;
    assert ClientOk(s, i);
    assert t.log[..|s.log|] == s.log;
    forall k | 0 <= k < |s.log| ensures t.log[..k] == s.log[..k] {
    }
    assert ReplayA(t.log) == AsMap(t.tables[0]) && ReplayB(t.log) == AsMap(t.tables[1]);
    forall j | 0 <= j < |t.clients| ensures ClientOk(t, j) {
      assert ClientOk(s, j);
    }
  }

  lemma OthersKeep(s: System, e: Event)
    requires Inv(s) && Enabled(s, e) && (e.Call? || e.Return?)
    ensures Inv(Next(s, e))
  {
    var t := Next(s, e);
    forall j | 0 <= j < |t.clients| ensures ClientOk(t, j) {
      assert ClientOk(s, j);
    }
    assert s.mutex.Held? ==> ClientOk(s, s.mutex.client);
  }

  lemma EventKeeps(s: System, e: Event)
    requires Inv(s) && Enabled(s, e)
    ensures Inv(Next(s, e))
  {
    match e
    case Lock(_) => LockKeeps(s, e);
    case Step(_) => StepKeeps(s, e);
    case Unlock(_) => UnlockKeeps(s, e);
    case _ => OthersKeep(s, e);
  }

  lemma {:induction false} RunKeeps(s: System, es: seq<Event>, t: System)
    requires Inv(s) && Runs(s, es, t)
    ensures Inv(t) && s.log <= t.log && |t.clients| == |s.clients|
    decreases es
  {
    if es != [] {
      EventKeeps(s, es[0]);
      RunKeeps(Next(s, es[0]), es[1..], t);
    }
  }

  // What the clients see of a run: their calls and the answers they are given.

  datatype Observation = Called(client: nat, op: Op) | Returned(client: nat, answer: Answer)

  function Observe(s: System, e: Event): seq<Observation>
    requires Enabled(s, e)
  {
    match e
    case Call(i, op) => [Called(i, op)]
    case Return(i) => [Returned(i, s.clients[i].answer)]
    case _ => []
  }

  function History(s: System, es: seq<Event>): seq<Observation>
    decreases es
  {
    if es == [] || !Enabled(s, es[0]) then []
    else Observe(s, es[0]) + History(Next(s, es[0]), es[1..])
  }

  /** The operations that client `i` has called, in order. */
  function Calls(h: seq<Observation>, i: nat): seq<Op> {
    if h == [] then []
    else
      var o := h[|h| - 1];
      Calls(h[..|h| - 1], i) + if o.Called? && o.client == i then [o.op] else []
  }

  /** The answers that client `i` has been given, in order. */
  function Answers(h: seq<Observation>, i: nat): seq<Answer> {
    if h == [] then []
    else
      var o := h[|h| - 1];
      Answers(h[..|h| - 1], i) + if o.Returned? && o.client == i then [o.answer] else []
  }

  /** The entries of client `i` in the log. */
  function Mine(log: seq<Entry>, i: nat): seq<Entry> {
    if log == [] then []
    else
      var e := log[|log| - 1];
      Mine(log[..|log| - 1], i) + if e.client == i then [e] else []
  }

  function Ops(q: seq<Entry>): seq<Op> { seq(|q|, k requires 0 <= k < |q| => q[k].op) }

  function Results(q: seq<Entry>): seq<Answer> { seq(|q|, k requires 0 <= k < |q| => q[k].answer) }

  function Unlogged(c: Client): seq<Op> { if c.Waiting? || c.Holding? then [c.op] else [] }

  function Undelivered(c: Client): seq<Answer> { if c.Answered? then [c.answer] else [] }

  /**
   * What client `i` called is what the log has of it, and then the operation it is still at; what it
   * was answered is what the log answered it, but for the answer it has yet to be given.
   */
  predicate ClientTied(h: seq<Observation>, s: System, i: nat)
    requires i < |s.clients|
  {
    && Calls(h, i) == Ops(Mine(s.log, i)) + Unlogged(s.clients[i])
    && Answers(h, i) + Undelivered(s.clients[i]) == Results(Mine(s.log, i))
  }

  predicate Tied(h: seq<Observation>, s: System) {
    && (forall i | 0 <= i < |s.clients| :: ClientTied(h, s, i))
    && (forall k | 0 <= k < |s.log| :: s.log[k].client < |s.clients|)
  }

  lemma MineMore(log: seq<Entry>, e: Entry, i: nat)
    ensures Mine(log + [e], i) == Mine(log, i) + if e.client == i then [e] else []
    ensures Ops(Mine(log + [e], i)) == Ops(Mine(log, i)) + if e.client == i then [e.op] else []
    ensures Results(Mine(log + [e], i)) == Results(Mine(log, i)) + if e.client == i then [e.answer] else []
  {
    assert (log + [e])[..|log|] == log;
  }

  lemma SeenMore(h: seq<Observation>, o: Observation, i: nat)
    ensures Calls(h + [o], i) == Calls(h, i) + if o.Called? && o.client == i then [o.op] else []
    ensures Answers(h + [o], i) == Answers(h, i) + if o.Returned? && o.client == i then [o.answer] else []
  {
    assert (h + [o])[..|h|] == h;
  }

  /** The operation that the client was at is now in the log, and its answer is to be delivered. */
  lemma LogsOwn(calls: seq<Op>, answers: seq<Answer>, log: seq<Entry>, e: Entry)
    requires calls == Ops(Mine(log, e.client)) + [e.op] && answers + [] == Results(Mine(log, e.client))
    ensures calls == Ops(Mine(log + [e], e.client)) + []
    ensures answers + [e.answer] == Results(Mine(log + [e], e.client))
  {
    MineMore(log, e, e.client);
  }

  lemma LogsOther(log: seq<Entry>, e: Entry, i: nat)
    requires e.client != i
    ensures Mine(log + [e], i) == Mine(log, i)
  {
    MineMore(log, e, i);
  }

  lemma UnlockTies(h: seq<Observation>, s: System, e: Event, i: nat)
    requires Enabled(s, e) && e.Unlock? && i < |s.clients| && ClientTied(h, s, i)
    ensures ClientTied(h, Next(s, e), i)
  {
    var c := s.clients[e.client];
    var entry := Entry(e.client, c.op, c.work.answer);
    if i == e.client {
      LogsOwn(Calls(h, i), Answers(h, i), s.log, entry);
    } else {
      LogsOther(s.log, entry, i);
    }
  }

  lemma SeenTies(h: seq<Observation>, s: System, e: Event, i: nat)
    requires Enabled(s, e) && (e.Call? || e.Return?) && i < |s.clients| && ClientTied(h, s, i)
    ensures ClientTied(h + Observe(s, e), Next(s, e), i)
  {
    SeenMore(h, Observe(s, e)[0], i);
  }

  lemma HiddenTies(h: seq<Observation>, s: System, e: Event, i: nat)
    requires Enabled(s, e) && (e.Lock? || e.Step?) && i < |s.clients| && ClientTied(h, s, i)
    ensures ClientTied(h, Next(s, e), i)
  {
  }

  lemma StepTies(h: seq<Observation>, s: System, e: Event)
    requires Tied(h, s) && Enabled(s, e)
    ensures Tied(h + Observe(s, e), Next(s, e))
  {
    var t := Next(s, e);
    assert Observe(s, e) == [] ==> h + Observe(s, e) == h;
    forall i | 0 <= i < |t.clients| ensures ClientTied(h + Observe(s, e), t, i) {
      match e {
        case Unlock(_) => UnlockTies(h, s, e, i);
        case Call(_, _) | Return(_) => SeenTies(h, s, e, i);
        case _ => HiddenTies(h, s, e, i);
      }
    }
  }

  lemma {:induction false} RunTies(h: seq<Observation>, s: System, es: seq<Event>, t: System)
    requires Tied(h, s) && Runs(s, es, t)
    ensures Tied(h + History(s, es), t)
    decreases es
  {
    if es == [] {
      assert h + [] == h;
    } else {
      StepTies(h, s, es[0]);
      RunTies(h + Observe(s, es[0]), Next(s, es[0]), es[1..], t);
      assert h + Observe(s, es[0]) + History(Next(s, es[0]), es[1..]) == h + History(s, es);
    }
  }

  /** What `n` clients have seen of the run `es` of a new storage. */
  function Seen(n: nat, es: seq<Event>): seq<Observation> { History(Initial(n), es) }

  lemma Reachable(n: nat, es: seq<Event>, s: System)
    requires Runs(Initial(n), es, s)
    ensures Inv(s) && Tied(Seen(n, es), s) && |s.clients| == n
  {
    assert Inv(Initial(n));
    RunKeeps(Initial(n), es, s);
    RunTies([], Initial(n), es, s);
    assert [] + Seen(n, es) == Seen(n, es);
  }

  /** `log[p]` is the `k`-th operation of client `i`. */
  predicate IsOperation(log: seq<Entry>, p: nat, i: nat, k: nat) {
    p < |log| && log[p].client == i && |Mine(log[..p], i)| == k
  }

  lemma {:induction false} Locate(log: seq<Entry>, i: nat, k: nat) returns (p: nat)
    requires k < |Mine(log, i)|
    ensures IsOperation(log, p, i, k) && log[p] == Mine(log, i)[k]
    decreases |log|
  {
    var n := |log| - 1;
    if k < |Mine(log[..n], i)| {
      p := Locate(log[..n], i, k);
      assert log[..n][..p] == log[..p];
    } else {
      p := n;
    }
  }

  lemma {:induction false} MineGrows(log: seq<Entry>, p: nat, q: nat, i: nat)
    requires p <= q <= |log|
    ensures |Mine(log[..p], i)| <= |Mine(log[..q], i)|
    decreases q
  {
    if p < q {
      assert log[..q][..q - 1] == log[..q - 1];
      MineGrows(log, p, q - 1, i);
    }
  }

  /** The `k`-th answer to client `i` is that of its `k`-th call, run at place `p` of the log. */
  ghost predicate AnsweredAt(log: seq<Entry>, h: seq<Observation>, p: nat, i: nat, k: nat) {
    && IsOperation(log, p, i, k) && k < |Calls(h, i)| && k < |Answers(h, i)|
    && log[p].op == Calls(h, i)[k]
    && Answers(h, i)[k] == Respond(Calls(h, i)[k], ReplayA(log[..p]), ReplayB(log[..p]))
  }

  // The log is in the order in which the mutex was taken.

  function Owners(log: seq<Entry>): seq<nat> { seq(|log|, k requires 0 <= k < |log| => log[k].client) }

  function Inside(s: System): seq<nat> { if s.mutex.Held? then [s.mutex.client] else [] }

  /** The clients that take the mutex in a run, in order. */
  function Lockers(es: seq<Event>): seq<nat> {
    if es == [] then [] else (if es[0].Lock? then [es[0].client] else []) + Lockers(es[1..])
  }

  /** Whose operations have finished, and then whose is inside. */
  function Entered(s: System): seq<nat> { Owners(s.log) + Inside(s) }

  lemma EventOrders(s: System, e: Event)
    requires Inv(s) && Enabled(s, e)
    ensures Entered(Next(s, e)) == Entered(s) + if e.Lock? then [e.client] else []
  {
    assert ClientOk(s, e.client);
  }

  lemma Rejoin(p: seq<nat>, q: seq<nat>, r: seq<nat>)
    ensures p + q + r == p + (q + r)
  {
  }

  lemma {:induction false} LockOrder(s: System, es: seq<Event>, t: System)
    requires Inv(s) && Runs(s, es, t)
    ensures Entered(t) == Entered(s) + Lockers(es)
    decreases es
  {
    if es != [] {
      EventKeeps(s, es[0]);
      EventOrders(s, es[0]);
      LockOrder(Next(s, es[0]), es[1..], t);
      Rejoin(Entered(s), if es[0].Lock? then [es[0].client] else [], Lockers(es[1..]));
    }
  }

  ghost predicate HasPlace(log: seq<Entry>, h: seq<Observation>, i: nat, k: nat) {
    exists p :: AnsweredAt(log, h, p, i, k)
  }

  lemma Progressed(h: seq<Observation>, s: System, i: nat)
    requires i < |s.clients| && ClientTied(h, s, i)
    ensures |Answers(h, i)| <= |Mine(s.log, i)| <= |Calls(h, i)|
  {
    assert |Results(Mine(s.log, i))| == |Ops(Mine(s.log, i))| == |Mine(s.log, i)|;
  }

  lemma AnswerHasPlace(h: seq<Observation>, s: System, i: nat, k: nat)
    requires Sequential(s.log) && i < |s.clients| && ClientTied(h, s, i) && k < |Answers(h, i)|
    ensures HasPlace(s.log, h, i, k)
  {
    var mine := Mine(s.log, i);
    Progressed(h, s, i);
    var p := Locate(s.log, i, k);
    assert Results(mine)[k] == Answers(h, i)[k] && Ops(mine)[k] == Calls(h, i)[k];
    assert AnsweredAt(s.log, h, p, i, k);
  }

  /**
   * For any number of clients and any interleaving: every answer a client is given is the one its
   * call gets from two maps when the logged operations run one at a time, in log order. The log is
   * in the order in which the clients took the mutex, with the one inside to come. Of each client it
   * has the calls in order, all but the one the client is still at; and while the mutex is free the
   * tables are what the log leaves.
   */
  lemma Linearizable(n: nat, es: seq<Event>, s: System)
    requires Runs(Initial(n), es, s)
    ensures |s.clients| == n && forall p | 0 <= p < |s.log| :: s.log[p].client < n
    ensures forall i: nat, k: nat | i < n && k < |Answers(Seen(n, es), i)| ::
              HasPlace(s.log, Seen(n, es), i, k)
    ensures Lockers(es) == Owners(s.log) + Inside(s)
    ensures forall i | 0 <= i < n ::
              Calls(Seen(n, es), i) == Ops(Mine(s.log, i)) + Unlogged(s.clients[i])
    ensures s.mutex == Free ==>
              |s.tables| == 2 && AsMap(s.tables[0]) == ReplayA(s.log) && AsMap(s.tables[1]) == ReplayB(s.log)
  {
    var h := Seen(n, es);
    Reachable(n, es, s);
    LockOrder(Initial(n), es, s);
    forall i | 0 <= i < n ensures Calls(h, i) == Ops(Mine(s.log, i)) + Unlogged(s.clients[i]) {
      assert ClientTied(h, s, i);
    }
    forall i: nat, k: nat | i < n && k < |Answers(h, i)| ensures HasPlace(s.log, h, i, k) {
      AnswerHasPlace(h, s, i, k);
    }
  }

  /** Entries counted before the cut at `m` precede those counted after it. */
  lemma AcrossCut(log: seq<Entry>, m: nat, p: nat, q: nat)
    requires m <= |log| && p < |log| && q < |log|
    requires |Mine(log[..p], log[p].client)| < |Mine(log[..m], log[p].client)|
    requires |Mine(log[..q], log[q].client)| >= |Mine(log[..m], log[q].client)|
    ensures p < m <= q
  {
    if m <= p {
      MineGrows(log, m, p, log[p].client);
    }
    if q < m {
      assert log[..q + 1][..q] == log[..q];
      MineGrows(log, q + 1, m, log[q].client);
    }
  }

  lemma {:induction false} RunsAppend(s: System, es: seq<Event>, t: System, fs: seq<Event>, u: System)
    requires Runs(s, es, t) && Runs(t, fs, u)
    ensures Runs(s, es + fs, u)
    decreases es
  {
    if es == [] {
      assert es + fs == fs;
    } else {
      RunsAppend(Next(s, es[0]), es[1..], t, fs, u);
      assert (es + fs)[1..] == es[1..] + fs;
    }
  }

  /** The history `h` has the answer of the operation at place `p`. */
  predicate Delivered(h: seq<Observation>, log: seq<Entry>, p: nat)
    requires p < |log|
  {
    |Mine(log[..p], log[p].client)| < |Answers(h, log[p].client)|
  }

  /** The history `h` does not have the call of the operation at place `q`. */
  predicate NotCalled(h: seq<Observation>, log: seq<Entry>, q: nat)
    requires q < |log|
  {
    |Mine(log[..q], log[q].client)| >= |Calls(h, log[q].client)|
  }

  /**
   * The log respects real time: an operation whose answer has been delivered by `mid` comes before
   * every operation that is called after `mid`.
   */
  lemma RealTime(n: nat, es: seq<Event>, mid: System, fs: seq<Event>, s: System, p: nat, q: nat)
    requires Runs(Initial(n), es, mid) && Runs(mid, fs, s)
    requires p < |s.log| && Delivered(Seen(n, es), s.log, p)
    requires q < |s.log| && NotCalled(Seen(n, es), s.log, q)
    ensures p < |mid.log| <= q
  {
    var m, i, j := |mid.log|, s.log[p].client, s.log[q].client;
    Reachable(n, es, mid);
    RunKeeps(mid, fs, s);
    Reachable(n, es + fs, s) by { RunsAppend(Initial(n), es, mid, fs, s); }
    assert mid.log == s.log[..m];
    Progressed(Seen(n, es), mid, i);
    Progressed(Seen(n, es), mid, j);
    AcrossCut(s.log, m, p, q);
  }

  /** At most one client is between taking the mutex and releasing it. */
  lemma MutualExclusion(n: nat, es: seq<Event>, s: System, i: nat, j: nat)
    requires Runs(Initial(n), es, s) && i < |s.clients| && j < |s.clients|
    requires s.clients[i].Holding? && s.clients[j].Holding?
    ensures i == j
  {
    Reachable(n, es, s);
    assert ClientOk(s, i) && ClientOk(s, j);
  }

  /** The holder of the mutex can always go on, so the mutex is never held for ever. */
  lemma HolderCanStep(n: nat, es: seq<Event>, s: System)
    requires Runs(Initial(n), es, s) && s.mutex.Held?
    ensures Enabled(s, Step(s.mutex.client)) || Enabled(s, Unlock(s.mutex.client))
  {
    Reachable(n, es, s);
    assert ClientOk(s, s.mutex.client);
  }

  // Waiting for the mutex.

  /** A called operation waits exactly while some client is inside, be it a long join. */
  lemma BlockedIffHeld(n: nat, es: seq<Event>, s: System, i: nat)
    requires Runs(Initial(n), es, s) && i < |s.clients| && s.clients[i].Waiting?
    ensures !Enabled(s, Lock(i)) <==> exists j :: 0 <= j < |s.clients| && s.clients[j].Holding?
  {
    Reachable(n, es, s);
    forall j | 0 <= j < |s.clients| && s.clients[j].Holding? ensures s.mutex == Held(j) {
      assert ClientOk(s, j);
    }
  }

  /** No client gets in, however many steps are made, until the holder releases the mutex. */
  lemma {:induction false} BlockedUntilUnlock(s: System, es: seq<Event>, t: System, j: nat)
    requires s.mutex == Held(j) && Runs(s, es, t)
    requires forall i | 0 <= i < |s.clients| && s.clients[i].Holding? :: i == j
    requires Unlock(j) !in es
    ensures t.mutex == Held(j) && forall e | e in es :: !e.Lock?
    decreases es
  {
    if es != [] {
      assert es[0] in es;
      var u := Next(s, es[0]);
      assert forall i | 0 <= i < |u.clients| && u.clients[i].Holding? :: s.clients[i].Holding?;
      BlockedUntilUnlock(u, es[1..], t, j);
      assert es == [es[0]] + es[1..];
    }
  }

  /** An insertion that waits for an intersection which has only begun. */
  lemma JoinBlocksInsert(op: Op) returns (s: System)
    ensures Runs(Initial(2), [Call(0, Join(true)), Lock(0), Call(1, op)], s)
    ensures s.clients == [Holding(Join(true), Begin), Waiting(op)] && !Enabled(s, Lock(1))
  {
    var a := Next(Initial(2), Call(0, Join(true)));
    var b := Next(a, Lock(0));
    s := Next(b, Call(1, op));
    assert Runs(s, [], s);
    assert [Call(1, op)][1..] == [];
    assert Runs(b, [Call(1, op)], s);
    assert [Lock(0), Call(1, op)][1..] == [Call(1, op)];
    assert Runs(a, [Lock(0), Call(1, op)], s);
    assert [Call(0, Join(true)), Lock(0), Call(1, op)][1..] == [Lock(0), Call(1, op)];
  }
}
