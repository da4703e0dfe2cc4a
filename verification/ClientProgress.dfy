/** Clients of the storage get their answers: without new calls every run ends, and ends well. */
module ClientProgress {
  import opened StorageClients
  import opened Linearizability

  predicate CallFree(es: seq<Event>) { forall e | e in es :: !e.Call? }

  /** How many events a client is from being idle, its work on the tables counted as none. */
  function Stage(c: Client): nat {
    match c
    case Idle => 0
    case Answered(_) => 1
    case Holding(_, _) => 2
    case Waiting(_) => 3
  }

  function Stages(clients: seq<Client>): nat {
    if clients == [] then 0
    else Stages(clients[..|clients| - 1]) + Stage(clients[|clients| - 1])
  }

  lemma {:induction false} StagesUpdate(clients: seq<Client>, i: nat, c: Client)
    requires i < |clients|
    ensures Stages(clients[i := c]) == Stages(clients) - Stage(clients[i]) + Stage(c)
    decreases |clients|
  {
    var n := |clients| - 1;
    if i < n {
      StagesUpdate(clients[..n], i, c);
      assert clients[i := c][..n] == clients[..n][i := c];
    } else {
      assert clients[i := c][..n] == clients[..n];
    }
  }

  /** The event, other than a call, that a client is to make next. */
  function Due(s: System, i: nat): Event
    requires i < |s.clients|
  {
    match s.clients[i]
    case Waiting(_) => Lock(i)
    case Holding(_, work) => if work.Finished? then Unlock(i) else Step(i)
    case _ => Return(i)
  }

  lemma OnlyDue(s: System, e: Event)
    requires Enabled(s, e) && !e.Call?
    ensures e == Due(s, e.client)
  {
  }

  /** What is left to do inside, as the four parts of the measure of a single operation. */
  function InsidePhase(s: System): nat {
    if Works(s) then Phase(s.clients[s.mutex.client].work) else 0
  }

  function InsideRemaining(s: System): int {
    if Works(s) then Remaining(s.clients[s.mutex.client].op, s.clients[s.mutex.client].work, s.tables) else 0
  }

  function InsideSearch(s: System): int {
    if Works(s) then Search(s.clients[s.mutex.client].work) else 0
  }

  function InsideUnread(s: System): int {
    if Works(s) then Unread(s.clients[s.mutex.client].work, s.tables) else 0
  }

  predicate Works(s: System) {
    && s.mutex.Held? && s.mutex.client < |s.clients| && |s.tables| == 2
    && var c := s.clients[s.mutex.client]; c.Holding? && Fits(c.op, c.work)
  }

  lemma InsideNatural(s: System)
    requires Inv(s)
    ensures InsideRemaining(s) >= 0 && InsideUnread(s) >= 0
  {
    assert s.mutex.Held? ==> ClientOk(s, s.mutex.client);
  }

  lemma StepNearer(s: System, e: Event)
    requires Inv(s) && Enabled(s, e) && e.Step?
    ensures var t := Next(s, e);
            && Stages(t.clients) == Stages(s.clients)
            && (InsidePhase(s), InsideRemaining(s), InsideSearch(s), InsideUnread(s) decreases to
                InsidePhase(t), InsideRemaining(t), InsideSearch(t), InsideUnread(t))
  {
    var c := s.clients[e.client];
    assert ClientOk(s, e.client);
    WorkKeeps(c.op, c.work, s.tables, ReplayA(s.log), ReplayB(s.log));
    WorkProgress(c.op, c.work, s.tables, ReplayA(s.log), ReplayB(s.log));
    StagesUpdate(s.clients, e.client, Next(s, e).clients[e.client]);
  }

  lemma OthersNearer(s: System, e: Event)
    requires Enabled(s, e) && (e.Lock? || e.Unlock? || e.Return?)
    ensures Stages(Next(s, e).clients) < Stages(s.clients)
  {
    StagesUpdate(s.clients, e.client, Next(s, e).clients[e.client]);
  }

  /** No run from `s` without a call has more than `n` events. */
  ghost predicate Within(s: System, n: nat) {
    forall es, t | Runs(s, es, t) && CallFree(es) :: |es| <= n
  }

  lemma OneMore(s: System, n: nat)
    requires forall i | 0 <= i < |s.clients| && Enabled(s, Due(s, i)) :: Within(Next(s, Due(s, i)), n)
    ensures Within(s, n + 1)
  {
    forall es, t | Runs(s, es, t) && CallFree(es) ensures |es| <= n + 1 {
      if es != [] {
        OnlyDue(s, es[0]);
        assert Runs(Next(s, es[0]), es[1..], t) && CallFree(es[1..]);
      }
    }
  }

  lemma WithinMore(s: System, m: nat, n: nat)
    requires Within(s, m) && m <= n
    ensures Within(s, n)
  {
  }

  lemma {:induction false} Bounded(s: System) returns (n: nat)
    requires Inv(s)
    ensures Within(s, n)
    decreases Stages(s.clients), InsidePhase(s), InsideRemaining(s), InsideSearch(s), InsideUnread(s)
  {
    InsideNatural(s);
    var m: nat := 0;
    for i := 0 to |s.clients|
      invariant forall j | 0 <= j < i && Enabled(s, Due(s, j)) :: Within(Next(s, Due(s, j)), m)
    {
      var e := Due(s, i);
      if Enabled(s, e) {
        if e.Step? {
          StepNearer(s, e);
        } else {
          OthersNearer(s, e);
        }
        EventKeeps(s, e);
        var k := Bounded(Next(s, e));
        forall j | 0 <= j <= i && Enabled(s, Due(s, j))
          ensures Within(Next(s, Due(s, j)), if k > m then k else m)
        {
          WithinMore(Next(s, Due(s, j)), if j == i then k else m, if k > m then k else m);
        }
        m := if k > m then k else m;
      }
    }
    OneMore(s, m);
    n := m + 1;
  }

  /** From a reachable state, runs in which no client calls are bounded. */
  lemma CallsEnd(n: nat, es: seq<Event>, s: System)
    requires Runs(Initial(n), es, s)
    ensures exists k :: Within(s, k)
  {
    Reachable(n, es, s);
    var k := Bounded(s);
  }

  /** When nothing but a call is possible, every client has had its answer. */
  lemma AllAnswered(n: nat, es: seq<Event>, s: System)
    requires Runs(Initial(n), es, s)
    ensures (forall e | Enabled(s, e) :: e.Call?) <==> forall i | 0 <= i < |s.clients| :: s.clients[i].Idle?
  {
    Reachable(n, es, s);
    if i :| 0 <= i < |s.clients| && !s.clients[i].Idle? {
      if s.mutex.Held? {
        HolderCanStep(n, es, s);
      } else {
        assert ClientOk(s, i);
        assert Enabled(s, Due(s, i));
      }
    }
  }

  lemma {:induction false} CanFinish(s: System) returns (es: seq<Event>, t: System)
    requires Inv(s)
    ensures Runs(s, es, t) && CallFree(es) && forall i | 0 <= i < |t.clients| :: t.clients[i].Idle?
    decreases Stages(s.clients), InsidePhase(s), InsideRemaining(s), InsideSearch(s), InsideUnread(s)
  {
    es, t := [], s;
    if i :| 0 <= i < |s.clients| && !s.clients[i].Idle? {
      var j := SomeoneCanGoOn(s, i);
      var e := Due(s, j);
      InsideNatural(s);
      if e.Step? {
        StepNearer(s, e);
      } else {
        OthersNearer(s, e);
      }
      EventKeeps(s, e);
      es, t := CanFinish(Next(s, e));
      es := [e] + es;
    }
  }

  lemma SomeoneCanGoOn(s: System, i: nat) returns (j: nat)
    requires Inv(s) && i < |s.clients| && !s.clients[i].Idle?
    ensures j < |s.clients| && Enabled(s, Due(s, j))
  {
    j := if s.mutex.Held? then s.mutex.client else i;
    assert ClientOk(s, i) && ClientOk(s, j);
  }

  /** An idle client may call anything at any time, and its answer, with all others, can be given. */
  lemma EveryCallCanBeAnswered(n: nat, es: seq<Event>, s: System, i: nat, op: Op)
    requires Runs(Initial(n), es, s) && i < |s.clients| && s.clients[i].Idle?
    ensures Enabled(s, Call(i, op))
    ensures exists fs, t :: Runs(Next(s, Call(i, op)), fs, t) && CallFree(fs)
                            && forall j | 0 <= j < |t.clients| :: t.clients[j].Idle?
  {
    Reachable(n, es, s);
    EventKeeps(s, Call(i, op));
    var fs, t := CanFinish(Next(s, Call(i, op)));
  }
}
