/**
 Progress: without new input the server comes to rest, and when it does nothing is left
 to send. The measure is the work that the pending events and the unsent bodies hold.
 */
module PipelineProgress {
  import opened Messages
  import opened Pipeline
  import opened PipelineInvariant
  import opened PipelineRuns
  import opened PipelineTheorems

  // ----- the measure

  /** Nothing that happens to a settled client can change its response any more, except to cut it short. */
  predicate Settled(k: Conn, i: nat) {
    !k.live || i in k.responses
  }

  function EventWork(k: Conn, e: Event): nat {
    match e
    case Start(_) => 1
    case Body(_) => 4
    case Complete(_) => 3
    case Close(_) => 1
    case Check(_) => 1
    case ErrorFailed(_) => 2
    case Respond(c) => if Settled(k, c.serial) then 5 else 10
    case ErrorDone(c, ignored) => if ignored then 1 else if Settled(k, c.serial) then 6 else 11
    case Error(c, page) => if Settled(k, c.serial) then 3 else 12 + |page.body|
    case RespondFailed(c, page) => if Settled(k, c.serial) then 4 else 13 + |page.body|
  }

  function ClientWork(r: Record, started: bool): nat {
    |r.response.body| + if started then 0 else 5
  }

  /** The work of the first `n` clients. */
  function ClientsWork(k: Conn, n: nat): nat
    requires n <= |k.clients|
  {
    if n == 0 then 0 else ClientsWork(k, n - 1) + ClientWork(k.clients[n - 1], (n - 1) in k.started)
  }

  /** The work of some events, as the connections they are about see them. */
  function QueueWork(conns: seq<Conn>, q: seq<Event>): nat {
    if q == [] then 0
    else (if q[0].On() < |conns| then EventWork(conns[q[0].On()], q[0]) else 1) + QueueWork(conns, q[1..])
  }

  function ConnsWork(conns: seq<Conn>): nat {
    if conns == [] then 0 else ClientsWork(conns[0], |conns[0].clients|) + ConnsWork(conns[1..])
  }

  function Work(net: Net): nat {
    ConnsWork(net.conns) + QueueWork(net.conns, net.queue)
  }

  // ----- sums

  lemma {:induction false} QueueWorkAppend(conns: seq<Conn>, a: seq<Event>, b: seq<Event>)
    ensures QueueWork(conns, a + b) == QueueWork(conns, a) + QueueWork(conns, b)
  {
    if a == [] {
      assert a + b == b;
    } else {
      QueueWorkAppend(conns, a[1..], b);
      assert (a + b)[1..] == a[1..] + b;
    }
  }

  /** Clients only ever become settled, so that the events about them only lose work. */
  lemma {:induction false} QueueWorkSettles(conns: seq<Conn>, s: Socket, k: Conn, q: seq<Event>)
    requires s < |conns|
    requires forall i: nat :: Settled(conns[s], i) ==> Settled(k, i)
    ensures QueueWork(conns[s := k], q) <= QueueWork(conns, q)
  {
    if q == [] {
    } else {
      QueueWorkSettles(conns, s, k, q[1..]);
    }
  }

  lemma {:induction false} ConnsWorkUpdate(conns: seq<Conn>, s: Socket, k: Conn)
    requires s < |conns|
    ensures ConnsWork(conns[s := k]) ==
              ConnsWork(conns) - ClientsWork(conns[s], |conns[s].clients|) + ClientsWork(k, |k.clients|)
  {
    if s == 0 {
      assert conns[s := k][1..] == conns[1..];
    } else {
      ConnsWorkUpdate(conns[1..], s - 1, k);
      assert conns[s := k][1..] == conns[1..][s - 1 := k];
    }
  }

  /** A change to client `i` alone changes the work by the change to that client. */
  lemma {:induction false} ClientsWorkUpdate(k: Conn, k': Conn, i: nat, n: nat)
    requires n <= |k.clients| == |k'.clients|
    requires forall j :: 0 <= j < n && j != i ==>
               k.clients[j].response == k'.clients[j].response && (j in k.started <==> j in k'.started)
    ensures i >= n ==> ClientsWork(k', n) == ClientsWork(k, n)
    ensures i < n ==> ClientsWork(k', n) == ClientsWork(k, n)
                        - ClientWork(k.clients[i], i in k.started) + ClientWork(k'.clients[i], i in k'.started)
  {
    if n == 0 {
    } else {
      ClientsWorkUpdate(k, k', i, n - 1);
    }
  }

  // ----- every handler spends work

  function Fired(k: Conn, fired: seq<Event>): nat {
    if fired == [] then 0 else EventWork(k, fired[0]) + Fired(k, fired[1..])
  }

  lemma {:induction false} FiredWork(conns: seq<Conn>, s: Socket, fired: seq<Event>)
    requires s < |conns| && forall e :: e in fired ==> e.On() == s
    ensures QueueWork(conns, fired) == Fired(conns[s], fired)
  {
    if fired == [] {
    } else {
      FiredWork(conns, s, fired[1..]);
    }
  }

  /** The effect of handling `e` holds less work than before, and settles no one's affairs anew. */
  ghost predicate Spends(k: Conn, e: Event, f: Effect) {
    && |f.conn.clients| == |k.clients|
    && ClientsWork(f.conn, |k.clients|) + Fired(f.conn, f.fired) < ClientsWork(k, |k.clients|) + EventWork(k, e)
    && (forall i: nat :: Settled(k, i) ==> Settled(f.conn, i))
  }

  /** The balance of a handler that touches client `i` alone and fires at most one event. */
  lemma SpendsOne(k: Conn, e: Event, i: nat, f: Effect)
    requires i < |k.clients| == |f.conn.clients| && |f.fired| <= 1
    requires forall j :: 0 <= j < |k.clients| && j != i ==>
               k.clients[j].response == f.conn.clients[j].response && (j in k.started <==> j in f.conn.started)
    requires forall j: nat :: Settled(k, j) ==> Settled(f.conn, j)
    requires ClientWork(f.conn.clients[i], i in f.conn.started) + (if f.fired == [] then 0 else EventWork(f.conn, f.fired[0]))
             < ClientWork(k.clients[i], i in k.started) + EventWork(k, e)
    ensures Spends(k, e, f)
  {
    ClientsWorkUpdate(k, f.conn, i, |k.clients|);
    assert Fired(f.conn, f.fired) == if f.fired == [] then 0 else EventWork(f.conn, f.fired[0]);
  }

  lemma SpendsStart(k: Conn, e: Event)
    requires e.Start? && e.client.serial < |k.clients|
    requires k.live ==> e.client.serial !in k.started
    ensures Spends(k, e, Handle(k, e))
  {
    SpendsOne(k, e, e.client.serial, Handle(k, e));
  }

  lemma SpendsBody(k: Conn, e: Event)
    requires e.Body? && e.client.serial < |k.clients|
    ensures Spends(k, e, Handle(k, e))
  {
    SpendsOne(k, e, e.client.serial, Handle(k, e));
  }

  lemma SpendsComplete(k: Conn, e: Event)
    requires e.Complete? && e.client.serial < |k.clients|
    ensures Spends(k, e, Handle(k, e))
  {
    SpendsOne(k, e, e.client.serial, Handle(k, e));
  }

  lemma SpendsResponse(k: Conn, e: Event)
    requires (e.Respond? || e.RespondFailed?) && e.client.serial < |k.clients|
    ensures Spends(k, e, Handle(k, e))
  {
    SpendsOne(k, e, e.client.serial, Handle(k, e));
  }

  lemma SpendsError(k: Conn, e: Event)
    requires (e.Error? || e.ErrorDone? || e.ErrorFailed?) && e.client.serial < |k.clients|
    ensures Spends(k, e, Handle(k, e))
  {
    SpendsOne(k, e, e.client.serial, Handle(k, e));
  }

  lemma SpendsHandle(k: Conn, e: Event)
    requires e.Close? || e.Check? || e.client.serial < |k.clients|
    requires e.Start? && k.live ==> e.client.serial !in k.started
    ensures Spends(k, e, Handle(k, e))
  {
    if e.Close? || e.Check? {
      ClientsWorkUpdate(k, Handle(k, e).conn, |k.clients|, |k.clients|);
    } else if e.Start? {
      SpendsStart(k, e);
    } else if e.Body? {
      SpendsBody(k, e);
    } else if e.Complete? {
      SpendsComplete(k, e);
    } else if e.Respond? || e.RespondFailed? {
      SpendsResponse(k, e);
    } else {
      SpendsError(k, e);
    }
  }

  lemma FiredFew(k: Conn, fired: seq<Event>)
    requires |fired| <= 2
    ensures |fired| == 1 ==> Fired(k, fired) == EventWork(k, fired[0])
    ensures |fired| == 2 ==> Fired(k, fired) == EventWork(k, fired[0]) + EventWork(k, fired[1])
  {
    if |fired| == 2 {
      assert fired[1..] == [fired[1]];
    }
  }

  lemma SpendsRespondRaising(k: Conn, e: Event, page: Response)
    requires e.Respond? && e.client.serial < |k.clients|
    ensures Spends(k, e, HandleRaising(k, e, page))
  {
    var f := HandleRaising(k, e, page);
    ClientsWorkUpdate(k, f.conn, e.client.serial, |k.clients|);
    FiredFew(f.conn, f.fired);
  }

  lemma SpendsHandleRaising(k: Conn, e: Event, page: Response)
    requires CanRaise(e) && e.client.serial < |k.clients|
    ensures Spends(k, e, HandleRaising(k, e, page))
  {
    if e.Respond? {
      SpendsRespondRaising(k, e, page);
    } else {
      SpendsOne(k, e, e.client.serial, HandleRaising(k, e, page));
    }
  }

  /** What a spending effect does to the whole server. */
  lemma SpendsApply(net: Net, i: nat, f: Effect)
    requires i < |net.queue| && net.queue[i].On() < |net.conns|
    requires Spends(net.conns[net.queue[i].On()], net.queue[i], f)
    requires Own(net.queue[i].On(), |f.conn.clients|, f.fired)
    ensures Work(Apply(net, net.queue[i].On(), f, Without(net.queue, i))) < Work(net)
  {
    var e := net.queue[i];
    var s := e.On();
    var q := Without(net.queue, i);
    var conns' := net.conns[s := f.conn];
    assert net.queue == net.queue[..i] + ([e] + net.queue[i+1..]);
    QueueWorkAppend(net.conns, net.queue[..i], [e] + net.queue[i+1..]);
    QueueWorkAppend(net.conns, [e], net.queue[i+1..]);
    QueueWorkAppend(net.conns, net.queue[..i], net.queue[i+1..]);
    assert QueueWork(net.conns, [e]) == EventWork(net.conns[s], e);
    QueueWorkSettles(net.conns, s, f.conn, q);
    QueueWorkAppend(conns', q, f.fired);
    FiredWork(conns', s, f.fired);
    ConnsWorkUpdate(net.conns, s, f.conn);
  }

  /**
   Handling any pending event, whether foreign code raises in it or not, strictly
   decreases the work of the server.
   */
  lemma EveryDispatchSpendsWork(net: Net, a: Action)
    requires NetInv(net) && Enabled(net, a) && (a.Dispatch? || a.Raise?)
    ensures Work(Step(net, a)) < Work(net)
  {
    var i := a.i;
    var e := net.queue[i];
    if Known(net.conns, e) {
      var s := e.On();
      var k := net.conns[s];
      assert ConnOk(s, k, net.queue);
      TokensWithout(net.queue, i, s);
      if a.Dispatch? {
        assert e.Start? && k.live ==> [e] == Pending(s, k);
        SpendsHandle(k, e);
        HandleOwn(k, e);
        SpendsApply(net, i, Handle(k, e));
      } else {
        SpendsHandleRaising(k, e, a.page);
        HandleRaisingOwn(k, e, a.page);
        SpendsApply(net, i, HandleRaising(k, e, a.page));
      }
    } else {
      assert e in net.queue && e.Check?;
      assert net.queue == net.queue[..i] + ([e] + net.queue[i+1..]);
      QueueWorkAppend(net.conns, net.queue[..i], [e] + net.queue[i+1..]);
      QueueWorkAppend(net.conns, [e], net.queue[i+1..]);
      QueueWorkAppend(net.conns, net.queue[..i], net.queue[i+1..]);
      assert QueueWork(net.conns, [e]) == 1;
    }
  }

  /** Whether a list of actions only handles pending events. */
  predicate OnlyDispatches(net: Net, actions: seq<Action>)
    decreases |actions|
  {
    actions != [] ==>
      && (actions[0].Dispatch? || actions[0].Raise?)
      && Enabled(net, actions[0])
      && OnlyDispatches(Step(net, actions[0]), actions[1..])
  }

  /** Without new input the server comes to rest after a bounded number of steps, in whatever order they are taken. */
  lemma {:induction false} ComesToRest(net: Net, actions: seq<Action>)
    requires NetInv(net) && OnlyDispatches(net, actions)
    ensures |actions| + Work(Run(net, actions)) <= Work(net)
    decreases |actions|
  {
    if actions == [] {
    } else {
      EveryDispatchSpendsWork(net, actions[0]);
      StepKeeps(net, actions[0]);
      ComesToRest(Step(net, actions[0]), actions[1..]);
    }
  }

  /**
   When no event is pending, a connection in the table whose requests all had their
   `response` event has an empty pipeline, and every response was sent to the end.
   */
  lemma RestMeansAnswered(actions: seq<Action>, s: Socket)
    requires s < |Reached(actions).conns| && Reached(actions).queue == []
    requires Reached(actions).conns[s].live
    requires forall i :: 0 <= i < |Reached(actions).conns[s].clients| ==> i in Reached(actions).conns[s].responses
    ensures Reached(actions).conns[s].requests == []
    ensures var k := Reached(actions).conns[s];
            && (forall i :: 0 <= i < |k.clients| ==> k.clients[i].ended)
            && (!k.tainted && NoneLost(k) ==> k.wire == Answers(k.clients))
  {
    var net := Reached(actions);
    var k := net.conns[s];
    ReachedInv(actions);
    assert ConnOk(s, k, net.queue);
    assert Pending(s, k) == [];
    assert Answered(k) == |k.clients|;
    forall i | 0 <= i < |k.clients| ensures k.clients[i].ended {
      assert ClientOk(k.clients[i], k.live, i in k.responses, i in k.started, true);
    }
    assert k.clients[..|k.clients|] == k.clients;
    if NoneLost(k) {
      AnsweredInFull(k, |k.clients|);
    }
  }
}
