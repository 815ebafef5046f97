/**
 When every client gets one outcome, a response or an error but not both and not two, and
 no foreign code raises, nothing is ever replaced or written past the pipeline: the wire
 carries exactly the accepted responses. `PipelineOutcomes` shows that the request
 lifecycle keeps to this discipline.
 */
module PipelineDiscipline {
  import opened Messages
  import opened Pipeline
  import opened PipelineRuns
  import opened PipelineTheorems
  import opened PipelineProgress

  /** The clients whose outcome an action settles. */
  function Decides(net: Net, a: Action): set<ClientId> {
    match a
    case Fire(e) => if e.IsToken() || e.Close? || e.Check? then {} else {e.client}
    case ReadFails(s, _, _) =>
      if s < |net.conns| && net.conns[s].tunnel then {}
      else {ClientId(s, if s < |net.conns| then |net.conns[s].clients| else 0)}
    case _ => {}
  }

  /** No client is decided twice, and nothing raises. */
  predicate Orderly(net: Net, decided: set<ClientId>, actions: seq<Action>)
    decreases |actions|
  {
    actions != [] ==>
      && !actions[0].Raise?
      && (if Enabled(net, actions[0])
          then Decides(net, actions[0]) !! decided
               && Orderly(Step(net, actions[0]), decided + Decides(net, actions[0]), actions[1..])
          else Orderly(net, decided, actions[1..]))
  }

  /** Whether an event will lead to a `response` event for client `c`, or is one. */
  predicate Answering(e: Event, c: ClientId) {
    (e.Respond? || e.Error? || (e.ErrorDone? && !e.ignored)) && e.client == c
  }

  function Count(q: seq<Event>, c: ClientId): nat {
    if q == [] then 0 else (if Answering(q[0], c) then 1 else 0) + Count(q[1..], c)
  }

  lemma {:induction false} CountAppend(a: seq<Event>, b: seq<Event>, c: ClientId)
    ensures Count(a + b, c) == Count(a, c) + Count(b, c)
  {
    if a == [] {
      assert a + b == b;
    } else {
      CountAppend(a[1..], b, c);
      assert (a + b)[1..] == a[1..] + b;
    }
  }

  lemma CountWithout(q: seq<Event>, i: nat, c: ClientId)
    requires i < |q|
    ensures Count(Without(q, i), c) == Count(q, c) - if Answering(q[i], c) then 1 else 0
  {
    assert q == q[..i] + ([q[i]] + q[i+1..]);
    CountAppend(q[..i], [q[i]] + q[i+1..], c);
    CountAppend([q[i]], q[i+1..], c);
    CountAppend(q[..i], q[i+1..], c);
    assert Count([q[i]], c) == if Answering(q[i], c) then 1 else 0;
  }

  predicate Exists(conns: seq<Conn>, c: ClientId) {
    c.socket < |conns| && c.serial < |conns[c.socket].clients|
  }

  predicate Accepted(conns: seq<Conn>, c: ClientId) {
    c.socket < |conns| && c.serial in conns[c.socket].responses
  }

  /** A decided client has at most one event that will lead to its response; an undecided one has none. */
  predicate Owed(conns: seq<Conn>, q: seq<Event>, decided: set<ClientId>, c: ClientId) {
    Count(q, c) + (if Accepted(conns, c) then 1 else 0) <= if c in decided then 1 else 0
  }

  predicate Untouched(r: Record) {
    !r.failed && !r.swapped && !r.lost
  }

  predicate Clean(k: Conn) {
    !k.tainted && forall i :: 0 <= i < |k.clients| ==> Untouched(k.clients[i])
  }

  ghost predicate Calm(net: Net, decided: set<ClientId>) {
    && (forall c :: Owed(net.conns, net.queue, decided, c))
    && (forall c :: c in decided ==> Exists(net.conns, c))
    && (forall e :: e in net.queue ==> !e.RespondFailed? && !e.ErrorFailed?)
    && (forall s :: 0 <= s < |net.conns| ==> Clean(net.conns[s]))
  }

  lemma OneClean(k: Conn, k': Conn, i: nat, r: Record)
    requires Clean(k) && i < |k.clients| && k'.clients == k.clients[i := r] && Untouched(r) && !k'.tainted
    ensures Clean(k')
  {
  }

  /** A handler called in calm keeps its connection clean. */
  lemma HandleClean(k: Conn, e: Event)
    requires e.Close? || e.Check? || e.client.serial < |k.clients|
    requires Clean(k) && !e.RespondFailed? && !e.ErrorFailed?
    ensures Clean(Handle(k, e).conn)
  {
    if !e.Close? && !e.Check? {
      var i := e.client.serial;
      var k' := Handle(k, e).conn;
      assert Untouched(k.clients[i]);
      assert k.clients == k.clients[i := k.clients[i]];
      OneClean(k, k', i, k'.clients[i]);
    }
  }

  lemma HandleFiresNoFailure(k: Conn, e: Event)
    requires e.Close? || e.Check? || e.client.serial < |k.clients|
    requires !e.RespondFailed? && !e.ErrorFailed?
    requires k.live && (e.Respond? || e.Error?) ==> e.client.serial !in k.responses
    ensures forall x :: x in Handle(k, e).fired ==> !x.RespondFailed? && !x.ErrorFailed?
  {
  }

  /** It fires an event that leads to a response, or accepts one, only for such an event that it consumed. */
  lemma HandleCalm(k: Conn, e: Event, c: ClientId)
    requires e.Close? || e.Check? || e.client.serial < |k.clients|
    requires Clean(k) && !e.RespondFailed? && !e.ErrorFailed?
    requires k.live && (e.Respond? || e.Error?) ==> e.client.serial !in k.responses
    ensures var f := Handle(k, e);
            Count(f.fired, c) + (if c.socket == e.On() && c.serial in f.conn.responses then 1 else 0)
               <= (if Answering(e, c) then 1 else 0) + (if c.socket == e.On() && c.serial in k.responses then 1 else 0)
  {
    var f := Handle(k, e);
    assert |f.fired| <= 1;
    assert f.fired != [] ==> Count(f.fired, c) == if Answering(f.fired[0], c) then 1 else 0;
  }

  lemma CalmDispatch(net: Net, decided: set<ClientId>, i: nat)
    requires NetInv(net) && Calm(net, decided) && i < |net.queue|
    ensures Calm(Step(net, Dispatch(i)), decided)
  {
    var e := net.queue[i];
    var s := e.On();
    var q := Without(net.queue, i);
    var net' := Step(net, Dispatch(i));
    assert e in net.queue;
    if Known(net.conns, e) {
      var k := net.conns[s];
      var f := Handle(k, e);
      assert Clean(k);
      assert ConnOk(s, k, net.queue);
      HandleOwn(k, e);
      if e.Respond? || e.Error? {
        assert Owed(net.conns, net.queue, decided, e.client);
        CountWithout(net.queue, i, e.client);
      }
      forall c ensures Owed(net'.conns, net'.queue, decided, c) {
        assert Owed(net.conns, net.queue, decided, c);
        HandleCalm(k, e, c);
        CountWithout(net.queue, i, c);
        CountAppend(q, f.fired, c);
      }
      HandleClean(k, e);
      HandleFiresNoFailure(k, e);
      forall x | x in net'.queue ensures !x.RespondFailed? && !x.ErrorFailed? {
        if x in q {
          assert x in net.queue;
        }
      }
    } else {
      forall c ensures Owed(net'.conns, net'.queue, decided, c) {
        assert Owed(net.conns, net.queue, decided, c);
        CountWithout(net.queue, i, c);
      }
    }
  }

  /** Firing an event for a client that was not decided, or one that leads to no response. */
  lemma CalmFire(net: Net, decided: set<ClientId>, e: Event, more: set<ClientId>)
    requires Calm(net, decided) && !e.RespondFailed? && !e.ErrorFailed?
    requires decided <= more && forall c :: c in more ==> Exists(net.conns, c)
    requires forall c :: Answering(e, c) ==> c in more && c !in decided
    ensures Calm(net.(queue := net.queue + [e]), more)
  {
    forall c ensures Owed(net.conns, net.queue + [e], more, c) {
      assert Owed(net.conns, net.queue, decided, c);
      CountAppend(net.queue, [e], c);
    }
  }

  /** New connections and new clients start out calm. */
  lemma CalmGrow(net: Net, decided: set<ClientId>, conns: seq<Conn>)
    requires Calm(net, decided)
    requires |conns| >= |net.conns|
    requires forall s :: 0 <= s < |conns| ==> Clean(conns[s])
    requires forall s :: 0 <= s < |net.conns| ==>
               conns[s].responses == net.conns[s].responses && |conns[s].clients| >= |net.conns[s].clients|
    requires forall s :: |net.conns| <= s < |conns| ==> conns[s].responses == {}
    ensures Calm(net.(conns := conns), decided)
  {
    forall c ensures Owed(conns, net.queue, decided, c) {
      assert Owed(net.conns, net.queue, decided, c);
      assert Accepted(conns, c) ==> Accepted(net.conns, c);
    }
    forall c | c in decided ensures Exists(conns, c) {
      assert Exists(net.conns, c);
    }
  }

  lemma {:induction false} AddAllClean(k: Conn, batch: seq<Arrival>)
    requires Clean(k)
    ensures Clean(AddAll(k, batch)) && AddAll(k, batch).responses == k.responses
    decreases |batch|
  {
    if batch == [] {
    } else {
      AddAllClean(AddClient(k, batch[0].connect, batch[0].response), batch[1..]);
    }
  }

  lemma CalmRead(net: Net, decided: set<ClientId>, s: Socket, batch: seq<Arrival>)
    requires Calm(net, decided) && Enabled(net, Read(s, batch))
    ensures Calm(Step(net, Read(s, batch)), decided)
  {
    var conns := Open(net.conns, s);
    var k := conns[s];
    AddAllClean(k, batch);
    AddAllTimers(k, batch);
    var conns' := conns[s := if k.tunnel then k else AddAll(k, batch)];
    CalmGrow(net, decided, conns');
    CalmFire(net.(conns := conns'), decided, Check(s), decided);
  }

  lemma CalmReadFails(net: Net, decided: set<ClientId>, a: Action)
    requires Calm(net, decided) && a.ReadFails? && Enabled(net, a) && Decides(net, a) !! decided
    ensures Calm(Step(net, a), decided + Decides(net, a))
  {
    var s := a.s;
    var more := decided + Decides(net, a);
    var conns := Open(net.conns, s);
    var k := conns[s];
    if k.tunnel {
      CalmGrow(net, decided, conns);
      CalmFire(net.(conns := conns), decided, Check(s), more);
    } else {
      var conns' := conns[s := AddClient(k, a.arrival.connect, a.arrival.response)];
      CalmGrow(net, decided, conns');
      var net1 := net.(conns := conns');
      var e := Error(ClientId(s, |k.clients|), a.page);
      forall c | c in more ensures Exists(conns', c) {
        assert c in decided ==> Exists(net.conns, c);
      }
      CalmFire(net1, decided, e, more);
      CalmFire(net1.(queue := net1.queue + [e]), more, Check(s), more);
      assert net.queue + [e, Check(s)] == (net.queue + [e]) + [Check(s)];
    }
  }

  /** Changing the timers, the responses still worked on, or the place in the table of one connection. */
  lemma CalmUpdate(net: Net, decided: set<ClientId>, s: Socket, k: Conn)
    requires Calm(net, decided) && s < |net.conns|
    requires Clean(k) && k.responses == net.conns[s].responses && |k.clients| == |net.conns[s].clients|
    ensures Calm(net.(conns := net.conns[s := k]), decided)
  {
    CalmGrow(net, decided, net.conns[s := k]);
  }

  lemma CalmEffect(net: Net, decided: set<ClientId>, s: Socket, f: Effect)
    requires Calm(net, decided) && s < |net.conns| && !net.broken && !f.broken
    requires f.conn.clients == net.conns[s].clients && f.conn.responses == net.conns[s].responses
    requires f.conn.tainted == net.conns[s].tainted && (f.fired == [] || f.fired == [Close(s)])
    ensures Calm(Apply(net, s, f, net.queue), decided)
  {
    assert Clean(net.conns[s]);
    CalmUpdate(net, decided, s, f.conn);
    if f.fired == [] {
      assert net.queue + f.fired == net.queue;
    } else {
      CalmFire(net.(conns := net.conns[s := f.conn]), decided, Close(s), decided);
    }
  }

  lemma CalmStep(net: Net, decided: set<ClientId>, a: Action)
    requires NetInv(net) && Calm(net, decided) && Enabled(net, a) && !a.Raise?
    requires Decides(net, a) !! decided
    ensures Calm(Step(net, a), decided + Decides(net, a))
  {
    var more := decided + Decides(net, a);
    if !a.ReadFails? && !a.Fire? {
      assert more == decided;
    }
    match a
    case Connect(s) => CalmFire(net, decided, Check(s), decided);
    case Read(s, batch) => CalmRead(net, decided, s, batch);
    case ReadFails(_, _, _) => CalmReadFails(net, decided, a);
    case Compose(c, response) => CalmCompose(net, decided, c, response);
    case Fire(e) => CalmFire(net, decided, e, more);
    case Dispatch(i) => CalmDispatch(net, decided, i);
    case Expire(s, t) => CalmEffect(net, decided, s, OnExpire(s, net.conns[s], t));
    case Disconnect(s) => CalmEffect(net, decided, s, OnClose(net.conns[s]));
  }

  lemma CalmCompose(net: Net, decided: set<ClientId>, c: ClientId, response: Response)
    requires Calm(net, decided) && Enabled(net, Compose(c, response))
    ensures Calm(Step(net, Compose(c, response)), decided)
  {
    var k := net.conns[c.socket];
    assert Clean(k);
    CalmUpdate(net, decided, c.socket, k.(clients := k.clients[c.serial := k.clients[c.serial].(response := response)]));
  }

  lemma {:induction false} CalmRun(net: Net, decided: set<ClientId>, actions: seq<Action>) returns (all: set<ClientId>)
    requires NetInv(net) && Calm(net, decided) && Orderly(net, decided, actions)
    ensures Calm(Run(net, actions), all)
    decreases |actions|
  {
    if actions == [] {
      all := decided;
    } else if Enabled(net, actions[0]) {
      CalmStep(net, decided, actions[0]);
      StepKeeps(net, actions[0]);
      all := CalmRun(Step(net, actions[0]), decided + Decides(net, actions[0]), actions[1..]);
    } else {
      all := CalmRun(net, decided, actions[1..]);
    }
  }

  /**
   If every client is decided at most once, then in every such run, on every connection:
   no `response` event is refused, no response is replaced, nothing is written past the
   pipeline, and the bytes on the wire are the accepted responses in request order.
   */
  lemma OneOutcomeMeansExactBytes(actions: seq<Action>, s: Socket)
    requires Orderly(INITIAL, {}, actions) && s < |Reached(actions).conns|
    ensures forall e :: e in Reached(actions).queue ==> !e.RespondFailed? && !e.ErrorFailed?
    ensures Clean(Reached(actions).conns[s])
    ensures var k := Reached(actions).conns[s];
            var n := Answered(k);
            && 0 <= n <= |k.clients|
            && Flatten(k.wire) == Flatten(Answers(k.clients[..n])) + Flatten(Current(k))
            && (Current(k) != [] ==> n < |k.clients| && k.clients[n].accepted.Some?
                                     && Current(k) <= Render(k.clients[n].accepted.value))
  {
    var all := CalmRun(INITIAL, {}, actions);
    assert Clean(Reached(actions).conns[s]);
    ResponsesInRequestOrder(actions, s);
  }

  /** At rest, with every request decided, such a connection has carried every response in full. */
  lemma OneOutcomeMeansAllBytes(actions: seq<Action>, s: Socket)
    requires Orderly(INITIAL, {}, actions) && s < |Reached(actions).conns|
    requires Reached(actions).queue == [] && Reached(actions).conns[s].live
    requires forall i :: 0 <= i < |Reached(actions).conns[s].clients| ==> i in Reached(actions).conns[s].responses
    ensures Flatten(Reached(actions).conns[s].wire) == Flatten(Answers(Reached(actions).conns[s].clients))
  {
    OneOutcomeMeansExactBytes(actions, s);
    RestMeansAnswered(actions, s);
  }
}
