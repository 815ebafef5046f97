/**
 What holds of every run of the server: any mixture of reads, answers in any order,
 errors, idle timers and disconnects, with the pending events handled in any order.
 */
module PipelineRuns {
  import opened Messages
  import opened Pipeline
  import opened PipelineInvariant

  /** No sleeping timer but the current one can still do anything. */
  ghost predicate TimerInv(k: Conn) {
    && (k.timeout.Some? ==> k.timeout.value < |k.timers|)
    && (forall t :: 0 <= t < |k.timers| && k.timers[t].pending && !k.timers[t].aborted ==> k.timeout == Some(t))
  }

  ghost predicate ConnOk(s: Socket, k: Conn, q: seq<Event>) {
    ConnInv(s, k, Tokens(q, s), Close(s) in q) && TimerInv(k)
  }

  ghost predicate NetInv(net: Net) {
    && !net.broken
    && (forall s :: 0 <= s < |net.conns| ==> ConnOk(s, net.conns[s], net.queue))
    && (forall e :: e in net.queue ==> e.Check? || Known(net.conns, e))
  }

  // ----- handlers stay on their own connection

  /** Events that a handler of connection `s` with `n` clients may fire. */
  predicate Own(s: Socket, n: nat, fired: seq<Event>) {
    forall e :: e in fired ==> e.On() == s && !e.Check? && (e.Close? || e.client.serial < n)
  }

  lemma HandleOwn(k: Conn, e: Event)
    requires (e.Close? || e.Check? || e.client.serial < |k.clients|)
    requires Shape(k)
    ensures |Handle(k, e).conn.clients| == |k.clients|
    ensures Own(e.On(), |k.clients|, Handle(k, e).fired)
  {
    if e.Complete? && |k.requests| > 1 {
      assert k.requests[1] == Answered(k) + 1;
    }
  }

  lemma HandleTimers(k: Conn, e: Event)
    requires (e.Close? || e.Check? || e.client.serial < |k.clients|) && TimerInv(k)
    ensures TimerInv(Handle(k, e).conn)
  {
    if e.IsToken() || e.Respond? {
      SendingTimers(k, e);
    } else if !e.Check? && !e.Close? {
      ErrorTimers(k, e);
    }
  }

  lemma SendingTimers(k: Conn, e: Event)
    requires (e.IsToken() || e.Respond?) && e.client.serial < |k.clients|
    ensures Handle(k, e).conn.timers == k.timers && Handle(k, e).conn.timeout == k.timeout
  {
  }

  lemma ErrorTimers(k: Conn, e: Event)
    requires (e.RespondFailed? || e.Error? || e.ErrorDone? || e.ErrorFailed?) && e.client.serial < |k.clients|
    ensures Handle(k, e).conn.timers == k.timers && Handle(k, e).conn.timeout == k.timeout
  {
  }

  lemma HandleRaisingOwn(k: Conn, e: Event, page: Response)
    requires CanRaise(e) && e.client.serial < |k.clients|
    ensures |HandleRaising(k, e, page).conn.clients| == |k.clients|
    ensures Own(e.On(), |k.clients|, HandleRaising(k, e, page).fired)
    ensures TimerInv(k) ==> TimerInv(HandleRaising(k, e, page).conn)
  {
  }

  lemma {:induction false} AddAllTimers(k: Conn, batch: seq<Arrival>)
    ensures var k' := AddAll(k, batch);
            k'.timers == k.timers && k'.timeout == k.timeout && |k'.clients| == |k.clients| + |batch|
    decreases |batch|
  {
    if batch == [] {
    } else {
      AddAllTimers(AddClient(k, batch[0].connect, batch[0].response), batch[1..]);
    }
  }

  // ----- every action keeps the invariant

  /** Events on other connections come and go without notice. */
  lemma QueueElsewhere(s: Socket, k: Conn, q: seq<Event>, q': seq<Event>)
    requires ConnOk(s, k, q)
    requires Tokens(q', s) == Tokens(q, s)
    requires Close(s) in q ==> Close(s) in q'
    ensures ConnOk(s, k, q')
  {
  }

  /** An effect on connection `s` keeps the invariant of the whole server; `q` is what is left of the queue. */
  lemma KeepsApply(net: Net, s: Socket, f: Effect, q: seq<Event>, closing: bool)
    requires s < |net.conns| && NetInv(net)
    requires Keeps(s, f, Tokens(q, s), closing) && TimerInv(f.conn)
    requires closing ==> Close(s) in q
    requires |f.conn.clients| == |net.conns[s].clients| && Own(s, |f.conn.clients|, f.fired)
    requires forall e :: e in q ==> e in net.queue
    requires forall o: Socket :: o != s ==> Tokens(q, o) == Tokens(net.queue, o) && (Close(o) in net.queue ==> Close(o) in q)
    ensures NetInv(Apply(net, s, f, q))
  {
    var net' := Apply(net, s, f, q);
    forall o | 0 <= o < |net'.conns| ensures ConnOk(o, net'.conns[o], net'.queue) {
      TokensAppend(q, f.fired, o);
      if o != s {
        TokensElsewhere(f.fired, o);
        assert Tokens(net'.queue, o) == Tokens(net.queue, o);
        QueueElsewhere(o, net.conns[o], net.queue, net'.queue);
      } else {
        KeepsWeaker(s, f.conn, Tokens(net'.queue, s), closing || Close(s) in f.fired, Close(s) in net'.queue);
      }
    }
    forall e | e in net'.queue ensures e.Check? || Known(net'.conns, e) {
      if e in q {
        assert e in net.queue;
      }
    }
  }

  lemma KeepsWeaker(s: Socket, k: Conn, tokens: seq<Event>, closing: bool, closing': bool)
    requires ConnInv(s, k, tokens, closing) && (closing ==> closing')
    ensures ConnInv(s, k, tokens, closing')
  {
  }

  /** Firing an event that is no token. */
  lemma KeepsFire(net: Net, e: Event)
    requires NetInv(net) && !e.IsToken() && (e.Check? || Known(net.conns, e))
    ensures NetInv(net.(queue := net.queue + [e]))
  {
    var net' := net.(queue := net.queue + [e]);
    forall s | 0 <= s < |net'.conns| ensures ConnOk(s, net'.conns[s], net'.queue) {
      TokensAppend(net.queue, [e], s);
      assert Tokens([e], s) == [];
      assert Tokens(net'.queue, s) == Tokens(net.queue, s);
      QueueElsewhere(s, net.conns[s], net.queue, net'.queue);
    }
  }

  /** Replacing the state of one connection by one with at least its clients. */
  lemma KeepsReplace(net: Net, s: Socket, k: Conn)
    requires NetInv(net) && s < |net.conns|
    requires ConnOk(s, k, net.queue)
    requires |k.clients| >= |net.conns[s].clients|
    ensures NetInv(net.(conns := net.conns[s := k]))
  {
    var net' := net.(conns := net.conns[s := k]);
    forall e | e in net'.queue ensures e.Check? || Known(net'.conns, e) {
      assert e.Check? || Known(net.conns, e);
    }
  }

  lemma KeepsOpen(net: Net, s: Socket)
    requires NetInv(net) && s <= |net.conns|
    ensures NetInv(net.(conns := Open(net.conns, s)))
  {
    if s == |net.conns| {
      var net' := net.(conns := Open(net.conns, s));
      assert net'.conns == net.conns + [FRESH];
      forall e | e in net.queue ensures e.Check? || Known(net'.conns, e) {
        assert e.Check? || Known(net.conns, e);
      }
      FreshIsOk(net.queue, s);
      forall o: Socket | o < |net'.conns| ensures ConnOk(o, net'.conns[o], net.queue) {
        assert o < s ==> net'.conns[o] == net.conns[o];
      }
    }
  }

  /** A connection that no event is about yet. */
  lemma FreshIsOk(q: seq<Event>, s: Socket)
    requires forall e :: e in q && !e.Check? ==> e.On() != s
    ensures ConnOk(s, FRESH, q)
  {
    TokensElsewhere(q, s);
  }

  /** Taking event `i` out of the queue does not concern the other connections. */
  lemma TakenElsewhere(q: seq<Event>, i: nat)
    requires i < |q|
    ensures forall o: Socket :: o != q[i].On() ==>
              Tokens(Without(q, i), o) == Tokens(q, o) && (Close(o) in q ==> Close(o) in Without(q, i))
    ensures forall e :: e in Without(q, i) ==> e in q
    ensures forall e :: e in q && e != q[i] ==> e in Without(q, i)
  {
    forall o: Socket | o != q[i].On() ensures Tokens(Without(q, i), o) == Tokens(q, o) {
      TokensWithout(q, i, o);
    }
    forall e | e in q && e != q[i] ensures e in Without(q, i) {
      var j :| 0 <= j < |q| && q[j] == e;
      assert e == Without(q, i)[if j < i then j else j - 1];
    }
  }

  /** An event about a connection that does not exist does nothing. */
  lemma KeepsIgnore(net: Net, i: nat)
    requires NetInv(net) && i < |net.queue| && !Known(net.conns, net.queue[i])
    ensures NetInv(net.(queue := Without(net.queue, i)))
  {
    var q := Without(net.queue, i);
    TakenElsewhere(net.queue, i);
    assert net.queue[i] in net.queue && net.queue[i].Check?;
    forall o | 0 <= o < |net.conns| ensures ConnOk(o, net.conns[o], q) {
      TokensWithout(net.queue, i, o);
      QueueElsewhere(o, net.conns[o], net.queue, q);
    }
  }

  lemma KeepsHandled(net: Net, i: nat)
    requires NetInv(net) && i < |net.queue| && Known(net.conns, net.queue[i])
    ensures var e := net.queue[i];
            var s := e.On();
            Keeps(s, Handle(net.conns[s], e), Tokens(Without(net.queue, i), s), Close(s) in net.queue && !e.Close?)
  {
    var e := net.queue[i];
    var s := e.On();
    TokensWithout(net.queue, i, s);
    assert ConnOk(s, net.conns[s], net.queue);
    KeepsHandle(s, net.conns[s], e, Tokens(net.queue, s), Tokens(Without(net.queue, i), s), Close(s) in net.queue);
  }

  lemma KeepsKnown(net: Net, i: nat)
    requires NetInv(net) && i < |net.queue| && Known(net.conns, net.queue[i])
    ensures NetInv(Step(net, Dispatch(i)))
  {
    var e := net.queue[i];
    var s := e.On();
    var k := net.conns[s];
    KeepsHandled(net, i);
    TakenElsewhere(net.queue, i);
    assert ConnOk(s, k, net.queue);
    HandleOwn(k, e);
    HandleTimers(k, e);
    KeepsApply(net, s, Handle(k, e), Without(net.queue, i), Close(s) in net.queue && !e.Close?);
  }

  lemma KeepsDispatch(net: Net, i: nat)
    requires NetInv(net) && i < |net.queue|
    ensures NetInv(Step(net, Dispatch(i)))
  {
    if Known(net.conns, net.queue[i]) {
      KeepsKnown(net, i);
    } else {
      KeepsIgnore(net, i);
    }
  }

  lemma KeepsRaise(net: Net, i: nat, page: Response)
    requires NetInv(net) && Enabled(net, Raise(i, page))
    ensures NetInv(Step(net, Raise(i, page)))
  {
    var e := net.queue[i];
    var s := e.On();
    var q := Without(net.queue, i);
    var k := net.conns[s];
    TakenElsewhere(net.queue, i);
    TokensWithout(net.queue, i, s);
    assert ConnOk(s, k, net.queue);
    assert Leaves(e, Tokens(net.queue, s), Tokens(q, s));
    HandleRaisingOwn(k, e, page);
    var closing := Close(s) in net.queue;
    KeepsHandleRaising(s, k, e, page, Tokens(net.queue, s), Tokens(q, s), closing);
    KeepsApply(net, s, HandleRaising(k, e, page), q, closing);
  }

  lemma KeepsRead(net: Net, s: Socket, batch: seq<Arrival>)
    requires NetInv(net) && Enabled(net, Read(s, batch))
    ensures NetInv(Step(net, Read(s, batch)))
  {
    KeepsOpen(net, s);
    var net0 := net.(conns := Open(net.conns, s));
    var k := net0.conns[s];
    assert ConnOk(s, k, net.queue);
    KeepsAddAll(s, k, batch, Tokens(net.queue, s), Close(s) in net.queue);
    AddAllTimers(k, batch);
    var k' := if k.tunnel then k else AddAll(k, batch);
    KeepsReplace(net0, s, k');
    KeepsFire(net0.(conns := net0.conns[s := k']), Check(s));
  }

  lemma KeepsReadFails(net: Net, s: Socket, arrival: Arrival, page: Response)
    requires NetInv(net) && Enabled(net, ReadFails(s, arrival, page))
    ensures NetInv(Step(net, ReadFails(s, arrival, page)))
  {
    KeepsOpen(net, s);
    var net0 := net.(conns := Open(net.conns, s));
    var k := net0.conns[s];
    if k.tunnel {
      KeepsFire(net0, Check(s));
    } else {
      KeepsNewClient(net0, s, arrival);
      var net1 := net0.(conns := net0.conns[s := AddClient(k, arrival.connect, arrival.response)]);
      KeepsFireTwo(net1, Error(ClientId(s, |k.clients|), page), Check(s));
    }
  }

  lemma KeepsNewClient(net: Net, s: Socket, arrival: Arrival)
    requires NetInv(net) && s < |net.conns|
    ensures NetInv(net.(conns := net.conns[s := AddClient(net.conns[s], arrival.connect, arrival.response)]))
  {
    var k := net.conns[s];
    assert ConnOk(s, k, net.queue);
    KeepsAddClient(s, k, arrival.connect, arrival.response, Tokens(net.queue, s), Close(s) in net.queue);
    KeepsReplace(net, s, AddClient(k, arrival.connect, arrival.response));
  }

  lemma KeepsFireTwo(net: Net, e: Event, e': Event)
    requires NetInv(net) && !e.IsToken() && !e'.IsToken() && Known(net.conns, e) && e'.Check?
    ensures NetInv(net.(queue := net.queue + [e, e']))
  {
    KeepsFire(net, e);
    KeepsFire(net.(queue := net.queue + [e]), e');
    assert net.queue + [e, e'] == (net.queue + [e]) + [e'];
  }

  lemma KeepsExpire(net: Net, s: Socket, t: nat)
    requires NetInv(net) && Enabled(net, Expire(s, t))
    ensures NetInv(Step(net, Expire(s, t)))
  {
    var k := net.conns[s];
    var f := OnExpire(s, k, t);
    var closing := Close(s) in net.queue;
    assert ConnOk(s, k, net.queue);
    KeepsTimers(s, k, f.conn.timeout, f.conn.timers, f.fired, Tokens(net.queue, s), closing);
    KeepsApply(net, s, f, net.queue, closing);
  }

  /** Every action, in any state with the invariant, keeps it. */
  lemma StepKeeps(net: Net, a: Action)
    requires NetInv(net) && Enabled(net, a)
    ensures NetInv(Step(net, a))
  {
    match a
    case Connect(s) => KeepsFire(net, Check(s));
    case Read(s, batch) => KeepsRead(net, s, batch);
    case ReadFails(s, arrival, page) => KeepsReadFails(net, s, arrival, page);
    case Compose(c, response) =>
      var k := net.conns[c.socket];
      assert ConnOk(c.socket, k, net.queue);
      KeepsCompose(c.socket, k, c.serial, response, Tokens(net.queue, c.socket), Close(c.socket) in net.queue);
      KeepsReplace(net, c.socket, k.(clients := k.clients[c.serial := k.clients[c.serial].(response := response)]));
    case Fire(e) => KeepsFire(net, e);
    case Dispatch(i) => KeepsDispatch(net, i);
    case Raise(i, page) => KeepsRaise(net, i, page);
    case Expire(s, t) => KeepsExpire(net, s, t);
    case Disconnect(s) =>
      var closing := Close(s) in net.queue;
      assert ConnOk(s, net.conns[s], net.queue);
      KeepsClose(s, net.conns[s], Tokens(net.queue, s), closing, closing);
      KeepsApply(net, s, OnClose(net.conns[s]), net.queue, closing);
  }

  lemma {:induction false} RunKeeps(net: Net, actions: seq<Action>)
    requires NetInv(net)
    ensures NetInv(Run(net, actions))
    decreases |actions|
  {
    if actions == [] {
    } else {
      if Enabled(net, actions[0]) {
        StepKeeps(net, actions[0]);
        RunKeeps(Step(net, actions[0]), actions[1..]);
      } else {
        RunKeeps(net, actions[1..]);
      }
    }
  }
}
