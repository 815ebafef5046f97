/**
 What no action of the server takes back: clients keep their places, accepted responses
 stay accepted, what is done stays done, and what was answered stays answered.
 */
module PipelineHistory {
  import opened Messages
  import opened Pipeline
  import opened PipelineInvariant
  import opened PipelineRuns
  import opened PipelineTheorems

  /** How a client may change: an accepted response stays accepted, done is done, and lost is lost. */
  predicate Lasts(r: Record, r': Record) {
    && (r.accepted.Some? ==> r'.accepted == r.accepted)
    && (r.done ==> r'.done)
    && (r.lost ==> r'.lost)
  }

  ghost predicate Extends(k: Conn, k': Conn) {
    && |k.clients| <= |k'.clients|
    && Answered(k) <= Answered(k')
    && k.wire <= k'.wire
    && (k.tainted ==> k'.tainted)
    && (forall i :: 0 <= i < |k.clients| ==> Lasts(k.clients[i], k'.clients[i]))
  }

  lemma ExtendsFurther(k: Conn, k': Conn, k'': Conn)
    requires Extends(k, k') && Extends(k', k'')
    ensures Extends(k, k'')
  {
    forall i | 0 <= i < |k.clients| ensures Lasts(k.clients[i], k''.clients[i]) {
      assert Lasts(k.clients[i], k'.clients[i]) && Lasts(k'.clients[i], k''.clients[i]);
    }
  }

  lemma AcceptExtends(s: Socket, k: Conn, i: nat)
    requires i < |k.clients| && ClientInv(k)
    ensures Extends(k, OnResponse(s, k, i).conn)
  {
    assert ClientOk(k.clients[i], k.live, i in k.responses, i in k.started, i < Answered(k));
  }

  /** A change to client `i` alone. */
  lemma OneExtends(k: Conn, k': Conn, i: nat, r: Record)
    requires i < |k.clients| && k'.clients == k.clients[i := r] && Lasts(k.clients[i], r)
    requires |k'.requests| <= |k.requests| && k.wire <= k'.wire && (k.tainted ==> k'.tainted)
    ensures Extends(k, k')
  {
  }

  /** The handlers that send a response. */
  lemma SendingExtends(k: Conn, e: Event)
    requires e.IsToken() && e.client.serial < |k.clients|
    ensures Extends(k, Handle(k, e).conn)
  {
    var i := e.client.serial;
    var k' := Handle(k, e).conn;
    assert k'.clients == k.clients[i := k'.clients[i]];
    OneExtends(k, k', i, k'.clients[i]);
  }

  /** The handlers of errors. */
  lemma FailingExtends(k: Conn, e: Event)
    requires (e.RespondFailed? || e.Error? || e.ErrorDone? || e.ErrorFailed?) && e.client.serial < |k.clients|
    ensures Extends(k, Handle(k, e).conn)
  {
  }

  lemma HandleExtends(k: Conn, e: Event)
    requires (e.Close? || e.Check? || e.client.serial < |k.clients|) && ClientInv(k)
    ensures Extends(k, Handle(k, e).conn)
  {
    if e.Respond? {
      AcceptExtends(e.client.socket, k, e.client.serial);
    } else if e.IsToken() {
      SendingExtends(k, e);
    } else if !e.Close? && !e.Check? {
      FailingExtends(k, e);
    }
  }

lemma HandleRaisingExtends(k: Conn, e: Event, page: Response)
    requires CanRaise(e) && e.client.serial < |k.clients| && ClientInv(k)
    ensures Extends(k, HandleRaising(k, e, page).conn)
  {
    var k' := HandleRaising(k, e, page).conn;
    match e
    case Respond(c) =>
      AcceptExtends(c.socket, k, c.serial);
      assert k' == OnResponse(c.socket, k, c.serial).conn;
    case Error(_, _) =>
      FailingExtends(k, e);
      assert k' == Handle(k, e).conn;
    case ErrorDone(c, _) =>
      FailingExtends(k, ErrorFailed(c));
      assert k' == Handle(k, ErrorFailed(c)).conn;
    case Body(_) =>
      assert k' == k.(stalled := true);
  }

  /** The number of requests an action reads from socket `s`. */
  function Arriving(a: Action, s: Socket): nat {
    match a
    case Read(o, batch) => if o == s then |batch| else 0
    case ReadFails(o, _, _) => if o == s then 1 else 0
    case _ => 0
  }

  lemma {:induction false} AddAllExtends(k: Conn, batch: seq<Arrival>)
    ensures Extends(k, AddAll(k, batch)) && |AddAll(k, batch).clients| == |k.clients| + |batch|
    decreases |batch|
  {
    if batch == [] {
    } else {
      AddAllExtends(AddClient(k, batch[0].connect, batch[0].response), batch[1..]);
    }
  }

  lemma DispatchExtends(net: Net, i: nat, s: Socket)
    requires NetInv(net) && i < |net.queue| && s < |net.conns|
    ensures var k' := Step(net, Dispatch(i)).conns[s];
            Extends(net.conns[s], k') && |k'.clients| == |net.conns[s].clients|
  {
    assert ConnOk(s, net.conns[s], net.queue);
    if Known(net.conns, net.queue[i]) && net.queue[i].On() == s {
      HandleExtends(net.conns[s], net.queue[i]);
      HandleOwn(net.conns[s], net.queue[i]);
    }
  }

  lemma RaiseExtends(net: Net, i: nat, page: Response, s: Socket)
    requires NetInv(net) && Enabled(net, Raise(i, page)) && s < |net.conns|
    ensures var k' := Step(net, Raise(i, page)).conns[s];
            Extends(net.conns[s], k') && |k'.clients| == |net.conns[s].clients|
  {
    assert ConnOk(s, net.conns[s], net.queue);
    if net.queue[i].On() == s {
      HandleRaisingExtends(net.conns[s], net.queue[i], page);
      HandleRaisingOwn(net.conns[s], net.queue[i], page);
    }
  }

  lemma ReadExtends(net: Net, a: Action, s: Socket)
    requires Enabled(net, a) && s < |net.conns| && (a.Read? || a.ReadFails?)
    ensures s < |Step(net, a).conns| && Extends(net.conns[s], Step(net, a).conns[s])
    ensures |Step(net, a).conns[s].clients| ==
              |net.conns[s].clients| + if net.conns[s].tunnel then 0 else Arriving(a, s)
  {
    if a.Read? {
      AddAllExtends(net.conns[s], a.batch);
    }
  }

  lemma ComposeExtends(net: Net, c: ClientId, response: Response, s: Socket)
    requires NetInv(net) && Enabled(net, Compose(c, response)) && s < |net.conns|
    ensures var k' := Step(net, Compose(c, response)).conns[s];
            Extends(net.conns[s], k') && |k'.clients| == |net.conns[s].clients|
  {
    var k := net.conns[s];
    assert ConnOk(s, k, net.queue);
    if c.socket == s {
      assert ClientOk(k.clients[c.serial], k.live, false, c.serial in k.started, c.serial < Answered(k));
    }
  }

  /** Every action extends every connection, and all but a read leave the number of its clients alone. */
  lemma StepExtends(net: Net, a: Action, s: Socket)
    requires NetInv(net) && Enabled(net, a) && s < |net.conns|
    ensures s < |Step(net, a).conns| && Extends(net.conns[s], Step(net, a).conns[s])
    ensures |Step(net, a).conns[s].clients| ==
              |net.conns[s].clients| + if net.conns[s].tunnel then 0 else Arriving(a, s)
  {
    match a
    case Read(_, _) => ReadExtends(net, a, s);
    case ReadFails(_, _, _) => ReadExtends(net, a, s);
    case Dispatch(i) => DispatchExtends(net, i, s);
    case Raise(i, page) => RaiseExtends(net, i, page, s);
    case Compose(c, response) => ComposeExtends(net, c, response, s);
    case _ => UnreadExtends(net, a, s);
  }

  lemma UnreadExtends(net: Net, a: Action, s: Socket)
    requires Enabled(net, a) && s < |net.conns| && (a.Connect? || a.Fire? || a.Expire? || a.Disconnect?)
    ensures s < |Step(net, a).conns| && Extends(net.conns[s], Step(net, a).conns[s])
    ensures |Step(net, a).conns[s].clients| == |net.conns[s].clients|
  {
  }

  lemma {:induction false} RunExtends(net: Net, actions: seq<Action>, s: Socket)
    requires NetInv(net) && s < |net.conns|
    ensures s < |Run(net, actions).conns| && Extends(net.conns[s], Run(net, actions).conns[s])
    decreases |actions|
  {
    if actions == [] {
    } else {
      var net' := if Enabled(net, actions[0]) then Step(net, actions[0]) else net;
      if Enabled(net, actions[0]) {
        StepKeeps(net, actions[0]);
        StepExtends(net, actions[0], s);
      }
      RunExtends(net', actions[1..], s);
      ExtendsFurther(net.conns[s], net'.conns[s], Run(net, actions).conns[s]);
    }
  }

  lemma LaterExtends(earlier: seq<Action>, later: seq<Action>, s: Socket)
    requires s < |Reached(earlier).conns|
    ensures s < |Reached(earlier + later).conns| && Extends(Reached(earlier).conns[s], Reached(earlier + later).conns[s])
    ensures ConnOk(s, Reached(earlier + later).conns[s], Reached(earlier + later).queue)
  {
    ReachedInv(earlier);
    ReachedInv(earlier + later);
    RunAppend(INITIAL, earlier, later);
    RunExtends(Reached(earlier), later, s);
  }

  /**
   Whatever happens after a response was accepted, late errors included: it stays the
   accepted one, what was sent for it is a beginning of it, and as long as the connection
   is there the rest is still to come. Only a failed `response` event can break this, by
   replacing the response.
   */
  lemma AcceptedIsFinal(earlier: seq<Action>, later: seq<Action>, s: Socket, i: nat)
    requires s < |Reached(earlier).conns| && i < |Reached(earlier).conns[s].clients|
    requires Reached(earlier).conns[s].clients[i].accepted.Some?
    ensures s < |Reached(earlier + later).conns| && i < |Reached(earlier + later).conns[s].clients|
    ensures var accepted := Reached(earlier).conns[s].clients[i].accepted.value;
            var k := Reached(earlier + later).conns[s];
            var r := k.clients[i];
            && r.accepted == Some(accepted)
            && (!r.lost ==> r.sent <= Render(accepted) && (k.live ==> Promise(r, i in k.started) == Render(accepted)))
            && (r.lost ==> r.failed && r.done)
  {
    LaterExtends(earlier, later, s);
    var k := Reached(earlier + later).conns[s];
    assert Lasts(Reached(earlier).conns[s].clients[i], k.clients[i]);
    assert ClientOk(k.clients[i], k.live, i in k.responses, i in k.started, i < Answered(k));
  }

  // ----- what loses

  /** Whether event `e` is the failure of client `i` that takes something away from it. */
  predicate Robs(s: Socket, k: Conn, e: Event, i: nat)
    requires i < |k.clients|
  {
    && e.RespondFailed? && e.client == ClientId(s, i)
    && k.live && !k.clients[i].done && i in k.responses && Loses(k.clients[i], i in k.started)
  }

  lemma SendingLosesNothing(k: Conn, e: Event, i: nat)
    requires e.IsToken() && e.client.serial < |k.clients|
    requires i < |k.clients| && !k.clients[i].lost
    ensures i < |Handle(k, e).conn.clients| && !Handle(k, e).conn.clients[i].lost
  {
  }

  lemma HandleLoses(s: Socket, k: Conn, e: Event, i: nat)
    requires (e.Close? || e.Check? || e.client.serial < |k.clients|) && e.On() == s
    requires i < |k.clients| && !k.clients[i].lost
    ensures i < |Handle(k, e).conn.clients| && (Handle(k, e).conn.clients[i].lost <==> Robs(s, k, e, i))
  {
    if e.IsToken() {
      SendingLosesNothing(k, e, i);
    }
  }

  lemma RaisingLosesNothing(k: Conn, e: Event, page: Response, i: nat)
    requires CanRaise(e) && e.client.serial < |k.clients|
    requires i < |k.clients| && !k.clients[i].lost
    ensures i < |HandleRaising(k, e, page).conn.clients| && !HandleRaising(k, e, page).conn.clients[i].lost
  {
  }

  lemma {:induction false} AddAllLosesNothing(k: Conn, batch: seq<Arrival>, i: nat)
    requires i < |k.clients|
    ensures i < |AddAll(k, batch).clients| && AddAll(k, batch).clients[i] == k.clients[i]
    decreases |batch|
  {
    if batch == [] {
    } else {
      AddAllLosesNothing(AddClient(k, batch[0].connect, batch[0].response), batch[1..], i);
    }
  }

  /** In one step a client loses something exactly when a failed `response` event of its own is handled that robs it. */
  lemma OnlyFailuresLose(net: Net, a: Action, s: Socket, i: nat)
    requires NetInv(net) && Enabled(net, a) && s < |net.conns| && i < |net.conns[s].clients| && !net.conns[s].clients[i].lost
    ensures s < |Step(net, a).conns| && i < |Step(net, a).conns[s].clients|
    ensures Step(net, a).conns[s].clients[i].lost <==> a.Dispatch? && Robs(s, net.conns[s], net.queue[a.i], i)
  {
    match a
    case Read(_, batch) => AddAllLosesNothing(net.conns[s], batch, i);
    case Dispatch(n) =>
      if Known(net.conns, net.queue[n]) && net.queue[n].On() == s {
        HandleLoses(s, net.conns[s], net.queue[n], i);
      }
    case Raise(n, page) =>
      if net.queue[n].On() == s {
        RaisingLosesNothing(net.conns[s], net.queue[n], page, i);
      }
    case _ => OthersLoseNothing(net, a, s, i);
  }

  lemma OthersLoseNothing(net: Net, a: Action, s: Socket, i: nat)
    requires Enabled(net, a) && s < |net.conns| && i < |net.conns[s].clients| && !net.conns[s].clients[i].lost
    requires !a.Read? && !a.Dispatch? && !a.Raise?
    ensures s < |Step(net, a).conns| && i < |Step(net, a).conns[s].clients| && !Step(net, a).conns[s].clients[i].lost
  {
  }

  /** The loop of failed responses and errors ends: after the first replacement no later failure does anything. */
  lemma ReplacedAtMostOnce(earlier: seq<Action>, later: seq<Action>, s: Socket, i: nat, page: Response)
    requires s < |Reached(earlier).conns| && i < |Reached(earlier).conns[s].clients|
    requires Reached(earlier).conns[s].clients[i].failed
    ensures s < |Reached(earlier + later).conns| && i < |Reached(earlier + later).conns[s].clients|
    ensures var k := Reached(earlier + later).conns[s];
            OnRespondFailed(s, k, i, page) == Effect(k, [], false)
  {
    ReachedInv(earlier);
    LaterExtends(earlier, later, s);
    var k := Reached(earlier).conns[s];
    assert ConnOk(s, k, Reached(earlier).queue);
    assert ClientOk(k.clients[i], k.live, i in k.responses, i in k.started, i < Answered(k));
    assert Lasts(k.clients[i], Reached(earlier + later).conns[s].clients[i]);
  }
}
