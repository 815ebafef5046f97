/**
 What the head of a response decides for its connection: whether it becomes a tunnel, and
 whether it is closed in the end. Both are decided when the head is sent, by the response
 as it is then, and stay what the accepted response asked for.
 */
module PipelineHeads {
  import opened Messages
  import opened Pipeline
  import opened PipelineInvariant
  import opened PipelineRuns
  import opened PipelineTheorems

  /** The accepted response switches protocols, or answers a CONNECT with success. */
  predicate AsksForTunnel(r: Record) {
    && r.accepted.Some?
    && var status := r.accepted.value.status;
       status == 101 || (r.connect && 200 <= status < 300)
  }

  /** Until it is started, a response is the accepted one or the one that replaced it. */
  predicate Waits(r: Record, live: bool, started: bool) {
    && (r.swapped ==> r.accepted.Some?)
    && (r.accepted.Some? && !started && live ==> r.response == if r.swapped then BARE_500 else r.accepted.value)
  }

  /** What the start of a response recorded is what it asked for. */
  predicate Recorded(r: Record, close: bool, tunnel: bool) {
    !r.swapped ==> r.accepted.Some? && close == r.accepted.value.close && (AsksForTunnel(r) ==> tunnel)
  }

  ghost predicate HeadInv(k: Conn) {
    && (forall i :: 0 <= i < |k.clients| ==> Waits(k.clients[i], k.live, i in k.started))
    && (forall i :: i in k.composed && i < |k.clients| ==> Recorded(k.clients[i], k.composed[i], k.tunnel))
    && (k.tunnel ==> exists i :: 0 <= i < |k.clients| && i in k.started && AsksForTunnel(k.clients[i]))
  }

  // ----- every handler keeps it

  /** A change to one client that leaves the pipeline's records alone. */
  lemma OneKeepsHeads(k: Conn, k': Conn, i: nat, r: Record)
    requires HeadInv(k) && i < |k.clients| && k'.clients == k.clients[i := r]
    requires k'.live == k.live && k'.started == k.started && k'.composed == k.composed && k'.tunnel == k.tunnel
    requires Waits(r, k.live, i in k.started)
    requires AsksForTunnel(k.clients[i]) ==> AsksForTunnel(r)
    requires i in k.composed && Recorded(k.clients[i], k.composed[i], k.tunnel) ==> Recorded(r, k.composed[i], k.tunnel)
    ensures HeadInv(k')
  {
    if k.tunnel {
      var j :| 0 <= j < |k.clients| && j in k.started && AsksForTunnel(k.clients[j]);
      assert AsksForTunnel(k'.clients[j]);
    }
  }

  lemma StartKeepsHeads(s: Socket, k: Conn, i: nat)
    requires HeadInv(k) && ClientInv(k) && i < |k.clients| && k.live && i in k.responses && i !in k.started
    ensures HeadInv(OnStart(s, k, i).conn)
  {
    var k' := OnStart(s, k, i).conn;
    var r := k.clients[i];
    assert ClientOk(r, true, true, false, i < Answered(k)) && Waits(r, true, false);
    assert AsksForTunnel(k'.clients[i]) == AsksForTunnel(r);
    if k'.tunnel {
      if k.tunnel {
        var j :| 0 <= j < |k.clients| && j in k.started && AsksForTunnel(k.clients[j]);
        assert AsksForTunnel(k'.clients[j]);
      } else {
        assert AsksForTunnel(k'.clients[i]);
      }
    }
  }

  lemma AcceptKeepsHeads(s: Socket, k: Conn, i: nat)
    requires HeadInv(k) && ClientInv(k) && i < |k.clients|
    ensures HeadInv(OnResponse(s, k, i).conn)
  {
    var k' := OnResponse(s, k, i).conn;
    assert ClientOk(k.clients[i], k.live, i in k.responses, i in k.started, i < Answered(k));
    assert Waits(k.clients[i], k.live, i in k.started);
    assert k.clients == k.clients[i := k.clients[i]];
    OneKeepsHeads(k, k', i, k'.clients[i]);
  }

  lemma PrematureKeepsHeads(k: Conn, i: nat)
    requires HeadInv(k) && i < |k.clients| && !k.live
    ensures HeadInv(Premature(k, i))
  {
    assert Waits(k.clients[i], k.live, i in k.started);
    OneKeepsHeads(k, Premature(k, i), i, Premature(k, i).clients[i]);
  }

  lemma BodyKeepsHeads(s: Socket, k: Conn, i: nat)
    requires HeadInv(k) && i < |k.clients| && (k.live ==> i in k.started)
    ensures HeadInv(OnBody(s, k, i).conn)
  {
    var r := k.clients[i];
    assert Waits(r, k.live, i in k.started);
    if r.response.body == [] {
      var r' := r.(done := true, ended := true);
      OneKeepsHeads(k, k.(clients := k.clients[i := r']), i, r');
    } else {
      var data := r.response.body[0];
      var r' := r.(sent := r.sent + [data], response := r.response.(body := r.response.body[1..]));
      OneKeepsHeads(k, k.(wire := k.wire + [data], clients := k.clients[i := r']), i, r');
    }
  }

  lemma FailKeepsHeads(s: Socket, k: Conn, i: nat, page: Response)
    requires HeadInv(k) && ClientInv(k) && i < |k.clients|
    ensures HeadInv(OnRespondFailed(s, k, i, page).conn)
  {
    var k' := OnRespondFailed(s, k, i, page).conn;
    assert ClientOk(k.clients[i], k.live, i in k.responses, i in k.started, i < Answered(k));
    assert Waits(k.clients[i], k.live, i in k.started);
    assert k.clients == k.clients[i := k.clients[i]];
    OneKeepsHeads(k, k', i, k'.clients[i]);
  }

  /** A response that was not accepted yet may become anything. */
  lemma UnacceptedKeepsHeads(k: Conn, i: nat, r: Record)
    requires HeadInv(k) && i < |k.clients| && k.clients[i].accepted.None? && r == k.clients[i].(response := r.response)
    ensures HeadInv(k.(clients := k.clients[i := r]))
  {
    assert Waits(k.clients[i], k.live, i in k.started);
    OneKeepsHeads(k, k.(clients := k.clients[i := r]), i, r);
  }

  /** The handlers of `httperror` events, which leave accepted responses alone. */
  lemma ErrorKeepsHeads(k: Conn, e: Event)
    requires HeadInv(k) && ClientInv(k) && (e.Error? || e.ErrorDone? || e.ErrorFailed?) && e.client.serial < |k.clients|
    ensures HeadInv(Handle(k, e).conn)
  {
    var i := e.client.serial;
    var k' := Handle(k, e).conn;
    assert ClientOk(k.clients[i], k.live, i in k.responses, i in k.started, i < Answered(k));
    if e.ErrorDone? || (k.live && i in k.responses) {
      assert k' == k;
    } else if !k.live {
      PrematureKeepsHeads(k, i);
    } else {
      UnacceptedKeepsHeads(k, i, k'.clients[i]);
      WireIsNoHead(k.(clients := k'.clients), k');
    }
  }

  /** What was written plays no role. */
  lemma WireIsNoHead(k: Conn, k': Conn)
    requires HeadInv(k) && k' == k.(wire := k'.wire, tainted := k'.tainted)
    ensures HeadInv(k')
  {
    if k.tunnel {
      var j :| 0 <= j < |k.clients| && j in k.started && AsksForTunnel(k.clients[j]);
      assert AsksForTunnel(k'.clients[j]);
    }
  }

  lemma HandleKeepsHeads(k: Conn, e: Event)
    requires HeadInv(k) && ClientInv(k) && (e.Close? || e.Check? || e.client.serial < |k.clients|)
    requires e.Start? && k.live ==> e.client.serial in k.responses && e.client.serial !in k.started
    requires e.Body? && k.live ==> e.client.serial in k.started
    ensures HeadInv(Handle(k, e).conn)
  {
    match e
    case Respond(c) => AcceptKeepsHeads(c.socket, k, c.serial);
    case Start(c) =>
      if k.live {
        StartKeepsHeads(c.socket, k, c.serial);
      } else {
        PrematureKeepsHeads(k, c.serial);
      }
    case Body(c) => BodyKeepsHeads(c.socket, k, c.serial);
    case Complete(c) =>
      if !k.live {
        PrematureKeepsHeads(k, c.serial);
      }
    case RespondFailed(c, page) => FailKeepsHeads(c.socket, k, c.serial, page);
    case Error(_, _) => ErrorKeepsHeads(k, e);
    case ErrorDone(_, _) => ErrorKeepsHeads(k, e);
    case ErrorFailed(_) => ErrorKeepsHeads(k, e);
    case Close(_) =>
    case Check(_) =>
  }

  lemma StallKeepsHeads(k: Conn)
    requires HeadInv(k)
    ensures HeadInv(k.(stalled := true))
  {
    if k.tunnel {
      var j :| 0 <= j < |k.clients| && j in k.started && AsksForTunnel(k.clients[j]);
      assert AsksForTunnel(k.(stalled := true).clients[j]);
    }
  }

  lemma RaisingKeepsHeads(k: Conn, e: Event, page: Response)
    requires HeadInv(k) && ClientInv(k) && CanRaise(e) && e.client.serial < |k.clients|
    ensures HeadInv(HandleRaising(k, e, page).conn)
  {
    var k' := HandleRaising(k, e, page).conn;
    match e
    case Respond(c) =>
      AcceptKeepsHeads(c.socket, k, c.serial);
      assert k' == OnResponse(c.socket, k, c.serial).conn;
    case Error(c, p) =>
      ErrorKeepsHeads(k, e);
      assert k' == Handle(k, e).conn;
    case ErrorDone(c, _) =>
      ErrorKeepsHeads(k, ErrorFailed(c));
      assert k' == Handle(k, ErrorFailed(c)).conn;
    case Body(_) =>
      StallKeepsHeads(k);
  }

  lemma {:induction false} AddAllKeepsHeads(k: Conn, batch: seq<Arrival>)
    requires HeadInv(k) && Shape(k) && ClientInv(k)
    ensures HeadInv(AddAll(k, batch))
    decreases |batch|
  {
    if batch == [] {
    } else {
      AddClientKeepsHeads(k, batch[0].connect, batch[0].response);
      AddClientClients(k, batch[0].connect, batch[0].response);
      AddAllKeepsHeads(AddClient(k, batch[0].connect, batch[0].response), batch[1..]);
    }
  }

  lemma AddClientKeepsHeads(k: Conn, connect: bool, response: Response)
    requires HeadInv(k) && Shape(k)
    ensures HeadInv(AddClient(k, connect, response)) && Shape(AddClient(k, connect, response))
  {
    var k' := AddClient(k, connect, response);
    assert Answered(k') == Answered(k);
    if k.tunnel {
      var j :| 0 <= j < |k.clients| && j in k.started && AsksForTunnel(k.clients[j]);
      assert k'.clients[j] == k.clients[j];
    }
  }

  // ----- every run keeps it

  ghost predicate HeadsInv(net: Net) {
    forall s :: 0 <= s < |net.conns| ==> HeadInv(net.conns[s])
  }

  lemma ReadKeepsHeads(net: Net, a: Action)
    requires NetInv(net) && HeadsInv(net) && Enabled(net, a) && (a.Read? || a.ReadFails?)
    ensures HeadsInv(Step(net, a))
  {
    var k := Open(net.conns, a.s)[a.s];
    assert a.s < |net.conns| ==> ConnOk(a.s, net.conns[a.s], net.queue);
    if a.Read? {
      AddAllKeepsHeads(k, a.batch);
    } else {
      AddClientKeepsHeads(k, a.arrival.connect, a.arrival.response);
    }
  }

  lemma DispatchKeepsHeads(net: Net, i: nat)
    requires NetInv(net) && HeadsInv(net) && i < |net.queue|
    ensures HeadsInv(Step(net, Dispatch(i)))
  {
    var e := net.queue[i];
    if Known(net.conns, e) {
      var k := net.conns[e.On()];
      assert ConnOk(e.On(), k, net.queue);
      TokensWithout(net.queue, i, e.On());
      assert e.IsToken() && k.live ==> Pending(e.On(), k) == [e];
      HandleKeepsHeads(k, e);
    }
  }

  lemma ComposeKeepsHeads(net: Net, c: ClientId, response: Response)
    requires NetInv(net) && HeadsInv(net) && Enabled(net, Compose(c, response))
    ensures HeadsInv(Step(net, Compose(c, response)))
  {
    var k := net.conns[c.socket];
    var i := c.serial;
    assert ConnOk(c.socket, k, net.queue);
    assert ClientOk(k.clients[i], k.live, false, i in k.started, i < Answered(k));
    UnacceptedKeepsHeads(k, i, k.clients[i].(response := response));
  }

  lemma StepKeepsHeads(net: Net, a: Action)
    requires NetInv(net) && HeadsInv(net) && Enabled(net, a)
    ensures HeadsInv(Step(net, a))
  {
    match a
    case Read(_, _) => ReadKeepsHeads(net, a);
    case ReadFails(_, _, _) => ReadKeepsHeads(net, a);
    case Compose(c, response) => ComposeKeepsHeads(net, c, response);
    case Dispatch(i) => DispatchKeepsHeads(net, i);
    case Raise(i, page) =>
      assert ConnOk(net.queue[i].On(), net.conns[net.queue[i].On()], net.queue);
      RaisingKeepsHeads(net.conns[net.queue[i].On()], net.queue[i], page);
    case _ =>
  }

  lemma {:induction false} RunKeepsHeads(net: Net, actions: seq<Action>)
    requires NetInv(net) && HeadsInv(net)
    ensures HeadsInv(Run(net, actions))
    decreases |actions|
  {
    if actions == [] {
    } else {
      if Enabled(net, actions[0]) {
        StepKeeps(net, actions[0]);
        StepKeepsHeads(net, actions[0]);
        RunKeepsHeads(Step(net, actions[0]), actions[1..]);
      } else {
        RunKeepsHeads(net, actions[1..]);
      }
    }
  }

  // ----- what follows

  /**
   In every run a connection without replaced responses is a tunnel exactly when the head
   of a response was sent that switches protocols or accepts a CONNECT. A replaced
   response never opens a tunnel.
   */
  lemma TunnelsAreAskedFor(actions: seq<Action>, s: Socket)
    requires s < |Reached(actions).conns|
    ensures var k := Reached(actions).conns[s];
            && (k.tunnel ==> exists i :: 0 <= i < |k.clients| && i in k.started && AsksForTunnel(k.clients[i]))
            && (NoneSwapped(k) && (exists i :: 0 <= i < |k.clients| && i in k.started && AsksForTunnel(k.clients[i])) ==> k.tunnel)
  {
    ReachedInv(actions);
    RunKeepsHeads(INITIAL, actions);
    var k := Reached(actions).conns[s];
    assert ConnOk(s, k, Reached(actions).queue) && HeadInv(k);
    if NoneSwapped(k) && exists i :: 0 <= i < |k.clients| && i in k.started && AsksForTunnel(k.clients[i]) {
      var i :| 0 <= i < |k.clients| && i in k.started && AsksForTunnel(k.clients[i]);
      assert Recorded(k.clients[i], k.composed[i], k.tunnel);
    }
  }

  /**
   In every run, when the response of a connection without replaced responses completes,
   the connection is closed exactly when that response asked for it and it answers the
   last request received; what earlier responses asked for plays no role.
   */
  lemma ClosesAsTheLastResponseAsks(actions: seq<Action>, i: nat)
    requires i < |Reached(actions).queue| && Reached(actions).queue[i].Complete?
    requires var s := Reached(actions).queue[i].On();
             s < |Reached(actions).conns| && Reached(actions).conns[s].live && NoneSwapped(Reached(actions).conns[s])
    ensures var c := Reached(actions).queue[i].client;
            var k := Reached(actions).conns[c.socket];
            && c.serial < |k.clients| && k.clients[c.serial].accepted.Some?
            && (Close(c.socket) in OnComplete(c.socket, k, c.serial).fired
                <==> k.clients[c.serial].accepted.value.close && c.serial + 1 == |k.clients|)
  {
    var net := Reached(actions);
    ReachedInv(actions);
    RunKeepsHeads(INITIAL, actions);
    var c := net.queue[i].client;
    var k := net.conns[c.socket];
    assert ConnOk(c.socket, k, net.queue) && HeadInv(k);
    TokensWithout(net.queue, i, c.socket);
    assert Pending(c.socket, k) == [net.queue[i]];
    CloseAfterTheLast(net, i);
    assert Recorded(k.clients[c.serial], k.composed[c.serial], k.tunnel);
  }
}
