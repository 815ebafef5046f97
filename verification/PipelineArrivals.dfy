/**
 The requests of a connection and the order in which they arrive: the clients of a
 connection are, one by one, the requests that its reads brought, and they wait in the
 pipeline in that order.
 */
module PipelineArrivals {
  import opened Messages
  import opened Pipeline
  import opened PipelineInvariant
  import opened PipelineRuns
  import opened PipelineTheorems
  import opened PipelineHistory

  /** A client that has just arrived: nothing was accepted, sent or done for it. */
  predicate JustArrived(r: Record, arrival: Arrival) {
    && r.connect == arrival.connect && r.response == arrival.response
    && !r.done && !r.ended && !r.failed && !r.swapped && !r.lost
    && r.accepted == None && r.sent == []
  }

  /** `k'` is `k` with some more requests behind all others, in their order. */
  ghost predicate Arrives(k: Conn, batch: seq<Arrival>, k': Conn) {
    && |k'.clients| == |k.clients| + |batch| && |k'.requests| == |k.requests| + |batch|
    && (forall i :: 0 <= i < |k.clients| ==> k'.clients[i] == k.clients[i])
    && (forall i :: 0 <= i < |k.requests| ==> k'.requests[i] == k.requests[i])
    && (forall j :: 0 <= j < |batch| ==>
          JustArrived(k'.clients[|k.clients| + j], batch[j]) && k'.requests[|k.requests| + j] == |k.clients| + j)
    && k' == k.(clients := k'.clients, requests := k'.requests)
  }

  lemma {:induction false} AddAllArrives(k: Conn, batch: seq<Arrival>)
    ensures Arrives(k, batch, AddAll(k, batch))
    decreases |batch|
  {
    if batch == [] {
    } else {
      var k1 := AddClient(k, batch[0].connect, batch[0].response);
      AddAllArrives(k1, batch[1..]);
      var k' := AddAll(k, batch);
      forall j | 0 <= j < |batch|
        ensures JustArrived(k'.clients[|k.clients| + j], batch[j]) && k'.requests[|k.requests| + j] == |k.clients| + j
      {
        if j > 0 {
          assert batch[j] == batch[1..][j - 1];
          assert k'.clients[|k1.clients| + (j - 1)] == k'.clients[|k.clients| + j];
          assert k'.requests[|k1.requests| + (j - 1)] == k'.requests[|k.requests| + j];
        } else {
          assert k'.clients[|k.clients|] == k1.clients[|k.clients|] && k'.requests[|k.requests|] == k1.requests[|k.requests|];
        }
      }
    }
  }

  /** What a read brings, given whether the connection is a tunnel. */
  function Brings(a: Action, s: Socket, tunnel: bool): seq<Arrival> {
    if tunnel then []
    else match a
      case Read(o, batch) => if o == s then batch else []
      case ReadFails(o, arrival, _) => if o == s then [arrival] else []
      case _ => []
  }

  /** The state of a connection; before it is first read there is nothing. */
  function ConnOf(net: Net, s: Socket): Conn {
    if s < |net.conns| then net.conns[s] else FRESH
  }

  /**
   A read appends its requests to those of its connection, in their order, and changes
   nothing else; afterwards the idle check is pending, and for a request that the parser
   failed on its error.
   */
  lemma ReadArrives(net: Net, a: Action)
    requires Enabled(net, a) && (a.Read? || a.ReadFails?)
    ensures var k := ConnOf(net, a.s);
            var net' := Step(net, a);
            && a.s < |net'.conns| && Arrives(k, Brings(a, a.s, k.tunnel), net'.conns[a.s])
            && |net'.conns| == (if a.s < |net.conns| then |net.conns| else |net.conns| + 1)
            && (forall o :: 0 <= o < |net.conns| && o != a.s ==> net'.conns[o] == net.conns[o])
            && net'.queue == net.queue + (if a.ReadFails? && !k.tunnel then [Error(ClientId(a.s, |k.clients|), a.page)] else []) + [Check(a.s)]
  {
    var k := ConnOf(net, a.s);
    if a.Read? {
      AddAllArrives(k, a.batch);
    } else {
      AddAllArrives(k, [a.arrival]);
      assert AddAll(k, [a.arrival]) == AddClient(k, a.arrival.connect, a.arrival.response);
    }
    assert Arrives(k, [], k);
  }

  /** The requests that the reads of a run bring to a connection, in order. */
  function Brought(net: Net, actions: seq<Action>, s: Socket): seq<Arrival>
    decreases |actions|
  {
    if actions == [] then []
    else if Enabled(net, actions[0]) then
      Brings(actions[0], s, ConnOf(net, s).tunnel) + Brought(Step(net, actions[0]), actions[1..], s)
    else Brought(net, actions[1..], s)
  }

  /** Some clients, and behind them those of the requests `more`. */
  ghost predicate Grown(cs: seq<Record>, more: seq<Arrival>, cs': seq<Record>) {
    && |cs'| == |cs| + |more|
    && (forall i :: 0 <= i < |cs| ==> cs'[i].connect == cs[i].connect)
    && (forall j :: 0 <= j < |more| ==> cs'[|cs| + j].connect == more[j].connect)
  }

  lemma ArrivalsGrow(k: Conn, batch: seq<Arrival>, k': Conn)
    requires Arrives(k, batch, k')
    ensures Grown(k.clients, batch, k'.clients)
  {
    assert forall j :: 0 <= j < |batch| ==> JustArrived(k'.clients[|k.clients| + j], batch[j]);
  }

  lemma ReadBrings(net: Net, a: Action, s: Socket)
    requires Enabled(net, a) && (a.Read? || a.ReadFails?)
    ensures Grown(ConnOf(net, s).clients, Brings(a, s, ConnOf(net, s).tunnel), ConnOf(Step(net, a), s).clients)
  {
    ReadArrives(net, a);
    var k, k' := ConnOf(net, s), ConnOf(Step(net, a), s);
    if a.s == s {
      ArrivalsGrow(k, Brings(a, s, k.tunnel), k');
    } else {
      assert k' == k;
    }
  }

  lemma DispatchBrings(net: Net, a: Action, s: Socket)
    requires NetInv(net) && Enabled(net, a) && (a.Dispatch? || a.Raise?)
    ensures Grown(ConnOf(net, s).clients, [], ConnOf(Step(net, a), s).clients)
  {
    var e := net.queue[a.i];
    if Known(net.conns, e) && e.On() == s {
      if a.Dispatch? {
        HandleConnects(net.conns[s], e);
      } else {
        RaisingConnects(net.conns[s], e, a.page);
      }
    }
  }

  /** In one step the clients of a connection stay the ones they were, and those behind them are what a read brought. */
  lemma StepBrings(net: Net, a: Action, s: Socket)
    requires NetInv(net) && Enabled(net, a)
    ensures Grown(ConnOf(net, s).clients, Brings(a, s, ConnOf(net, s).tunnel), ConnOf(Step(net, a), s).clients)
  {
    match a
    case Read(_, _) => ReadBrings(net, a, s);
    case ReadFails(_, _, _) => ReadBrings(net, a, s);
    case Dispatch(_) => DispatchBrings(net, a, s);
    case Raise(_, _) => DispatchBrings(net, a, s);
    case _ =>
  }

  lemma HandleConnects(k: Conn, e: Event)
    requires e.Close? || e.Check? || e.client.serial < |k.clients|
    ensures |Handle(k, e).conn.clients| == |k.clients|
    ensures forall i :: 0 <= i < |k.clients| ==> Handle(k, e).conn.clients[i].connect == k.clients[i].connect
  {
    if !e.Close? && !e.Check? {
      var k' := Handle(k, e).conn;
      assert k.clients == k.clients[e.client.serial := k.clients[e.client.serial]];
      assert k'.clients == k.clients[e.client.serial := k'.clients[e.client.serial]];
    }
  }

  lemma RaisingConnects(k: Conn, e: Event, page: Response)
    requires CanRaise(e) && e.client.serial < |k.clients|
    ensures |HandleRaising(k, e, page).conn.clients| == |k.clients|
    ensures forall i :: 0 <= i < |k.clients| ==> HandleRaising(k, e, page).conn.clients[i].connect == k.clients[i].connect
  {
    if e.ErrorDone? {
      HandleConnects(k, ErrorFailed(e.client));
    } else if !e.Body? {
      HandleConnects(k, e);
    }
  }

  lemma {:induction false} RunBrings(net: Net, actions: seq<Action>, s: Socket)
    requires NetInv(net)
    ensures Grown(ConnOf(net, s).clients, Brought(net, actions, s), ConnOf(Run(net, actions), s).clients)
    decreases |actions|
  {
    if actions == [] {
    } else if Enabled(net, actions[0]) {
      var net1 := Step(net, actions[0]);
      StepKeeps(net, actions[0]);
      StepBrings(net, actions[0], s);
      RunBrings(net1, actions[1..], s);
      GrownFurther(ConnOf(net, s).clients, Brings(actions[0], s, ConnOf(net, s).tunnel), ConnOf(net1, s).clients,
                   Brought(net1, actions[1..], s), ConnOf(Run(net, actions), s).clients);
    } else {
      RunBrings(net, actions[1..], s);
    }
  }

  lemma GrownFurther(a: seq<Record>, more: seq<Arrival>, b: seq<Record>, later: seq<Arrival>, c: seq<Record>)
    requires Grown(a, more, b) && Grown(b, later, c)
    ensures Grown(a, more + later, c)
  {
    forall j | 0 <= j < |more + later| ensures c[|a| + j].connect == (more + later)[j].connect {
      if j < |more| {
        assert c[|a| + j].connect == b[|a| + j].connect;
      } else {
        assert c[|b| + (j - |more|)].connect == later[j - |more|].connect;
      }
    }
  }

  /**
   In every run the clients of a connection are, one by one, the requests that its reads
   brought, and the pipeline holds those not answered yet, in the order of arrival.
   */
  lemma ClientsAreArrivals(actions: seq<Action>, s: Socket)
    requires s < |Reached(actions).conns|
    ensures var k := Reached(actions).conns[s];
            var arrivals := Brought(INITIAL, actions, s);
            && |k.clients| == |arrivals|
            && (forall i :: 0 <= i < |arrivals| ==> k.clients[i].connect == arrivals[i].connect)
            && |k.requests| <= |k.clients|
            && (forall j :: 0 <= j < |k.requests| ==> k.requests[j] == |k.clients| - |k.requests| + j)
  {
    RunBrings(INITIAL, actions, s);
    ReachedInv(actions);
    assert ConnOk(s, Reached(actions).conns[s], Reached(actions).queue);
  }
}
