/**
 Outcomes and the pipeline: what was decided for a client is what gets accepted for it,
 and a server whose requests live the lives of `Lifecycle` decides every client once.
 */
module PipelineOutcomes {
  import opened Messages
  import opened Pipeline
  import opened PipelineInvariant
  import opened PipelineRuns
  import opened PipelineTheorems
  import opened PipelineHistory
  import opened PipelineDiscipline
  import L = Lifecycle

  // ----- what was decided is what gets accepted

  /** The response that an action decides for a client: an error page, or the response as it is. */
  function Decided(net: Net, a: Action): Response
    requires Enabled(net, a) && (a.Fire? || a.ReadFails?)
  {
    if a.ReadFails? then a.page
    else if a.event.Error? then a.event.page
    else net.conns[a.event.client.socket].clients[a.event.client.serial].response
  }

  /** Whether event `e` is on its way to get `page` accepted for client `c`. */
  predicate Carries(conns: seq<Conn>, e: Event, c: ClientId, page: Response)
    requires Exists(conns, c)
  {
    Answering(e, c) && (if e.Error? then e.page else conns[c.socket].clients[c.serial].response) == page
  }

  /** The connection is gone, or `page` was accepted for the client, or a pending event carries it. */
  ghost predicate Kept(net: Net, c: ClientId, page: Response) {
    && Exists(net.conns, c)
    && (net.conns[c.socket].live ==>
          || net.conns[c.socket].clients[c.serial].accepted == Some(page)
          || exists e :: e in net.queue && Carries(net.conns, e, c, page))
  }

  lemma {:induction false} Counted(q: seq<Event>, e: Event, c: ClientId)
    requires e in q && Answering(e, c)
    ensures Count(q, c) >= 1
  {
    if q[0] == e {
    } else {
      Counted(q[1..], e, c);
    }
  }

  lemma CountedTwice(q: seq<Event>, i: nat, e: Event, c: ClientId)
    requires i < |q| && e in q && e != q[i] && Answering(e, c) && Answering(q[i], c)
    ensures Count(q, c) >= 2
  {
    TakenElsewhere(q, i);
    Counted(Without(q, i), e, c);
    CountWithout(q, i, c);
  }

  /** Handling the event that carries the page takes it one step further. */
  lemma CarriedOn(s: Socket, k: Conn, e: Event, i: nat, page: Response)
    requires i < |k.clients| && k.live && i !in k.responses && Answering(e, ClientId(s, i))
    requires (if e.Error? then e.page else k.clients[i].response) == page
    ensures var f := Handle(k, e);
            && i < |f.conn.clients|
            && (f.conn.clients[i].accepted == Some(page)
                || (f.conn.clients[i].response == page && |f.fired| == 1 && Answering(f.fired[0], ClientId(s, i)) && !f.fired[0].Error?))
  {
  }

  /** Handling any other event leaves a client alone whose answer is still on its way. */
  lemma LeftAlone(s: Socket, k: Conn, e: Event, i: nat)
    requires i < |k.clients| && (e.Close? || e.Check? || e.client.serial < |k.clients|) && e.On() == s
    requires !Answering(e, ClientId(s, i)) && !e.RespondFailed? && !e.ErrorFailed?
    requires k.live && e.IsToken() ==> e.client.serial != i
    ensures i < |Handle(k, e).conn.clients|
    ensures k.live ==> Handle(k, e).conn.clients[i] == k.clients[i]
    ensures Handle(k, e).conn.live ==> k.live
  {
  }

  lemma KeptDispatch(net: Net, decided: set<ClientId>, n: nat, c: ClientId, page: Response)
    requires NetInv(net) && Calm(net, decided) && n < |net.queue| && Kept(net, c, page)
    ensures Kept(Step(net, Dispatch(n)), c, page)
  {
    var s := c.socket;
    var k := net.conns[s];
    StepExtends(net, Dispatch(n), s);
    var k' := Step(net, Dispatch(n)).conns[s];
    assert Lasts(k.clients[c.serial], k'.clients[c.serial]);
    if !k.live {
      if Known(net.conns, net.queue[n]) && net.queue[n].On() == s {
        LeftDead(k, net.queue[n]);
      }
    } else if k.clients[c.serial].accepted != Some(page) {
      KeptOnTheWay(net, decided, n, c, page);
    }
  }

  /** A client whose answer is on its way has no other answer on its way, and none that was accepted. */
  lemma OnlyOneOnTheWay(net: Net, decided: set<ClientId>, c: ClientId, page: Response, e: Event)
    requires Calm(net, decided) && Exists(net.conns, c) && e in net.queue && Carries(net.conns, e, c, page)
    ensures Count(net.queue, c) == 1 && c.serial !in net.conns[c.socket].responses
  {
    assert Owed(net.conns, net.queue, decided, c);
    Counted(net.queue, e, c);
  }

  /** No event that sends is pending for a client that was not accepted. */
  lemma NotSending(net: Net, n: nat, c: ClientId)
    requires NetInv(net) && n < |net.queue| && Exists(net.conns, c) && net.conns[c.socket].live
    requires c.serial !in net.conns[c.socket].responses && net.queue[n].IsToken() && net.queue[n].On() == c.socket
    ensures net.queue[n].client.serial != c.serial
  {
    assert ConnOk(c.socket, net.conns[c.socket], net.queue);
    TokensWithout(net.queue, n, c.socket);
  }

  lemma KeptOnTheWay(net: Net, decided: set<ClientId>, n: nat, c: ClientId, page: Response)
    requires NetInv(net) && Calm(net, decided) && n < |net.queue| && Kept(net, c, page)
    requires net.conns[c.socket].live && net.conns[c.socket].clients[c.serial].accepted != Some(page)
    ensures Kept(Step(net, Dispatch(n)), c, page)
  {
    var e0 := net.queue[n];
    var e :| e in net.queue && Carries(net.conns, e, c, page);
    OnlyOneOnTheWay(net, decided, c, page, e);
    if Answering(e0, c) {
      KeptCarried(net, n, c, page, e);
    } else {
      if e0.IsToken() && e0.On() == c.socket {
        NotSending(net, n, c);
      }
      assert e0 in net.queue;
      KeptBeside(net, n, c, page, e);
    }
  }

  lemma KeptBeside(net: Net, n: nat, c: ClientId, page: Response, e: Event)
    requires n < |net.queue| && Exists(net.conns, c) && net.conns[c.socket].live
    requires e in net.queue && Carries(net.conns, e, c, page) && !Answering(net.queue[n], c)
    requires !net.queue[n].RespondFailed? && !net.queue[n].ErrorFailed?
    requires net.queue[n].IsToken() && net.queue[n].On() == c.socket ==> net.queue[n].client.serial != c.serial
    ensures Kept(Step(net, Dispatch(n)), c, page)
  {
    var e0 := net.queue[n];
    var net' := Step(net, Dispatch(n));
    TakenElsewhere(net.queue, n);
    if Known(net.conns, e0) && e0.On() == c.socket {
      LeftAlone(c.socket, net.conns[c.socket], e0, c.serial);
    }
    assert e in net'.queue && Exists(net'.conns, c);
    assert net'.conns[c.socket].live ==> Carries(net'.conns, e, c, page);
  }

  lemma LeftDead(k: Conn, e: Event)
    requires (e.Close? || e.Check? || e.client.serial < |k.clients|) && !k.live
    ensures !Handle(k, e).conn.live
  {
  }

  lemma KeptCarried(net: Net, n: nat, c: ClientId, page: Response, e: Event)
    requires n < |net.queue| && Exists(net.conns, c) && net.conns[c.socket].live && c.serial !in net.conns[c.socket].responses
    requires e in net.queue && Carries(net.conns, e, c, page) && Answering(net.queue[n], c) && Count(net.queue, c) <= 1
    ensures Kept(Step(net, Dispatch(n)), c, page)
  {
    if e != net.queue[n] {
      CountedTwice(net.queue, n, e, c);
    } else {
      var f := Handle(net.conns[c.socket], e);
      CarriedOn(c.socket, net.conns[c.socket], e, c.serial, page);
      var net' := Step(net, Dispatch(n));
      assert net'.conns[c.socket] == f.conn;
      if f.conn.clients[c.serial].accepted != Some(page) {
        assert f.fired[0] in net'.queue && Carries(net'.conns, f.fired[0], c, page);
      }
    }
  }

  /** Everything but handling an event and working on the response leaves the client and the pending events alone. */
  lemma KeptElsewhere(net: Net, a: Action, c: ClientId, page: Response)
    requires NetInv(net) && Enabled(net, a) && Kept(net, c, page)
    requires !a.Dispatch? && !a.Raise? && !(a.Compose? && a.client == c)
    ensures Kept(Step(net, a), c, page)
  {
    var net' := Step(net, a);
    var k := net.conns[c.socket];
    if a.Read? {
      AddAllLosesNothing(k, a.batch, c.serial);
      AddAllStays(k, a.batch);
    }
    assert Exists(net'.conns, c) && net'.conns[c.socket].clients[c.serial] == k.clients[c.serial];
    assert net'.conns[c.socket].live ==> k.live;
    if k.live && k.clients[c.serial].accepted != Some(page) {
      var e :| e in net.queue && Carries(net.conns, e, c, page);
      assert e in net'.queue && Carries(net'.conns, e, c, page);
    }
  }

  lemma {:induction false} AddAllStays(k: Conn, batch: seq<Arrival>)
    ensures AddAll(k, batch).live == k.live
    decreases |batch|
  {
    if batch == [] {
    } else {
      AddAllStays(AddClient(k, batch[0].connect, batch[0].response), batch[1..]);
    }
  }

  predicate Composes(actions: seq<Action>, c: ClientId) {
    exists i :: 0 <= i < |actions| && actions[i].Compose? && actions[i].client == c
  }

  lemma {:induction false} KeptRun(net: Net, decided: set<ClientId>, actions: seq<Action>, c: ClientId, page: Response)
    requires NetInv(net) && Calm(net, decided) && Orderly(net, decided, actions) && Kept(net, c, page)
    requires !Composes(actions, c)
    ensures Kept(Run(net, actions), c, page)
    decreases |actions|
  {
    if actions == [] {
    } else {
      var a := actions[0];
      assert !(a.Compose? && a.client == c);
      forall i | 0 <= i < |actions[1..]| ensures !(actions[1..][i].Compose? && actions[1..][i].client == c) {
        assert actions[1..][i] == actions[i + 1];
      }
      if Enabled(net, a) {
        if a.Dispatch? {
          KeptDispatch(net, decided, a.i, c, page);
        } else {
          KeptElsewhere(net, a, c, page);
        }
        CalmStep(net, decided, a);
        StepKeeps(net, a);
        KeptRun(Step(net, a), decided + Decides(net, a), actions[1..], c, page);
      } else {
        KeptRun(net, decided, actions[1..], c, page);
      }
    }
  }

  /** What is decided is carried by the event that decides it. */
  lemma DecidedIsKept(net: Net, a: Action, c: ClientId)
    requires NetInv(net) && Enabled(net, a) && (a.Fire? || a.ReadFails?) && c in Decides(net, a)
    ensures Kept(Step(net, a), c, Decided(net, a))
  {
    var net' := Step(net, a);
    var e := if a.Fire? then a.event else Error(c, a.page);
    assert Exists(net'.conns, c) && e in net'.queue && Carries(net'.conns, e, c, Decided(net, a));
  }

  lemma {:induction false} OrderlyParts(net: Net, decided: set<ClientId>, a: seq<Action>, b: seq<Action>) returns (more: set<ClientId>)
    requires NetInv(net) && Calm(net, decided) && Orderly(net, decided, a + b)
    ensures NetInv(Run(net, a)) && Calm(Run(net, a), more) && Orderly(Run(net, a), more, b)
    decreases |a|
  {
    if a == [] {
      assert a + b == b;
      more := decided;
    } else {
      assert (a + b)[0] == a[0] && (a + b)[1..] == a[1..] + b;
      if Enabled(net, a[0]) {
        CalmStep(net, decided, a[0]);
        StepKeeps(net, a[0]);
        more := OrderlyParts(Step(net, a[0]), decided + Decides(net, a[0]), a[1..], b);
      } else {
        more := OrderlyParts(net, decided, a[1..], b);
      }
    }
  }

  /**
   In every run that decides no client twice: after an error or a response was decided for
   a client, and as long as nobody works on its response any more, its connection is gone,
   or exactly that error page or response was accepted, or a pending event will see to it.
   At rest it was accepted.
   */
  lemma DecidedIsAccepted(earlier: seq<Action>, a: Action, later: seq<Action>, c: ClientId)
    requires Orderly(INITIAL, {}, earlier + ([a] + later)) && !Composes(later, c)
    requires Enabled(Reached(earlier), a) && (a.Fire? || a.ReadFails?) && c in Decides(Reached(earlier), a)
    ensures var net := Reached(earlier + ([a] + later));
            var page := Decided(Reached(earlier), a);
            && Kept(net, c, page)
            && (net.queue == [] && net.conns[c.socket].live ==> net.conns[c.socket].clients[c.serial].accepted == Some(page))
  {
    var net := Reached(earlier);
    var decided := OrderlyParts(INITIAL, {}, earlier, [a] + later);
    RunAppend(INITIAL, earlier, [a] + later);
    assert ([a] + later)[0] == a && ([a] + later)[1..] == later;
    DecidedIsKept(net, a, c);
    CalmStep(net, decided, a);
    StepKeeps(net, a);
    KeptRun(Step(net, a), decided + Decides(net, a), later, c, Decided(net, a));
  }

  // ----- lives decide once

  /** How often the application fires an event that decides client `c`. */
  function Fires(net: Net, actions: seq<Action>, c: ClientId): nat
    decreases |actions|
  {
    if actions == [] then 0
    else if Enabled(net, actions[0]) then
      (if actions[0].Fire? && c in Decides(net, actions[0]) then 1 else 0) + Fires(Step(net, actions[0]), actions[1..], c)
    else Fires(net, actions[1..], c)
  }

  /** How often the parser's failure decides client `c`. */
  function Refusals(net: Net, actions: seq<Action>, c: ClientId): nat
    decreases |actions|
  {
    if actions == [] then 0
    else if Enabled(net, actions[0]) then
      (if actions[0].ReadFails? && c in Decides(net, actions[0]) then 1 else 0) + Refusals(Step(net, actions[0]), actions[1..], c)
    else Refusals(net, actions[1..], c)
  }

  predicate NothingRaises(actions: seq<Action>) {
    forall i :: 0 <= i < |actions| ==> !actions[i].Raise?
  }

  ghost predicate AtMostOnce(net: Net, decided: set<ClientId>, actions: seq<Action>) {
    forall c :: Fires(net, actions, c) + Refusals(net, actions, c) + (if c in decided then 1 else 0) <= 1
  }

  /** The discipline in terms of numbers: nothing raises, and every client is decided at most once. */
  lemma {:induction false} OrderlyExactly(net: Net, decided: set<ClientId>, actions: seq<Action>)
    ensures Orderly(net, decided, actions) <==> NothingRaises(actions) && AtMostOnce(net, decided, actions)
    decreases |actions|
  {
    if actions == [] {
    } else {
      var a := actions[0];
      RaisesFirst(actions);
      if Enabled(net, a) {
        OrderlyExactly(Step(net, a), decided + Decides(net, a), actions[1..]);
        OnceFirst(net, decided, actions);
      } else {
        OrderlyExactly(net, decided, actions[1..]);
        assert forall c :: Fires(net, actions, c) == Fires(net, actions[1..], c) && Refusals(net, actions, c) == Refusals(net, actions[1..], c);
      }
    }
  }

  lemma RaisesFirst(actions: seq<Action>)
    requires actions != []
    ensures NothingRaises(actions) <==> !actions[0].Raise? && NothingRaises(actions[1..])
  {
    if !actions[0].Raise? && NothingRaises(actions[1..]) {
      forall i | 0 <= i < |actions| ensures !actions[i].Raise? {
        assert i > 0 ==> actions[i] == actions[1..][i - 1];
      }
    }
    if NothingRaises(actions) {
      forall i | 0 <= i < |actions[1..]| ensures !actions[1..][i].Raise? {
        assert actions[1..][i] == actions[i + 1];
      }
    }
  }

  lemma OnceFirst(net: Net, decided: set<ClientId>, actions: seq<Action>)
    requires actions != [] && Enabled(net, actions[0])
    ensures var a := actions[0];
            AtMostOnce(net, decided, actions)
            <==> Decides(net, a) !! decided && AtMostOnce(Step(net, a), decided + Decides(net, a), actions[1..])
  {
    var a := actions[0];
    var net' := Step(net, a);
    var more := decided + Decides(net, a);
    assert forall c :: c in Decides(net, a) ==> a.Fire? || a.ReadFails?;
    if AtMostOnce(net, decided, actions) {
      forall c ensures !(c in Decides(net, a) && c in decided) {
        assert Fires(net, actions, c) + Refusals(net, actions, c) + (if c in decided then 1 else 0) <= 1;
      }
      forall c ensures Fires(net', actions[1..], c) + Refusals(net', actions[1..], c) + (if c in more then 1 else 0) <= 1 {
        assert Fires(net, actions, c) + Refusals(net, actions, c) + (if c in decided then 1 else 0) <= 1;
      }
    }
    if Decides(net, a) !! decided && AtMostOnce(net', more, actions[1..]) {
      forall c ensures Fires(net, actions, c) + Refusals(net, actions, c) + (if c in decided then 1 else 0) <= 1 {
        assert Fires(net', actions[1..], c) + Refusals(net', actions[1..], c) + (if c in more then 1 else 0) <= 1;
      }
    }
  }

  /** A client that is there already is not refused any more. */
  lemma {:induction false} RefusedBefore(net: Net, actions: seq<Action>, c: ClientId)
    requires NetInv(net) && Exists(net.conns, c)
    ensures Refusals(net, actions, c) == 0
    decreases |actions|
  {
    if actions == [] {
    } else if Enabled(net, actions[0]) {
      StepKeeps(net, actions[0]);
      StepExtends(net, actions[0], c.socket);
      RefusedBefore(Step(net, actions[0]), actions[1..], c);
    } else {
      RefusedBefore(net, actions[1..], c);
    }
  }

  lemma {:induction false} RefusedOnce(net: Net, actions: seq<Action>, c: ClientId)
    requires NetInv(net)
    ensures Refusals(net, actions, c) <= 1
    decreases |actions|
  {
    if actions == [] {
    } else if Enabled(net, actions[0]) {
      StepKeeps(net, actions[0]);
      if actions[0].ReadFails? && c in Decides(net, actions[0]) {
        RefusedBefore(Step(net, actions[0]), actions[1..], c);
      } else {
        RefusedOnce(Step(net, actions[0]), actions[1..], c);
      }
    } else {
      RefusedOnce(net, actions[1..], c);
    }
  }

  /** What the application fires for client `c`, in order: whether it is a response. */
  function Fired(net: Net, actions: seq<Action>, c: ClientId): seq<bool>
    decreases |actions|
  {
    if actions == [] then []
    else if Enabled(net, actions[0]) then
      (if actions[0].Fire? && c in Decides(net, actions[0]) then [actions[0].event.Respond?] else [])
      + Fired(Step(net, actions[0]), actions[1..], c)
    else Fired(net, actions[1..], c)
  }

  lemma {:induction false} FiredCounts(net: Net, actions: seq<Action>, c: ClientId)
    ensures |Fired(net, actions, c)| == Fires(net, actions, c)
    decreases |actions|
  {
    if actions == [] {
    } else {
      FiredCounts(if Enabled(net, actions[0]) then Step(net, actions[0]) else net, actions[1..], c);
    }
  }

  /** The handlers that a request meets. */
  datatype Life = Life(domains: seq<L.Handler>, routing: seq<L.Handler>, request: seq<L.Handler>)
  {
    /** What is fired in this life, with one second routing event: whether it is a response. */
    function Fires(): seq<bool> {
      var outcomes := L.Outcomes(domains, routing, request, 1);
      seq(|outcomes|, i requires 0 <= i < |outcomes| => outcomes[i] == L.Answer)
    }
  }

  /** Every request has lived some of its life; a request the parser failed on has none. */
  ghost predicate Lived(actions: seq<Action>, lives: ClientId -> Life) {
    && NothingRaises(actions)
    && forall c ::
         && Fired(INITIAL, actions, c) <= lives(c).Fires()
         && (Refusals(INITIAL, actions, c) > 0 ==> Fired(INITIAL, actions, c) == [])
  }

  /** Lives that fire what `Lifecycle` says keep to the discipline. */
  lemma LivedIsOrderly(actions: seq<Action>, lives: ClientId -> Life)
    requires Lived(actions, lives)
    ensures Orderly(INITIAL, {}, actions)
  {
    forall c ensures Fires(INITIAL, actions, c) + Refusals(INITIAL, actions, c) + (if c in {} then 1 else 0) <= 1 {
      FiredCounts(INITIAL, actions, c);
      L.OneOutcome(lives(c).domains, lives(c).routing, lives(c).request);
      RefusedOnce(INITIAL, actions, c);
    }
    OrderlyExactly(INITIAL, {}, actions);
  }

  /** So the wire carries exactly the accepted responses, in request order. */
  lemma LivesAreOrderly(actions: seq<Action>, lives: ClientId -> Life, s: Socket)
    requires Lived(actions, lives) && s < |Reached(actions).conns|
    ensures Orderly(INITIAL, {}, actions)
    ensures var k := Reached(actions).conns[s];
            var n := Answered(k);
            && 0 <= n <= |k.clients|
            && Flatten(k.wire) == Flatten(Answers(k.clients[..n])) + Flatten(Current(k))
            && (Current(k) != [] ==> n < |k.clients| && k.clients[n].accepted.Some?
                                     && Current(k) <= Render(k.clients[n].accepted.value))
  {
    LivedIsOrderly(actions, lives);
    OneOutcomeMeansExactBytes(actions, s);
  }

  // ----- whoever was decided is answered

  /** Some response is on its way for client `c`, or was accepted, or the connection is gone. */
  ghost predicate Settled(net: Net, c: ClientId) {
    exists page :: Kept(net, c, page)
  }

  /** Working on the response changes what is on its way. */
  lemma SettledCompose(net: Net, c: ClientId, response: Response)
    requires NetInv(net) && Settled(net, c) && Enabled(net, Compose(c, response))
    ensures Settled(Step(net, Compose(c, response)), c)
  {
    var page :| Kept(net, c, page);
    var k := net.conns[c.socket];
    var net' := Step(net, Compose(c, response));
    assert ConnOk(c.socket, k, net.queue);
    assert ClientOk(k.clients[c.serial], k.live, false, c.serial in k.started, c.serial < Answered(k));
    if k.live {
      var e :| e in net.queue && Carries(net.conns, e, c, page);
      assert Carries(net'.conns, e, c, if e.Error? then page else response);
      assert Kept(net', c, if e.Error? then page else response);
    } else {
      assert Kept(net', c, page);
    }
  }

  lemma SettledStep(net: Net, decided: set<ClientId>, a: Action, c: ClientId)
    requires NetInv(net) && Calm(net, decided) && Settled(net, c) && Enabled(net, a) && !a.Raise?
    ensures Settled(Step(net, a), c)
  {
    var page :| Kept(net, c, page);
    if a.Dispatch? {
      KeptDispatch(net, decided, a.i, c, page);
    } else if a.Compose? && a.client == c {
      SettledCompose(net, c, a.response);
    } else {
      KeptElsewhere(net, a, c, page);
    }
  }

  lemma {:induction false} SettledRun(net: Net, decided: set<ClientId>, actions: seq<Action>, c: ClientId)
    requires NetInv(net) && Calm(net, decided) && Orderly(net, decided, actions)
    requires Settled(net, c) || Fires(net, actions, c) + Refusals(net, actions, c) > 0
    ensures Settled(Run(net, actions), c)
    decreases |actions|
  {
    if actions == [] {
    } else {
      var a := actions[0];
      if Enabled(net, a) {
        CalmStep(net, decided, a);
        StepKeeps(net, a);
        if Settled(net, c) {
          SettledStep(net, decided, a, c);
        } else if (a.Fire? || a.ReadFails?) && c in Decides(net, a) {
          DecidedIsKept(net, a, c);
        }
        SettledRun(Step(net, a), decided + Decides(net, a), actions[1..], c);
      } else {
        SettledRun(net, decided, actions[1..], c);
      }
    }
  }

  /**
   If every request of a connection has lived its life to an outcome, or was refused, then
   at rest, with the connection still there, all its responses are on the wire in full.
   */
  lemma LivesSendEverything(actions: seq<Action>, lives: ClientId -> Life, s: Socket)
    requires Lived(actions, lives) && s < |Reached(actions).conns|
    requires Reached(actions).queue == [] && Reached(actions).conns[s].live
    requires forall i: nat :: i < |Reached(actions).conns[s].clients| ==>
               Fires(INITIAL, actions, ClientId(s, i)) + Refusals(INITIAL, actions, ClientId(s, i)) > 0
    ensures var k := Reached(actions).conns[s];
            && (forall i :: 0 <= i < |k.clients| ==> k.clients[i].accepted.Some?)
            && Flatten(k.wire) == Flatten(Answers(k.clients))
  {
    var net := Reached(actions);
    var k := net.conns[s];
    LivedIsOrderly(actions, lives);
    ReachedInv(actions);
    assert ConnOk(s, k, net.queue);
    forall i: nat | i < |k.clients| ensures i in k.responses && k.clients[i].accepted.Some? {
      var c := ClientId(s, i);
      SettledRun(INITIAL, {}, actions, c);
      var page :| Kept(net, c, page);
      assert ClientOk(k.clients[i], k.live, i in k.responses, i in k.started, i < Answered(k));
    }
    OneOutcomeMeansAllBytes(actions, s);
  }
}
