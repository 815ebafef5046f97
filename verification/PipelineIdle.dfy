/**
 The idle timer and what it leaves unsent. A client may be done without having been sent
 anything, if its `response` event failed while it waited; what is owed when the timer
 closes a connection is therefore a matter of who was started.
 */
module PipelineIdle {
  import opened Messages
  import opened Pipeline
  import opened PipelineInvariant
  import opened PipelineRuns
  import opened PipelineTheorems

  // ----- whoever failed was accepted and has nothing left in its body

  ghost predicate FailOk(k: Conn) {
    forall i :: 0 <= i < |k.clients| && k.clients[i].failed ==> i in k.responses && k.clients[i].response.body == []
  }

  /** A failure that is still to be handled is that of an accepted client, or of one whose connection is gone. */
  predicate FailureOk(k: Conn, e: Event) {
    e.RespondFailed? && k.live ==> e.client.serial in k.responses
  }

  ghost predicate FailInv(net: Net) {
    && (forall s :: 0 <= s < |net.conns| ==> FailOk(net.conns[s]))
    && (forall e :: e in net.queue && e.On() < |net.conns| ==> FailureOk(net.conns[e.On()], e))
  }

  lemma OneFailOk(k: Conn, k': Conn, i: nat, r: Record)
    requires FailOk(k) && i < |k.clients| && k'.clients == k.clients[i := r] && k.responses <= k'.responses
    requires r.failed ==> i in k'.responses && r.response.body == []
    ensures FailOk(k')
  {
  }

  /** What a handler leaves of its connection and fires. */
  ghost predicate FailsWell(k: Conn, f: Effect) {
    && FailOk(f.conn)
    && k.responses <= f.conn.responses && (f.conn.live ==> k.live)
    && forall e :: e in f.fired ==> FailureOk(f.conn, e)
  }

  lemma SendingFails(k: Conn, e: Event)
    requires FailOk(k) && e.IsToken() && e.client.serial < |k.clients|
    ensures FailsWell(k, Handle(k, e))
  {
    var i := e.client.serial;
    var k' := Handle(k, e).conn;
    assert k.clients == k.clients[i := k.clients[i]];
    OneFailOk(k, k', i, k'.clients[i]);
  }

  lemma AcceptFails(k: Conn, e: Event)
    requires FailOk(k) && e.Respond? && e.client.serial < |k.clients|
    ensures FailsWell(k, Handle(k, e))
  {
    var i := e.client.serial;
    var k' := Handle(k, e).conn;
    assert k.clients == k.clients[i := k.clients[i]];
    OneFailOk(k, k', i, k'.clients[i]);
  }

  lemma ErrorFails(k: Conn, e: Event)
    requires FailOk(k) && (e.Error? || e.ErrorDone? || e.ErrorFailed?) && e.client.serial < |k.clients|
    ensures FailsWell(k, Handle(k, e))
  {
    var i := e.client.serial;
    var k' := Handle(k, e).conn;
    assert k.clients == k.clients[i := k.clients[i]];
    OneFailOk(k, k', i, k'.clients[i]);
  }

  lemma FailureFails(k: Conn, e: Event)
    requires FailOk(k) && e.RespondFailed? && FailureOk(k, e) && e.client.serial < |k.clients|
    ensures FailsWell(k, Handle(k, e))
  {
    var i := e.client.serial;
    var k' := Handle(k, e).conn;
    assert k.clients == k.clients[i := k.clients[i]];
    OneFailOk(k, k', i, k'.clients[i]);
  }

  lemma HandleFails(k: Conn, e: Event)
    requires FailOk(k) && FailureOk(k, e) && (e.Close? || e.Check? || e.client.serial < |k.clients|)
    ensures FailsWell(k, Handle(k, e))
  {
    if e.IsToken() {
      SendingFails(k, e);
    } else if e.Respond? {
      AcceptFails(k, e);
    } else if e.RespondFailed? {
      FailureFails(k, e);
    } else if !e.Close? && !e.Check? {
      ErrorFails(k, e);
    }
  }

  lemma RaisingFails(k: Conn, e: Event, page: Response)
    requires FailOk(k) && CanRaise(e) && e.client.serial < |k.clients|
    ensures FailsWell(k, HandleRaising(k, e, page))
  {
    match e
    case Respond(_) => AcceptFails(k, e);
    case Error(_, _) => ErrorFails(k, e);
    case ErrorDone(c, _) => ErrorFails(k, ErrorFailed(c));
    case Body(_) =>
  }

  // ----- every run keeps it

  lemma ApplyFails(net: Net, s: Socket, f: Effect, q: seq<Event>)
    requires FailInv(net) && s < |net.conns| && FailsWell(net.conns[s], f)
    requires (forall e :: e in q ==> e in net.queue) && Own(s, |f.conn.clients|, f.fired)
    ensures FailInv(Apply(net, s, f, q))
  {
    var net' := Apply(net, s, f, q);
    forall e | e in net'.queue && e.On() < |net'.conns| ensures FailureOk(net'.conns[e.On()], e) {
      if e in q {
        assert FailureOk(net.conns[e.On()], e);
      }
    }
  }

  lemma DispatchFails(net: Net, a: Action)
    requires NetInv(net) && FailInv(net) && Enabled(net, a) && (a.Dispatch? || a.Raise?)
    ensures FailInv(Step(net, a))
  {
    var e := net.queue[a.i];
    TakenElsewhere(net.queue, a.i);
    assert e in net.queue;
    if Known(net.conns, e) {
      var k := net.conns[e.On()];
      assert ConnOk(e.On(), k, net.queue);
      if a.Dispatch? {
        HandleFails(k, e);
        HandleOwn(k, e);
        ApplyFails(net, e.On(), Handle(k, e), Without(net.queue, a.i));
      } else {
        RaisingFails(k, e, a.page);
        HandleRaisingOwn(k, e, a.page);
        ApplyFails(net, e.On(), HandleRaising(k, e, a.page), Without(net.queue, a.i));
      }
    }
  }

  lemma {:induction false} AddAllFails(k: Conn, batch: seq<Arrival>)
    requires FailOk(k)
    ensures FailOk(AddAll(k, batch)) && AddAll(k, batch).responses == k.responses && AddAll(k, batch).live == k.live
    decreases |batch|
  {
    if batch == [] {
    } else {
      AddAllFails(AddClient(k, batch[0].connect, batch[0].response), batch[1..]);
    }
  }

  /** Connections with new clients, and events that are no failures. */
  lemma GrowFails(net: Net, net': Net)
    requires NetInv(net) && FailInv(net) && |net.conns| <= |net'.conns|
    requires forall s :: 0 <= s < |net'.conns| ==> FailOk(net'.conns[s])
    requires forall s :: 0 <= s < |net.conns| ==>
               net'.conns[s].responses == net.conns[s].responses && net'.conns[s].live == net.conns[s].live
    requires forall e :: e in net'.queue && e.RespondFailed? ==> e in net.queue
    ensures FailInv(net')
  {
    forall e | e in net'.queue && e.On() < |net'.conns| ensures FailureOk(net'.conns[e.On()], e) {
      if e.RespondFailed? {
        assert Known(net.conns, e) && FailureOk(net.conns[e.On()], e);
      }
    }
  }

  lemma ReadLeaves(net: Net, a: Action)
    requires FailInv(net) && Enabled(net, a) && (a.Read? || a.ReadFails?)
    ensures var net' := Step(net, a);
            && |net.conns| <= |net'.conns|
            && (forall s :: 0 <= s < |net'.conns| ==> FailOk(net'.conns[s]))
            && (forall s :: 0 <= s < |net.conns| ==>
                  net'.conns[s].responses == net.conns[s].responses && net'.conns[s].live == net.conns[s].live)
  {
    var k := Open(net.conns, a.s)[a.s];
    assert FailOk(k);
    if a.Read? {
      AddAllFails(k, a.batch);
    } else {
      AddAllFails(k, [a.arrival]);
      assert AddAll(k, [a.arrival]) == AddClient(k, a.arrival.connect, a.arrival.response);
    }
  }

  lemma ReadFailsWell(net: Net, a: Action)
    requires NetInv(net) && FailInv(net) && Enabled(net, a) && (a.Read? || a.ReadFails?)
    ensures FailInv(Step(net, a))
  {
    ReadLeaves(net, a);
    GrowFails(net, Step(net, a));
  }

  lemma StepFails(net: Net, a: Action)
    requires NetInv(net) && FailInv(net) && Enabled(net, a)
    ensures FailInv(Step(net, a))
  {
    match a
    case Dispatch(_) => DispatchFails(net, a);
    case Raise(_, _) => DispatchFails(net, a);
    case Read(_, _) => ReadFailsWell(net, a);
    case ReadFails(_, _, _) => ReadFailsWell(net, a);
    case Expire(s, t) => ApplyFails(net, s, OnExpire(s, net.conns[s], t), net.queue);
    case Disconnect(s) => ApplyFails(net, s, OnClose(net.conns[s]), net.queue);
    case _ => OtherFails(net, a);
  }

  lemma OtherFails(net: Net, a: Action)
    requires FailInv(net) && Enabled(net, a) && (a.Connect? || a.Compose? || a.Fire?)
    ensures FailInv(Step(net, a))
  {
    var net' := Step(net, a);
    forall s | 0 <= s < |net'.conns| ensures FailOk(net'.conns[s]) {
      assert FailOk(net.conns[s]);
    }
  }

  lemma {:induction false} RunFails(net: Net, actions: seq<Action>)
    requires NetInv(net) && FailInv(net)
    ensures FailInv(Run(net, actions))
    decreases |actions|
  {
    if actions == [] {
    } else if Enabled(net, actions[0]) {
      StepKeeps(net, actions[0]);
      StepFails(net, actions[0]);
      RunFails(Step(net, actions[0]), actions[1..]);
    } else {
      RunFails(net, actions[1..]);
    }
  }

  // ----- the idle close

  predicate IsPending(k: Conn, i: nat) {
    Answered(k) <= i < |k.clients|
  }

  /** Whatever is to be sent for the pending clients was sent. */
  predicate OwesNothing(k: Conn) {
    forall i :: 0 <= i < |k.clients| && IsPending(k, i) ==> Promise(k.clients[i], i in k.started) == k.clients[i].sent
  }

  predicate AllStarted(k: Conn) {
    forall i :: 0 <= i < |k.clients| && IsPending(k, i) ==> i in k.started
  }

  /** When all pending clients are done, nothing is owed exactly if they were all started. */
  lemma DoneOwes(k: Conn)
    requires Shape(k) && ClientInv(k) && FailOk(k) && AllDone(k)
    ensures OwesNothing(k) <==> AllStarted(k)
    ensures forall i :: 0 <= i < |k.clients| && IsPending(k, i) && !k.clients[i].failed ==> i in k.started
  {
    forall i | 0 <= i < |k.clients| && IsPending(k, i)
      ensures Promise(k.clients[i], i in k.started) == k.clients[i].sent <==> i in k.started
      ensures !k.clients[i].failed ==> i in k.started
    {
      var r := k.clients[i];
      assert k.requests[i - Answered(k)] == i;
      assert ClientOk(r, k.live, i in k.responses, i in k.started, false);
      assert r.done;
      assert r.sent + [] == r.sent;
    }
  }

  lemma StartedWire(k: Conn)
    requires Shape(k) && ClientInv(k) && k.live && AllStarted(k) && OwesNothing(k)
    ensures |k.requests| <= 1
    ensures NoneLost(k) ==> AllSent(k.clients) == Answers(k.clients)
  {
    if |k.requests| > 1 {
      assert IsPending(k, |k.clients| - 1);
    }
    if NoneLost(k) {
      forall i | 0 <= i < |k.clients|
        ensures k.clients[i].accepted.Some? && k.clients[i].sent == Render(k.clients[i].accepted.value)
      {
        assert ClientOk(k.clients[i], k.live, i in k.responses, i in k.started, i < Answered(k));
        assert IsPending(k, i) ==> i in k.started;
      }
      SentInFull(k.clients);
    }
  }

  /**
   In every run the idle timer closes exactly when it is the current one, no tunnel is open
   and every pending request is done. Nothing is owed then if and only if every pending
   client was started; those whose `response` event did not fail were. In that case at
   most one request is pending, and unless something was lost before, every accepted
   response is on the wire.
   */
  lemma IdleCloseOwesNothing(actions: seq<Action>, s: Socket, t: nat)
    requires Enabled(Reached(actions), Expire(s, t))
    ensures var k := Reached(actions).conns[s];
            var closes := Close(s) in OnExpire(s, k, t).fired;
            && (closes <==> k.timeout == Some(t) && !k.timers[t].aborted && !k.tunnel && AllDone(k))
            && (closes ==> (OwesNothing(k) <==> AllStarted(k)))
            && (closes && (forall i :: 0 <= i < |k.clients| && IsPending(k, i) ==> !k.clients[i].failed) ==> OwesNothing(k))
            && (closes && k.live && OwesNothing(k) ==>
                  |k.requests| <= 1 && (!k.tainted && NoneLost(k) ==> k.wire == Answers(k.clients)))
  {
    var net := Reached(actions);
    var k := net.conns[s];
    ReachedInv(actions);
    RunFails(INITIAL, actions);
    assert ConnOk(s, k, net.queue) && FailOk(k);
    if AllDone(k) {
      DoneOwes(k);
      if k.live && OwesNothing(k) {
        StartedWire(k);
      }
    }
  }

  // ----- idle connections are watched

  /** A timeout that is set is a timer that was not aborted. */
  ghost predicate Armed(k: Conn) {
    k.timeout.Some? ==> k.timeout.value < |k.timers| && !k.timers[k.timeout.value].aborted
  }

  /** A connection that is no tunnel has an idle check pending or a timer. */
  predicate Watched(s: Socket, k: Conn, q: seq<Event>) {
    k.live && !k.tunnel ==> Check(s) in q || k.timeout.Some?
  }

  ghost predicate WatchInv(net: Net) {
    forall s :: 0 <= s < |net.conns| ==> Armed(net.conns[s]) && Watched(s, net.conns[s], net.queue)
  }

  /**
   Handling an idle check of a connection that is there and no tunnel makes a new timer the
   current one, sleeping and able to close, and aborts the one before; the other timers,
   the pipeline and the other connections stay as they are.
   */
  lemma CheckArms(net: Net, i: nat)
    requires i < |net.queue| && net.queue[i].Check? && net.queue[i].socket < |net.conns|
    requires var k := net.conns[net.queue[i].socket];
             k.live && !k.tunnel && Armed(k)
    ensures var s := net.queue[i].socket;
            var k := net.conns[s];
            var net' := Step(net, Dispatch(i));
            && |net'.conns| == |net.conns| && (forall o :: 0 <= o < |net.conns| && o != s ==> net'.conns[o] == net.conns[o])
            && net'.queue == net.queue[..i] + net.queue[i+1..]
            && var k' := net'.conns[s];
               && k' == k.(timers := k'.timers, timeout := k'.timeout)
               && |k'.timers| == |k.timers| + 1
               && k'.timeout == Some(|k.timers|) && k'.timers[|k.timers|] == Timer(false, true)
               && (forall t :: 0 <= t < |k.timers| ==>
                     k'.timers[t] == if k.timeout == Some(t) then k.timers[t].(aborted := true) else k.timers[t])
  {
    assert net.queue[..i] + net.queue[i+1..] + [] == net.queue[..i] + net.queue[i+1..];
  }

  lemma HandleWatches(k: Conn, e: Event)
    requires (e.Close? || e.Check? || e.client.serial < |k.clients|) && Armed(k) && TimerInv(k)
    ensures var k' := Handle(k, e).conn;
            && Armed(k') && (k'.live ==> k.live) && (k.tunnel ==> k'.tunnel) && (k.timeout.Some? ==> k'.timeout.Some?)
            && (e.Check? && k.live && !k.tunnel ==> k'.timeout.Some?)
  {
    if e.IsToken() || e.Respond? {
      SendingTimers(k, e);
    } else if !e.Close? && !e.Check? {
      ErrorTimers(k, e);
    }
  }

  lemma RaisingWatches(k: Conn, e: Event, page: Response)
    requires CanRaise(e) && e.client.serial < |k.clients| && Armed(k)
    ensures var k' := HandleRaising(k, e, page).conn;
            k'.timeout == k.timeout && k'.timers == k.timers && (k'.live ==> k.live) && (k.tunnel ==> k'.tunnel)
  {
  }

  lemma DispatchWatches(net: Net, a: Action)
    requires NetInv(net) && WatchInv(net) && Enabled(net, a) && (a.Dispatch? || a.Raise?)
    ensures WatchInv(Step(net, a))
  {
    var e := net.queue[a.i];
    var net' := Step(net, a);
    TakenElsewhere(net.queue, a.i);
    forall s | 0 <= s < |net'.conns| ensures Armed(net'.conns[s]) && Watched(s, net'.conns[s], net'.queue) {
      var k := net.conns[s];
      assert ConnOk(s, k, net.queue) && Watched(s, k, net.queue);
      assert Check(s) in net.queue && e != Check(s) ==> Check(s) in net'.queue;
      if Known(net.conns, e) && e.On() == s {
        if a.Dispatch? {
          HandleWatches(k, e);
        } else {
          RaisingWatches(k, e, a.page);
        }
      }
    }
  }

  lemma {:induction false} AddAllWatches(k: Conn, batch: seq<Arrival>)
    ensures var k' := AddAll(k, batch);
            k'.timeout == k.timeout && k'.timers == k.timers && k'.live == k.live && k'.tunnel == k.tunnel
    decreases |batch|
  {
    if batch == [] {
    } else {
      AddAllWatches(AddClient(k, batch[0].connect, batch[0].response), batch[1..]);
    }
  }

  lemma StepWatches(net: Net, a: Action)
    requires NetInv(net) && WatchInv(net) && Enabled(net, a)
    ensures WatchInv(Step(net, a))
  {
    var net' := Step(net, a);
    if a.Dispatch? || a.Raise? {
      DispatchWatches(net, a);
    } else {
      if a.Read? {
        AddAllWatches(Open(net.conns, a.s)[a.s], a.batch);
      }
      forall s | 0 <= s < |net'.conns| ensures Armed(net'.conns[s]) && Watched(s, net'.conns[s], net'.queue) {
        if s < |net.conns| {
          assert Armed(net.conns[s]) && Watched(s, net.conns[s], net.queue);
        }
      }
    }
  }

  lemma {:induction false} RunWatches(net: Net, actions: seq<Action>)
    requires NetInv(net) && WatchInv(net)
    ensures WatchInv(Run(net, actions))
    decreases |actions|
  {
    if actions == [] {
    } else if Enabled(net, actions[0]) {
      StepKeeps(net, actions[0]);
      StepWatches(net, actions[0]);
      RunWatches(Step(net, actions[0]), actions[1..]);
    } else {
      RunWatches(net, actions[1..]);
    }
  }

  /** The check of a tunnel, or of a connection that is gone, changes nothing. */
  lemma CheckPasses(net: Net, i: nat)
    requires i < |net.queue| && net.queue[i].Check? && net.queue[i].socket < |net.conns|
    requires var k := net.conns[net.queue[i].socket];
             !k.live || k.tunnel
    ensures Step(net, Dispatch(i)) == net.(queue := net.queue[..i] + net.queue[i+1..])
  {
    assert net.queue[..i] + net.queue[i+1..] + [] == net.queue[..i] + net.queue[i+1..];
  }

  /**
   The check that comes with a new connection finds nothing to watch as long as nothing was
   read: it fires and is gone, and leaves no timer behind.
   */
  lemma NothingReadNothingWatched(net: Net, s: Socket)
    requires s >= |net.conns|
    ensures var net1 := Step(net, Connect(s));
            && net1 == net.(queue := net.queue + [Check(s)])
            && Enabled(net1, Dispatch(|net.queue|)) && Step(net1, Dispatch(|net.queue|)) == net
  {
    assert Without(net.queue + [Check(s)], |net.queue|) == net.queue;
  }

  /**
   In every run a connection that is there and no tunnel has an idle check pending or a
   current timer that was not aborted; and when that timer wakes while every pending
   client is done, the connection is closed.
   */
  lemma IdleConnectionsAreClosed(actions: seq<Action>, s: Socket)
    requires s < |Reached(actions).conns|
    ensures var net := Reached(actions);
            var k := net.conns[s];
            && (k.live && !k.tunnel ==> Check(s) in net.queue || k.timeout.Some?)
            && (k.timeout.Some? ==> k.timeout.value < |k.timers| && !k.timers[k.timeout.value].aborted)
            && (k.timeout.Some? && k.timers[k.timeout.value].pending && !k.tunnel
                && (forall i :: 0 <= i < |k.clients| && IsPending(k, i) ==> k.clients[i].done) ==>
                  Enabled(net, Expire(s, k.timeout.value)) && Close(s) in Step(net, Expire(s, k.timeout.value)).queue)
  {
    ReachedInv(actions);
    RunWatches(INITIAL, actions);
    var net := Reached(actions);
    var k := net.conns[s];
    assert ConnOk(s, k, net.queue) && Armed(k) && Watched(s, k, net.queue);
    if forall i :: 0 <= i < |k.clients| && IsPending(k, i) ==> k.clients[i].done {
      forall j | 0 <= j < |k.requests| ensures k.requests[j] < |k.clients| && k.clients[k.requests[j]].done {
        assert IsPending(k, k.requests[j]);
      }
      assert AllDone(k);
    }
  }
}
