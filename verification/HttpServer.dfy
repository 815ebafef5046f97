/**
 The server component with its mutable state: the table of connections, the state object
 of each connection and the event queue. The ghost field `net` is the value the fields
 stand for; every method moves it by the step function of `Pipeline`, so that what is
 proved of all runs there holds of this object whatever is called in whatever order.
 */
module HttpServer {
  import opened Messages
  import P = Pipeline
  import opened PipelineRuns

  class State {
    var requests: seq<nat>
    var responses: set<nat>
    var responseStarted: set<nat>
    var composed: map<nat, bool>
    var timeout: Option<nat>
    var tunnel: bool
    // the objects that events and sleeping timers refer to, by serial number
    var clients: seq<P.Record>
    var timers: seq<P.Timer>
    // history: the blocks written to the socket, and what went wrong
    ghost var wire: seq<Bytes>
    ghost var tainted: bool
    ghost var stalled: bool

    constructor ()
      ensures View(true) == P.FRESH
    {
      requests, responses, responseStarted, composed := [], {}, {}, map[];
      timeout, tunnel, clients, timers := None, false, [], [];
      wire, tainted, stalled := [], false, false;
    }

    ghost function View(live: bool): P.Conn
      reads this
    {
      P.Conn(live, requests, responses, responseStarted, composed, tunnel, timeout, timers, clients, wire, tainted, stalled)
    }

    method SetClient(i: nat, r: P.Record)
      requires i < |clients|
      modifies this`clients
      ensures clients == old(clients)[i := r]
    {
      clients := clients[i := r];
    }

    method AddClient(connect: bool, response: Response)
      modifies this`requests, this`clients
      ensures View(true) == P.AddClient(old(View(true)), connect, response)
    {
      requests := requests + [|clients|];
      clients := clients + [P.Record(connect, response, false, [], false, None, false, false, false)];
    }

    method AddClients(batch: seq<P.Arrival>)
      modifies this`requests, this`clients
      ensures View(true) == P.AddAll(old(View(true)), batch)
    {
      for j := 0 to |batch|
        invariant P.AddAll(View(true), batch[j..]) == P.AddAll(old(View(true)), batch)
      {
        AddClient(batch[j].connect, batch[j].response);
        assert batch[j..][1..] == batch[j+1..];
      }
    }

    /** Remembers that the response of client `i` is ready. */
    method Accept(i: nat)
      requires i < |clients|
      modifies this`responses, this`clients
      ensures responses == old(responses) + {i}
      ensures clients == old(clients)[i := old(clients)[i].(accepted := Some(old(clients)[i].response))]
    {
      responses := responses + {i};
      clients := clients[i := clients[i].(accepted := Some(clients[i].response))];
    }

    /** Writes the head of the response of client `i`. */
    method SendHead(s: Socket, i: nat)
      requires i < |clients|
      modifies this
      ensures View(true) == P.OnStart(s, old(View(true)), i).conn
    {
      var client := clients[i];
      var response := client.response;
      responseStarted := responseStarted + {i};
      if response.status == 101 || (client.connect && 200 <= response.status < 300) {
        tunnel := true;
      }
      composed := composed[i := response.close];
      wire := wire + [response.head];
      clients := clients[i := client.(sent := client.sent + [response.head])];
    }

    /** Takes the next chunk out of the body of client `i` and writes it; at the end of the body marks the client done. */
    method SendChunk(s: Socket, i: nat) returns (more: bool)
      requires i < |clients|
      modifies this`wire, this`clients
      ensures forall live :: View(live) == P.OnBody(s, old(View(live)), i).conn
      ensures more == (old(clients)[i].response.body != [])
    {
      var client := clients[i];
      var body := client.response.body;
      more := body != [];
      if more {
        wire := wire + [body[0]];
        clients := clients[i := client.(sent := client.sent + [body[0]], response := client.response.(body := body[1..]))];
      } else {
        clients := clients[i := client.(done := true, ended := true)];
      }
    }

    /** Takes the finished client `i` off the pipeline and tells what comes next; not `ok` if the pipeline says otherwise. */
    method PopHead(s: Socket, i: nat) returns (ok: bool, next: seq<P.Event>)
      requires i < |clients|
      modifies this`requests
      ensures P.Effect(View(true), next, !ok) == P.OnComplete(s, old(View(true)), i)
    {
      next := [];
      if requests == [] || requests[0] != i {
        return false, [];
      }
      requests := requests[1..];
      if requests == [] {
        ok := i in composed;
        if ok && composed[i] {
          next := [P.Close(s)];
        }
      } else {
        ok := true;
        if requests[0] in responses && requests[0] !in responseStarted {
          next := [P.Start(P.ClientId(s, requests[0]))];
        }
      }
    }

    /** The response is replaced after a failed `response` event. */
    method Fail(s: Socket, i: nat, ghost page: Response)
      requires i < |clients| && !clients[i].done
      modifies this`clients
      ensures View(true) == P.OnRespondFailed(s, old(View(true)), i, page).conn
    {
      var client := clients[i];
      clients := clients[i := client.(response := BARE_500, done := true, failed := true,
                                      swapped := client.swapped || i in responses,
                                      lost := client.lost || (i in responses && P.Loses(client, i in responseStarted)))];
    }

    /** Replaces the idle timer by a new one. */
    method RestartTimer()
      modifies this`timers, this`timeout
      ensures !tunnel ==> View(true) == P.OnCheck(old(View(true))).conn
    {
      if timeout.Some? && timeout.value < |timers| {
        timers := timers[timeout.value := timers[timeout.value].(aborted := true)];
      }
      timeout := Some(|timers|);
      timers := timers + [P.Timer(false, true)];
    }

    /** Whether every client in the pipeline is done. */
    method AllDone() returns (done: bool)
      ensures done == P.AllDone(View(true))
    {
      for j := 0 to |requests|
        invariant forall n :: 0 <= n < j ==> requests[n] < |clients| && clients[requests[n]].done
      {
        if requests[j] >= |clients| || !clients[requests[j]].done {
          return false;
        }
      }
      return true;
    }
  }

  /** A read is the admission of its socket and then the handling of what it brings. */
  lemma ReadIsAppend(net: P.Net, s: Socket, batch: seq<P.Arrival>)
    requires P.Enabled(net, P.Read(s, batch))
    ensures var open := net.(conns := P.Open(net.conns, s));
            var k := open.conns[s];
            P.Step(net, P.Read(s, batch))
            == P.Apply(open, s, P.Effect(if k.tunnel then k else P.AddAll(k, batch), [P.Check(s)], false), net.queue)
  {
  }

  /** The `n` clients of a socket from number `first` on. */
  function Arrivals(s: Socket, first: nat, n: nat): seq<P.ClientId> {
    seq(n, j requires 0 <= j < n => P.ClientId(s, first + j))
  }

  class HTTP {
    var buffers: map<Socket, State>
    var queue: seq<P.Event>
    // set where the source would raise an AssertionError or a KeyError
    var broken: bool
    // every state ever made; events and timers keep using it after its entry in the table is gone
    var states: seq<State>
    ghost var net: P.Net

    ghost predicate Valid()
      reads this, states
    {
      && (forall i, j :: 0 <= i < j < |states| ==> states[i] != states[j])
      && (forall s :: s in buffers ==> s < |states| && buffers[s] == states[s])
      && |net.conns| == |states|
      && (forall i :: 0 <= i < |states| ==> net.conns[i] == states[i].View(i in buffers))
      && net.queue == queue
      && net.broken == broken
    }

    ghost predicate Has(c: P.ClientId)
      reads this, states
    {
      c.socket < |states| && c.serial < |states[c.socket].clients|
    }

    constructor ()
      ensures Valid() && net == P.INITIAL
    {
      buffers, queue, broken, states := map[], [], false, [];
      net := P.INITIAL;
    }

    method Fire(e: P.Event)
      requires Valid()
      modifies this`queue, this`net
      ensures Valid() && net == old(net).(queue := old(net).queue + [e])
    {
      queue := queue + [e];
      net := net.(queue := queue);
    }

    /** Fires what a handler fires; `net` moves by the effect of the whole handler. */
    method Finish(ghost s: Socket, ghost effect: P.Effect, fired: seq<P.Event>)
      requires s < |states| == |net.conns|
      requires forall i, j :: 0 <= i < j < |states| ==> states[i] != states[j]
      requires forall o :: o in buffers ==> o < |states| && buffers[o] == states[o]
      requires forall i :: 0 <= i < |states| && i != s ==> net.conns[i] == states[i].View(i in buffers)
      requires net.queue == queue && broken == (net.broken || effect.broken)
      requires effect == P.Effect(states[s].View(s in buffers), fired, effect.broken)
      modifies this`queue, this`net
      ensures Valid() && net == P.Apply(old(net), s, effect, old(net).queue)
    {
      queue := queue + fired;
      net := P.Apply(net, s, effect, net.queue);
    }

    /** `_premature_client_disconnect` */
    method PrematureClientDisconnect(c: P.ClientId, fired: seq<P.Event>)
      requires Valid() && Has(c)
      modifies this`queue, this`net, states
      ensures Valid()
      ensures net == P.Apply(old(net), c.socket, P.Effect(P.Premature(old(net).conns[c.socket], c.serial), fired, false), old(net).queue)
    {
      var state := states[c.socket];
      var client := state.clients[c.serial];
      ghost var effect := P.Effect(P.Premature(net.conns[c.socket], c.serial), fired, false);
      state.SetClient(c.serial, client.(response := client.response.(body := [])));
      Finish(c.socket, effect, fired);
    }

    /** `_on_response` */
    method OnResponse(c: P.ClientId)
      requires Valid() && Has(c)
      modifies this`queue, this`net, states
      ensures Valid()
      ensures net == P.Apply(old(net), c.socket, P.OnResponse(c.socket, old(net).conns[c.socket], c.serial), old(net).queue)
    {
      if c.socket !in buffers {
        PrematureClientDisconnect(c, []);
        return;
      }
      var state := buffers[c.socket];
      ghost var effect := P.OnResponse(c.socket, net.conns[c.socket], c.serial);
      if c.serial in state.responses {
        Finish(c.socket, effect, [P.RespondFailed(c, BARE_500)]);
        return;
      }
      state.Accept(c.serial);
      var pipeline := state.requests;
      if pipeline == [] || pipeline[0] != c.serial {
        Finish(c.socket, effect, []);
        return;
      }
      Finish(c.socket, effect, [P.Start(c)]);
    }

    /** `_on_response_start` */
    method OnResponseStart(c: P.ClientId)
      requires Valid() && Has(c)
      modifies this`queue, this`net, states
      ensures Valid()
      ensures net == P.Apply(old(net), c.socket, P.OnStart(c.socket, old(net).conns[c.socket], c.serial), old(net).queue)
    {
      if c.socket !in buffers {
        PrematureClientDisconnect(c, []);
        return;
      }
      ghost var effect := P.OnStart(c.socket, net.conns[c.socket], c.serial);
      buffers[c.socket].SendHead(c.socket, c.serial);
      Finish(c.socket, effect, [P.Body(c)]);
    }

    /** `_on_response_body` */
    method OnResponseBody(c: P.ClientId)
      requires Valid() && Has(c)
      modifies this`queue, this`net, states
      ensures Valid()
      ensures net == P.Apply(old(net), c.socket, P.OnBody(c.socket, old(net).conns[c.socket], c.serial), old(net).queue)
    {
      ghost var effect := P.OnBody(c.socket, net.conns[c.socket], c.serial);
      var more := states[c.socket].SendChunk(c.socket, c.serial);
      Finish(c.socket, effect, [if more then P.Body(c) else P.Complete(c)]);
    }

    /** `_on_response_complete` */
    method OnResponseComplete(c: P.ClientId)
      requires Valid() && Has(c)
      modifies this`queue, this`net, this`broken, states
      ensures Valid()
      ensures net == P.Apply(old(net), c.socket, P.OnComplete(c.socket, old(net).conns[c.socket], c.serial), old(net).queue)
    {
      if c.socket !in buffers {
        PrematureClientDisconnect(c, []);
        return;
      }
      var state := buffers[c.socket];
      ghost var effect := P.OnComplete(c.socket, net.conns[c.socket], c.serial);
      var ok, fired := state.PopHead(c.socket, c.serial);
      broken := broken || !ok;
      Finish(c.socket, effect, fired);
    }

    /** `_on_handle_httperror` and, unless that one stops the event, `_on_httperror`; `raising` if another handler raises. */
    method OnHttpError(c: P.ClientId, page: Response, raising: bool)
      requires Valid() && Has(c)
      modifies this`queue, this`net, states
      ensures Valid()
      ensures var f := P.OnError(c.socket, old(net).conns[c.socket], c.serial, page);
              net == P.Apply(old(net), c.socket, if raising then f.(fired := [P.ErrorFailed(c)]) else f, old(net).queue)
    {
      if c.socket !in buffers {
        PrematureClientDisconnect(c, [if raising then P.ErrorFailed(c) else P.ErrorDone(c, true)]);
        return;
      }
      var state := buffers[c.socket];
      ghost var f := P.OnError(c.socket, net.conns[c.socket], c.serial, page);
      ghost var effect := if raising then f.(fired := [P.ErrorFailed(c)]) else f;
      if c.serial in state.responses {
        Finish(c.socket, effect, [P.ErrorFailed(c)]);
        return;
      }
      state.SetClient(c.serial, state.clients[c.serial].(response := page));
      Finish(c.socket, effect, [if raising then P.ErrorFailed(c) else P.ErrorDone(c, false)]);
    }

    /** `_on_httperror_success` */
    method OnHttpErrorSuccess(c: P.ClientId, ignored: bool)
      requires Valid() && Has(c)
      modifies this`queue, this`net
      ensures Valid()
      ensures net == P.Apply(old(net), c.socket, P.OnErrorDone(c.socket, old(net).conns[c.socket], c.serial, ignored), old(net).queue)
    {
      ghost var effect := P.OnErrorDone(c.socket, net.conns[c.socket], c.serial, ignored);
      Finish(c.socket, effect, if ignored then [] else [P.Respond(c)]);
    }

    /** `_on_httperror_failure` */
    method OnHttpErrorFailure(c: P.ClientId)
      requires Valid() && Has(c)
      modifies this`queue, this`net, states
      ensures Valid()
      ensures net == P.Apply(old(net), c.socket, P.OnErrorFailed(c.socket, old(net).conns[c.socket], c.serial), old(net).queue)
    {
      if c.socket !in buffers {
        PrematureClientDisconnect(c, []);
        return;
      }
      var state := buffers[c.socket];
      ghost var effect := P.OnErrorFailed(c.socket, net.conns[c.socket], c.serial);
      if c.serial in state.responses {
        Finish(c.socket, effect, []);
        return;
      }
      state.SetClient(c.serial, state.clients[c.serial].(response := BARE_500));
      state.wire := state.wire + [BARE_500.head];
      state.tainted := true;
      Finish(c.socket, effect, [P.Close(c.socket)]);
    }

    /** `_on_response_failure` */
    method OnResponseFailure(c: P.ClientId, page: Response)
      requires Valid() && Has(c)
      modifies this`queue, this`net, states
      ensures Valid()
      ensures net == P.Apply(old(net), c.socket, P.OnRespondFailed(c.socket, old(net).conns[c.socket], c.serial, page), old(net).queue)
    {
      ghost var effect := P.OnRespondFailed(c.socket, net.conns[c.socket], c.serial, page);
      if states[c.socket].clients[c.serial].done {
        Finish(c.socket, effect, []);
      } else if c.socket !in buffers {
        PrematureClientDisconnect(c, []);
      } else {
        buffers[c.socket].Fail(c.socket, c.serial, page);
        Finish(c.socket, effect, [P.Error(c, page)]);
      }
    }

    /** `_on_disconnect_or_close` */
    method OnClose(s: Socket)
      requires Valid() && s < |states|
      modifies this`buffers, this`queue, this`net
      ensures Valid() && net == P.Apply(old(net), s, P.OnClose(old(net).conns[s]), old(net).queue)
    {
      ghost var effect := P.OnClose(net.conns[s]);
      if s in buffers {
        buffers := map o | o in buffers && o != s :: buffers[o];
      }
      Finish(s, effect, []);
    }

    /** The first half of `_check_timeout`, up to the sleep. */
    method CheckTimeout(s: Socket)
      requires Valid() && s < |states|
      modifies this`queue, this`net, states
      ensures Valid() && net == P.Apply(old(net), s, P.OnCheck(old(net).conns[s]), old(net).queue)
    {
      ghost var effect := P.OnCheck(net.conns[s]);
      if s in buffers && !buffers[s].tunnel {
        buffers[s].RestartTimer();
      }
      Finish(s, effect, []);
    }

    /** The second half of `_check_timeout`, when the timer `t` wakes up; the state may be out of the table by then. */
    method WakeUp(s: Socket, t: nat)
      requires Valid() && s < |states| && t < |states[s].timers| && states[s].timers[t].pending
      modifies this`queue, this`net, states
      ensures Valid() && net == P.Step(old(net), P.Expire(s, t))
    {
      ghost var effect := P.OnExpire(s, net.conns[s], t);
      var state := states[s];
      var done := state.AllDone();
      var fired := if state.timers[t].aborted || state.tunnel || !done then [] else [P.Close(s)];
      state.timers := state.timers[t := state.timers[t].(pending := false)];
      Finish(s, effect, fired);
    }

    // ----- the dispatcher

    /** Takes the `i`-th pending event out of the queue. */
    method Take(i: nat) returns (e: P.Event)
      requires Valid() && i < |queue|
      modifies this`queue, this`net
      ensures Valid() && e == old(queue)[i] && net == old(net).(queue := P.Without(old(queue), i))
    {
      e := queue[i];
      queue := queue[..i] + queue[i+1..];
      net := net.(queue := queue);
    }

    /** Calls the handler for an event. */
    method Handle(e: P.Event)
      requires Valid() && P.Known(net.conns, e)
      modifies this`queue, this`net, this`broken, this`buffers, states
      ensures Valid() && net == P.Apply(old(net), e.On(), P.Handle(old(net).conns[e.On()], e), old(net).queue)
    {
      match e {
        case Respond(c) => OnResponse(c);
        case Start(c) => OnResponseStart(c);
        case Body(c) => OnResponseBody(c);
        case Complete(c) => OnResponseComplete(c);
        case RespondFailed(c, page) => OnResponseFailure(c, page);
        case Error(c, page) => OnHttpError(c, page, false);
        case ErrorDone(c, ignored) => OnHttpErrorSuccess(c, ignored);
        case ErrorFailed(c) => OnHttpErrorFailure(c);
        case Close(s) => OnClose(s);
        case Check(s) => CheckTimeout(s);
      }
    }

    /** Handles the `i`-th pending event; in any state a run can reach the source's assertion and lookup succeed. */
    method Dispatch(i: nat)
      requires Valid() && NetInv(net) && i < |queue|
      modifies this`queue, this`net, this`broken, this`buffers, states
      ensures Valid() && net == P.Step(old(net), P.Dispatch(i))
      ensures NetInv(net) && !broken
    {
      StepKeeps(net, P.Dispatch(i));
      var e := Take(i);
      if e.On() < |states| && (e.Close? || e.Check? || e.client.serial < |states[e.On()].clients|) {
        Handle(e);
      }
    }

    /** `_on_response` while another handler of the event raises. */
    method OnResponseRaising(c: P.ClientId, page: Response)
      requires Valid() && Has(c)
      modifies this`queue, this`net, states
      ensures Valid()
      ensures net == P.Apply(old(net), c.socket, P.HandleRaising(old(net).conns[c.socket], P.Respond(c), page), old(net).queue)
    {
      var refused := c.socket in buffers && c.serial in states[c.socket].responses;
      ghost var f := P.OnResponse(c.socket, net.conns[c.socket], c.serial);
      ghost var f' := P.HandleRaising(net.conns[c.socket], P.Respond(c), page);
      assert f' == f.(fired := f.fired + if refused then [] else [P.RespondFailed(c, page)]);
      OnResponse(c);
      if !refused {
        assert (old(net).queue + f.fired) + [P.RespondFailed(c, page)] == old(net).queue + f'.fired;
        Fire(P.RespondFailed(c, page));
      }
    }

    /** `_on_response_body` when the body iterator raises, and `_on_exception` after it. */
    method OnResponseBodyRaising(c: P.ClientId, ghost page: Response)
      requires Valid() && Has(c)
      modifies this`queue, this`net, states
      ensures Valid()
      ensures net == P.Apply(old(net), c.socket, P.HandleRaising(old(net).conns[c.socket], P.Body(c), page), old(net).queue)
    {
      ghost var effect := P.HandleRaising(net.conns[c.socket], P.Body(c), page);
      states[c.socket].stalled := true;
      Finish(c.socket, effect, [P.Close(c.socket)]);
    }

    method HandleRaising(e: P.Event, page: Response)
      requires Valid() && P.Known(net.conns, e) && P.CanRaise(e)
      modifies this`queue, this`net, states
      ensures Valid()
      ensures net == P.Apply(old(net), e.On(), P.HandleRaising(old(net).conns[e.On()], e, page), old(net).queue)
    {
      match e {
        case Respond(c) => OnResponseRaising(c, page);
        case Error(c, p) => OnHttpError(c, p, true);
        case ErrorDone(c, _) => OnHttpErrorFailure(c);
        case Body(c) => OnResponseBodyRaising(c, page);
      }
    }

    /** Handles the `i`-th pending event, during which foreign code raises. */
    method DispatchRaising(i: nat, page: Response)
      requires Valid() && NetInv(net) && P.Enabled(net, P.Raise(i, page))
      modifies this`queue, this`net, states
      ensures Valid() && net == P.Step(old(net), P.Raise(i, page))
      ensures NetInv(net)
    {
      StepKeeps(net, P.Raise(i, page));
      var e := Take(i);
      HandleRaising(e, page);
    }

    // ----- reading

    /** Makes the state for a socket that is read for the first time. */
    method NewState(s: Socket)
      requires Valid() && s == |states|
      modifies this`buffers, this`states, this`net
      ensures Valid() && net == old(net).(conns := old(net).conns + [P.FRESH])
      ensures s in buffers && |states| == s + 1 && states[..s] == old(states) && fresh(states[s])
    {
      ghost var before := states;
      var state := new State();
      assert forall i :: 0 <= i < s ==> before[i] != state;
      states := states + [state];
      buffers := buffers[s := state];
      net := net.(conns := net.conns + [P.FRESH]);
      forall i | 0 <= i < |states| ensures net.conns[i] == states[i].View(i in buffers) {
        if i < s {
          assert states[i] == before[i] && old(net).conns[i] == old(before[i].View(i in buffers));
        }
      }
    }

    /** The state for a socket that is read, which is made if it is missing. */
    method Admit(s: Socket) returns (state: State)
      requires Valid() && (s == |states| || s in buffers)
      modifies this`buffers, this`states, this`net
      ensures Valid() && net == old(net).(conns := P.Open(old(net).conns, s))
      ensures s in buffers && s < |states| && state == states[s]
      ensures s < |old(states)| ==> states == old(states)
      ensures s == |old(states)| ==> states[..s] == old(states) && fresh(state)
    {
      if s !in buffers {
        NewState(s);
      }
      state := buffers[s];
    }

    /** The application sets `client.response`, or parts of it, before it fires its answer. */
    method Compose(c: P.ClientId, response: Response)
      requires Valid() && P.Enabled(net, P.Compose(c, response))
      modifies this`queue, this`net, states
      ensures Valid() && net == P.Step(old(net), P.Compose(c, response))
    {
      var state := states[c.socket];
      state.SetClient(c.serial, state.clients[c.serial].(response := response));
      Finish(c.socket, P.Effect(state.View(c.socket in buffers), [], false), []);
    }

    /** Adds the requests of a read, unless the connection is a tunnel, and fires what goes with them. */
    method Append(s: Socket, batch: seq<P.Arrival>, fired: seq<P.Event>)
      requires Valid() && s in buffers
      modifies this`queue, this`net, states
      ensures Valid()
      ensures var k := old(net).conns[s];
              net == P.Apply(old(net), s, P.Effect(if k.tunnel then k else P.AddAll(k, batch), fired, false), old(net).queue)
    {
      var state := states[s];
      ghost var k := net.conns[s];
      ghost var effect := P.Effect(if k.tunnel then k else P.AddAll(k, batch), fired, false);
      if !state.tunnel {
        state.AddClients(batch);
      }
      Finish(s, effect, fired);
    }

    /** Adds the requests of a read; `routed` are the clients for which a routing event is fired. */
    method Route(s: Socket, batch: seq<P.Arrival>) returns (routed: seq<P.ClientId>)
      requires Valid() && s in buffers
      modifies this`queue, this`net, states
      ensures Valid()
      ensures var k := old(net).conns[s];
              && net == P.Apply(old(net), s, P.Effect(if k.tunnel then k else P.AddAll(k, batch), [P.Check(s)], false), old(net).queue)
              && if k.tunnel then routed == []
                 else |routed| == |batch| && forall j :: 0 <= j < |batch| ==> routed[j] == P.ClientId(s, |k.clients| + j)
    {
      var state := buffers[s];
      routed := if state.tunnel then [] else Arrivals(s, |state.clients|, |batch|);
      Append(s, batch, [P.Check(s)]);
    }

    /**
     `_on_read` when the parser yields complete requests; the `timeout.check` event follows.
     */
    method OnRead(s: Socket, batch: seq<P.Arrival>) returns (routed: seq<P.ClientId>)
      requires Valid() && P.Enabled(net, P.Read(s, batch))
      modifies this, states
      ensures Valid() && net == P.Step(old(net), P.Read(s, batch))
      ensures var k := P.Open(old(net).conns, s)[s];
              if k.tunnel then routed == []
              else |routed| == |batch| && forall j :: 0 <= j < |batch| ==> routed[j] == P.ClientId(s, |k.clients| + j)
    {
      ReadIsAppend(net, s, batch);
      assert s < |states| ==> net.conns[s].live;
      var _ := Admit(s);
      routed := Route(s, batch);
    }

    /** `_timeout`, when a connection is made. */
    method OnConnect(s: Socket)
      requires Valid()
      modifies this`queue, this`net
      ensures Valid() && net == P.Step(old(net), P.Connect(s))
    {
      Fire(P.Check(s));
    }

    /** `_on_read` when the parser raises: the request it was working on gets an error. */
    method OnReadFails(s: Socket, arrival: P.Arrival, page: Response)
      requires Valid() && P.Enabled(net, P.ReadFails(s, arrival, page))
      modifies this, states
      ensures Valid() && net == P.Step(old(net), P.ReadFails(s, arrival, page))
    {
      assert s < |states| ==> net.conns[s].live;
      var state := Admit(s);
      var client := P.ClientId(s, |state.clients|);
      assert P.AddAll(net.conns[s], [arrival]) == P.AddClient(net.conns[s], arrival.connect, arrival.response);
      Append(s, [arrival], if state.tunnel then [P.Check(s)] else [P.Error(client, page), P.Check(s)]);
    }
  }
}
