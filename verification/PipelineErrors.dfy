/**
 The cascades of events that a failing answer sets off, each followed from the event that
 begins it to the point where nothing of it is left in the queue.
 */
module PipelineErrors {
  import opened Messages
  import opened Pipeline

  /** Handles the event that was fired last, and so on, `n` times in all. */
  function Followed(net: Net, n: nat): Net
    decreases n
  {
    if n == 0 || net.queue == [] then net else Followed(Step(net, Dispatch(|net.queue| - 1)), n - 1)
  }

  /** The state in which the connection of client `c` is `k` and `more` is pending in place of event `i`. */
  function With(net: Net, i: nat, c: ClientId, k: Conn, more: seq<Event>): Net
    requires i < |net.queue| && c.socket < |net.conns|
  {
    Net(net.conns[c.socket := k], Without(net.queue, i) + more, net.broken)
  }

  /** An event of client `c` that is pending on the connection `k`. */
  predicate Pending(net: Net, i: nat, e: Event, c: ClientId, k: Conn) {
    && i < |net.queue| && net.queue[i] == e && !e.Close? && !e.Check? && e.client == c
    && c.socket < |net.conns| && net.conns[c.socket] == k && c.serial < |k.clients|
  }

  /** One further event of a cascade. */
  lemma Hop(net: Net, i: nat, c: ClientId, k: Conn, more: seq<Event>, e: Event, n: nat, k': Conn, fired: seq<Event>)
    requires i < |net.queue| && c.socket < |net.conns| && c.serial < |k.clients|
    requires e.On() == c.socket && (e.Close? || e.Check? || e.client == c)
    requires Handle(k, e) == Effect(k', fired, false)
    ensures Followed(With(net, i, c, k, more + [e]), n + 1) == Followed(With(net, i, c, k', more + fired), n)
  {
    var q := Without(net.queue, i);
    var net' := With(net, i, c, k, more + [e]);
    assert net'.queue == (q + more) + [e];
    assert Without(net'.queue, |net'.queue| - 1) == q + more;
    assert (q + more) + fired == q + (more + fired);
    assert Known(net'.conns, e);
    assert Step(net', Dispatch(|net'.queue| - 1)) == With(net, i, c, k', more + fired);
  }

  /** The event that begins it. */
  lemma First(net: Net, i: nat, e: Event, c: ClientId, k: Conn)
    requires Pending(net, i, e, c, k) && !Handle(k, e).broken
    ensures Step(net, Dispatch(i)) == With(net, i, c, Handle(k, e).conn, Handle(k, e).fired)
  {
  }

  lemma FirstRaises(net: Net, i: nat, e: Event, c: ClientId, k: Conn, page: Response)
    requires Pending(net, i, e, c, k) && CanRaise(e) && !HandleRaising(k, e, page).broken
    ensures Enabled(net, Raise(i, page))
    ensures Step(net, Raise(i, page)) == With(net, i, c, HandleRaising(k, e, page).conn, HandleRaising(k, e, page).fired)
  {
  }

  /** The start of a response that has become ready, if it is the turn of its client. */
  function Turn(k: Conn, c: ClientId): seq<Event> {
    if k.requests != [] && k.requests[0] == c.serial then [Start(c)] else []
  }

  /** The connection after the response of a client was accepted. */
  function Accepted(k: Conn, i: nat): Conn
    requires i < |k.clients|
  {
    k.(clients := k.clients[i := k.clients[i].(accepted := Some(k.clients[i].response))], responses := k.responses + {i})
  }

  lemma Accepts(k: Conn, c: ClientId)
    requires c.serial < |k.clients| && k.live && c.serial !in k.responses
    ensures Handle(k, Respond(c)) == Effect(Accepted(k, c.serial), Turn(k, c), false)
  {
  }

  lemma AnswersNext(net: Net, i: nat, c: ClientId, k: Conn)
    requires i < |net.queue| && c.socket < |net.conns| && c.serial < |k.clients| && k.live && c.serial !in k.responses
    ensures Followed(With(net, i, c, k, [ErrorDone(c, false)]), 2) == With(net, i, c, Accepted(k, c.serial), Turn(k, c))
  {
    Accepts(k, c);
    Hop(net, i, c, k, [], ErrorDone(c, false), 1, k, [Respond(c)]);
    Hop(net, i, c, k, [], Respond(c), 0, Accepted(k, c.serial), Turn(k, c));
  }

  /**
   An error for a client that waits for its answer: the page becomes its response, and two
   events later it is accepted and, if the client is first, on its way.
   */
  lemma ErrorIsAnswered(net: Net, i: nat, c: ClientId, k: Conn, page: Response)
    requires Pending(net, i, Error(c, page), c, k) && k.live && c.serial !in k.responses
    ensures var r := k.clients[c.serial].(response := page, accepted := Some(page));
            Followed(Step(net, Dispatch(i)), 2)
            == With(net, i, c, k.(clients := k.clients[c.serial := r], responses := k.responses + {c.serial}), Turn(k, c))
  {
    First(net, i, Error(c, page), c, k);
    var k1 := k.(clients := k.clients[c.serial := k.clients[c.serial].(response := page)]);
    assert Handle(k, Error(c, page)) == Effect(k1, [ErrorDone(c, false)], false);
    AnswersNext(net, i, c, k1);
    assert Accepted(k1, c.serial).clients == k.clients[c.serial := k1.clients[c.serial].(accepted := Some(page))];
  }

  /** An error for a client whose response was accepted already changes nothing. */
  lemma LateErrorIsHarmless(net: Net, i: nat, c: ClientId, k: Conn, page: Response)
    requires Pending(net, i, Error(c, page), c, k) && k.live && c.serial in k.responses
    ensures Followed(Step(net, Dispatch(i)), 1) == With(net, i, c, k, [])
  {
    First(net, i, Error(c, page), c, k);
    Hop(net, i, c, k, [], ErrorFailed(c), 0, k, []);
  }

  /** The connection after the bare 500 went out past the pipeline. */
  function Bypassed(k: Conn, i: nat): Conn
    requires i < |k.clients|
  {
    k.(clients := k.clients[i := k.clients[i].(response := BARE_500)],
       wire := k.wire + ["HTTP/1.1 500 Internal Server Error\r\n\r\n"], tainted := true)
  }

  /** And after the socket was closed. */
  function Abandoned(k: Conn, i: nat): Conn
    requires i < |k.clients|
  {
    Bypassed(k, i).(live := false)
  }

  lemma Bypasses(k: Conn, c: ClientId)
    requires c.serial < |k.clients| && k.live && c.serial !in k.responses
    ensures Handle(k, ErrorFailed(c)) == Effect(Bypassed(k, c.serial), [Close(c.socket)], false)
  {
  }

  lemma Abandons(net: Net, i: nat, c: ClientId, k: Conn)
    requires i < |net.queue| && c.socket < |net.conns| && c.serial < |k.clients|
    ensures Followed(With(net, i, c, Bypassed(k, c.serial), [Close(c.socket)]), 1) == With(net, i, c, Abandoned(k, c.serial), [])
  {
    Hop(net, i, c, Bypassed(k, c.serial), [], Close(c.socket), 0, Abandoned(k, c.serial), []);
  }

  lemma FailsAndCloses(net: Net, i: nat, c: ClientId, k: Conn)
    requires i < |net.queue| && c.socket < |net.conns| && c.serial < |k.clients| && k.live && c.serial !in k.responses
    ensures Followed(With(net, i, c, k, [ErrorFailed(c)]), 2) == With(net, i, c, Abandoned(k, c.serial), [])
  {
    Bypasses(k, c);
    Hop(net, i, c, k, [], ErrorFailed(c), 1, Bypassed(k, c.serial), [Close(c.socket)]);
    Abandons(net, i, c, k);
  }

  /**
   Where the error itself fails, a bare 500 goes out past the pipeline and the connection
   is closed; likewise if the page cannot be encoded.
   */
  lemma FailingErrorCloses(net: Net, i: nat, e: Event, c: ClientId, k: Conn, page: Response)
    requires Pending(net, i, e, c, k) && k.live && c.serial !in k.responses
    requires e == ErrorFailed(c) || e == ErrorDone(c, false)
    ensures var net1 := if e.ErrorFailed? then Step(net, Dispatch(i)) else Step(net, Raise(i, page));
            Followed(net1, 1) == With(net, i, c, Abandoned(k, c.serial), [])
  {
    Bypasses(k, c);
    Abandons(net, i, c, k);
    if e.ErrorFailed? {
      First(net, i, e, c, k);
    } else {
      FirstRaises(net, i, e, c, k, page);
    }
  }

  /** Likewise if another handler of `httperror` raises. */
  lemma RaisingErrorCloses(net: Net, i: nat, c: ClientId, k: Conn, page: Response, p: Response)
    requires Pending(net, i, Error(c, p), c, k) && k.live && c.serial !in k.responses
    ensures Followed(Step(net, Raise(i, page)), 2) == With(net, i, c, Abandoned(k, c.serial), [])
  {
    FirstRaises(net, i, Error(c, p), c, k, page);
    var k1 := k.(clients := k.clients[c.serial := k.clients[c.serial].(response := p)]);
    assert HandleRaising(k, Error(c, p), page) == Effect(k1, [ErrorFailed(c)], false);
    FailsAndCloses(net, i, c, k1);
    assert Bypassed(k1, c.serial) == Bypassed(k, c.serial);
  }

  /** The record of a client whose `response` event failed. */
  predicate Replaced(before: Record, after: Record) {
    && after.response == BARE_500 && after.done && after.failed
    && after == before.(response := after.response, done := true, failed := true, swapped := after.swapped, lost := after.lost)
  }

  lemma Refuses(k: Conn, c: ClientId, page: Response) returns (r: Record)
    requires c.serial < |k.clients| && k.live && !k.clients[c.serial].done
    ensures Replaced(k.clients[c.serial], r)
    ensures Handle(k, RespondFailed(c, page)) == Effect(k.(clients := k.clients[c.serial := r]), [Error(c, page)], false)
  {
    r := Handle(k, RespondFailed(c, page)).conn.clients[c.serial];
  }

  lemma Ignores(net: Net, i: nat, c: ClientId, k: Conn, more: seq<Event>, page: Response)
    requires i < |net.queue| && c.socket < |net.conns| && c.serial < |k.clients| && k.live && c.serial in k.responses
    ensures Followed(With(net, i, c, k, more + [Error(c, page)]), 2) == With(net, i, c, k, more)
  {
    Hop(net, i, c, k, more, Error(c, page), 1, k, [ErrorFailed(c)]);
    Hop(net, i, c, k, more, ErrorFailed(c), 0, k, []);
    assert more + [] == more;
  }

  lemma Replaces(net: Net, i: nat, c: ClientId, k: Conn, more: seq<Event>, page: Response) returns (r: Record)
    requires i < |net.queue| && c.socket < |net.conns| && c.serial < |k.clients|
    requires k.live && c.serial in k.responses && !k.clients[c.serial].done
    ensures Replaced(k.clients[c.serial], r)
    ensures Followed(With(net, i, c, k, more + [RespondFailed(c, page)]), 3)
            == With(net, i, c, k.(clients := k.clients[c.serial := r]), more)
  {
    r := Refuses(k, c, page);
    var k1 := k.(clients := k.clients[c.serial := r]);
    Hop(net, i, c, k, more, RespondFailed(c, page), 2, k1, [Error(c, page)]);
    Ignores(net, i, c, k1, more, page);
  }

  /**
   A second `response` event for a client that is not done: three events later nothing is
   pending of it, and the client is done with a bare 500 in place of its response.
   */
  lemma SecondResponseReplaces(net: Net, i: nat, c: ClientId, k: Conn)
    requires Pending(net, i, Respond(c), c, k) && k.live && c.serial in k.responses && !k.clients[c.serial].done
    ensures exists r :: Replaced(k.clients[c.serial], r)
                        && Followed(Step(net, Dispatch(i)), 3) == With(net, i, c, k.(clients := k.clients[c.serial := r]), [])
  {
    First(net, i, Respond(c), c, k);
    var r := Replaces(net, i, c, k, [], BARE_500);
  }

  /** For a client that is done it changes nothing. */
  lemma SecondResponseAfterTheEnd(net: Net, i: nat, c: ClientId, k: Conn)
    requires Pending(net, i, Respond(c), c, k) && k.live && c.serial in k.responses && k.clients[c.serial].done
    ensures Followed(Step(net, Dispatch(i)), 1) == With(net, i, c, k, [])
  {
    First(net, i, Respond(c), c, k);
    Hop(net, i, c, k, [], RespondFailed(c, BARE_500), 0, k, []);
  }

  /**
   Another handler raises in the first `response` event of a client: the response is
   accepted all the same, and at the end of the cascade a bare 500 has taken its place; if
   the client is first, that is what the start of its response finds.
   */
  lemma RaisingResponseReplaces(net: Net, i: nat, c: ClientId, k: Conn, page: Response)
    requires Pending(net, i, Respond(c), c, k) && k.live && c.serial !in k.responses && !k.clients[c.serial].done
    ensures exists r :: Replaced(k.clients[c.serial].(accepted := Some(k.clients[c.serial].response)), r)
                        && Followed(Step(net, Raise(i, page)), 3)
                           == With(net, i, c, k.(clients := k.clients[c.serial := r], responses := k.responses + {c.serial}), Turn(k, c))
  {
    var r1 := k.clients[c.serial].(accepted := Some(k.clients[c.serial].response));
    var k1 := k.(clients := k.clients[c.serial := r1], responses := k.responses + {c.serial});
    FirstRaises(net, i, Respond(c), c, k, page);
    assert HandleRaising(k, Respond(c), page) == Effect(k1, Turn(k, c) + [RespondFailed(c, page)], false);
    var r := Replaces(net, i, c, k1, Turn(k, c), page);
    assert k1.clients[c.serial := r] == k.clients[c.serial := r];
  }

  /** The body iterator raises: nothing more is written, and the connection is closed. */
  lemma RaisingBodyCloses(net: Net, i: nat, c: ClientId, k: Conn, page: Response)
    requires Pending(net, i, Body(c), c, k)
    ensures Followed(Step(net, Raise(i, page)), 1) == With(net, i, c, k.(stalled := true, live := false), [])
  {
    FirstRaises(net, i, Body(c), c, k, page);
    Hop(net, i, c, k.(stalled := true), [], Close(c.socket), 0, k.(stalled := true, live := false), []);
  }

  /** With the connection gone nothing is written; the body is closed, and no event is left. */
  lemma NobodyListens(net: Net, i: nat, e: Event, c: ClientId, k: Conn)
    requires Pending(net, i, e, c, k) && !k.live
    requires e.Respond? || e.Start? || e.Complete? || e.Error? || e.ErrorFailed? || (e.RespondFailed? && !k.clients[c.serial].done)
    ensures var r := k.clients[c.serial];
            var closed := k.(clients := k.clients[c.serial := r.(response := r.response.(body := []))]);
            Followed(Step(net, Dispatch(i)), if e.Error? then 1 else 0) == With(net, i, c, closed, [])
  {
    First(net, i, e, c, k);
    if e.Error? {
      Hop(net, i, c, Handle(k, e).conn, [], ErrorDone(c, true), 0, Handle(k, e).conn, []);
    }
  }
}
