/**
 The promises of the pipeline, read off the invariant: responses in request order, one
 driving event per connection, connections closed only when nothing is owed, and an idle
 timer that does not cut a response short.
 */
module PipelineTheorems {
  import opened Messages
  import opened Pipeline
  import opened PipelineInvariant
  import opened PipelineRuns

  /** The server after a run. */
  function Reached(actions: seq<Action>): Net {
    Run(INITIAL, actions)
  }

  lemma ReachedInv(actions: seq<Action>)
    ensures NetInv(Reached(actions))
  {
    RunKeeps(INITIAL, actions);
  }

  /** The accepted responses of some clients, rendered one after the other. */
  function Answers(clients: seq<Record>): seq<Bytes> {
    if clients == [] then []
    else (if clients[0].accepted.Some? then Render(clients[0].accepted.value) else []) + Answers(clients[1..])
  }

  predicate NoneSwapped(k: Conn) {
    forall i :: 0 <= i < |k.clients| ==> !k.clients[i].swapped
  }

  predicate NoneLost(k: Conn) {
    forall i :: 0 <= i < |k.clients| ==> !k.clients[i].lost
  }

  /** What was written for the client at the head of the pipeline. */
  function Current(k: Conn): seq<Bytes> {
    if 0 <= Answered(k) < |k.clients| then k.clients[Answered(k)].sent else []
  }

  lemma {:induction false} SentInFull(clients: seq<Record>)
    requires forall i :: 0 <= i < |clients| ==>
               clients[i].accepted.Some? && clients[i].sent == Render(clients[i].accepted.value)
    ensures AllSent(clients) == Answers(clients)
  {
    if clients == [] {
    } else {
      SentInFull(clients[1..]);
    }
  }

  /** Nothing was written for those behind the head. */
  lemma LaterUnsent(k: Conn)
    requires Shape(k) && ClientInv(k)
    ensures AllSent(k.clients[Answered(k)..]) == Current(k)
  {
    var n := Answered(k);
    var later := k.clients[n..];
    if n < |k.clients| {
      forall r | r in later[1..] ensures r.sent == [] {
        var i :| 1 <= i < |later| && later[i] == r;
        assert n + i !in k.started && k.clients[n + i] == r;
      }
      NothingSent(later[1..]);
    }
  }

  /** Clients whose response was accepted and sent to the end, none of them replaced. */
  lemma AnsweredInFull(k: Conn, n: nat)
    requires ClientInv(k) && NoneLost(k) && n <= |k.clients|
    requires k.live || n <= Answered(k)
    requires forall i :: 0 <= i < n ==> i < Answered(k) || k.clients[i].ended
    ensures forall i :: 0 <= i < n ==> k.clients[i].accepted.Some?
    ensures AllSent(k.clients[..n]) == Answers(k.clients[..n])
  {
    forall i | 0 <= i < n
      ensures k.clients[i].accepted.Some? && k.clients[i].sent == Render(k.clients[i].accepted.value)
    {
      assert ClientOk(k.clients[i], k.live, i in k.responses, i in k.started, i < Answered(k));
      assert k.clients[i].sent + [] == k.clients[i].sent;
    }
    SentInFull(k.clients[..n]);
  }

  /** The wire in terms of the clients: those answered, then the head, and nothing for the others. */
  lemma WireSplits(k: Conn)
    requires Shape(k) && ClientInv(k) && k.wire == AllSent(k.clients)
    ensures k.wire == AllSent(k.clients[..Answered(k)]) + Current(k)
    ensures NoneLost(k) ==> AllSent(k.clients[..Answered(k)]) == Answers(k.clients[..Answered(k)])
  {
    var n := Answered(k);
    assert k.clients == k.clients[..n] + k.clients[n..];
    AllSentAppend(k.clients[..n], k.clients[n..]);
    LaterUnsent(k);
    if NoneLost(k) {
      AnsweredInFull(k, n);
    }
  }

  /**
   In every run the bytes on a connection are the complete responses to its first
   requests, in the order in which these arrived, and then a beginning of the response
   to the next one; the bytes of two responses never mix. (Section 6.3.2 of RFC 7230.)
   */
  lemma ResponsesInRequestOrder(actions: seq<Action>, s: Socket)
    requires s < |Reached(actions).conns| && !Reached(actions).conns[s].tainted
    requires NoneLost(Reached(actions).conns[s])
    ensures var k := Reached(actions).conns[s];
            var n := Answered(k);
            && 0 <= n <= |k.clients|
            && Flatten(k.wire) == Flatten(Answers(k.clients[..n])) + Flatten(Current(k))
            && (forall i :: 0 <= i < n ==> k.clients[i].accepted.Some?)
            && (Current(k) != [] ==> n < |k.clients| && k.clients[n].accepted.Some?
                                     && Current(k) <= Render(k.clients[n].accepted.value))
  {
    ReachedInv(actions);
    var net := Reached(actions);
    var k := net.conns[s];
    assert ConnOk(s, k, net.queue);
    WireSplits(k);
    var n := Answered(k);
    FlattenAppend(Answers(k.clients[..n]), Current(k));
    forall i | 0 <= i < |k.clients| ensures ClientOk(k.clients[i], k.live, i in k.responses, i in k.started, i < n) {
    }
  }

  /** Even if responses were replaced on their way, what is written for two clients does not mix. */
  lemma NoInterleaving(actions: seq<Action>, s: Socket)
    requires s < |Reached(actions).conns| && !Reached(actions).conns[s].tainted
    ensures var k := Reached(actions).conns[s];
            0 <= Answered(k) <= |k.clients| && k.wire == AllSent(k.clients[..Answered(k)]) + Current(k)
  {
    ReachedInv(actions);
    assert ConnOk(s, Reached(actions).conns[s], Reached(actions).queue);
    WireSplits(Reached(actions).conns[s]);
  }

  /**
   In every run the assertion and the lookup in `response.complete` succeed, and a
   connection in the table has exactly the one driving event that its head calls for:
   none unless the head was accepted, and a start only if it was not started.
   */
  lemma OneTokenPerConnection(actions: seq<Action>, s: Socket)
    requires s < |Reached(actions).conns|
    ensures !Reached(actions).broken
    ensures |Tokens(Reached(actions).queue, s)| <= 1
    ensures var k := Reached(actions).conns[s];
            k.live ==> Tokens(Reached(actions).queue, s) == Pending(s, k)
    ensures var k := Reached(actions).conns[s];
            k.live && !k.stalled ==>
              (Tokens(Reached(actions).queue, s) != [] <==> k.requests != [] && k.requests[0] in k.responses)
    // a body iterator that raised leaves the connection to be closed
    ensures Reached(actions).conns[s].live && Reached(actions).conns[s].stalled ==> Close(s) in Reached(actions).queue
  {
    ReachedInv(actions);
    assert ConnOk(s, Reached(actions).conns[s], Reached(actions).queue);
  }

  /**
   `response.complete` fires a close exactly when the response asked for it and nothing
   else was received; by then every request of the connection was answered in full and
   in order, whatever earlier responses asked for.
   */
  lemma CloseAfterTheLast(net: Net, i: nat)
    requires NetInv(net) && i < |net.queue| && net.queue[i].Complete?
    requires net.conns[net.queue[i].On()].live
    ensures var c := net.queue[i].client;
            var k := net.conns[c.socket];
            var f := OnComplete(c.socket, k, c.serial);
            && (Close(c.socket) in f.fired <==> c.serial + 1 == |k.clients| && c.serial in k.composed && k.composed[c.serial])
            && (Close(c.socket) in f.fired && !k.tainted ==>
                  && f.conn.requests == []
                  && f.conn.wire == AllSent(k.clients)
                  && (NoneLost(k) ==> f.conn.wire == Answers(k.clients)))
  {
    var c := net.queue[i].client;
    var s := c.socket;
    var k := net.conns[s];
    var f := OnComplete(s, k, c.serial);
    assert ConnOk(s, k, net.queue);
    TokensWithout(net.queue, i, s);
    assert Pending(s, k) == [net.queue[i]];
    assert k.requests[0] == Answered(k) == c.serial;
    if Close(s) in f.fired && NoneLost(k) {
      AnsweredInFull(k, |k.clients|);
      assert k.clients[..|k.clients|] == k.clients;
    }
  }

  // ----- the idle timer

  /** In every run at most one sleeping timer of a connection can still do anything: the current one. */
  lemma OneIdleTimer(actions: seq<Action>, s: Socket, t: nat, u: nat)
    requires s < |Reached(actions).conns|
    requires var ts := Reached(actions).conns[s].timers;
             t < |ts| && u < |ts| && ts[t].pending && !ts[t].aborted && ts[u].pending && !ts[u].aborted
    ensures t == u && Reached(actions).conns[s].timeout == Some(t)
  {
    ReachedInv(actions);
    assert ConnOk(s, Reached(actions).conns[s], Reached(actions).queue);
  }

  // ----- failed responses

  /**
   A failed `response` event, for instance a second one for the same client, replaces a
   response that was accepted. What the client will have been sent in the end stays the
   same exactly when the client was done; or its head was sent and its body had nothing
   left to yield; or it still waits, and its response is no other than the bare 500. If the
   head was sent, what remains is a beginning of the response.
   */
  lemma FailedResponseTruncates(s: Socket, k: Conn, i: nat, page: Response)
    requires i < |k.clients| && k.live && i in k.responses
    ensures var before := k.clients[i];
            var after := OnRespondFailed(s, k, i, page).conn.clients[i];
            var started := i in k.started;
            && (Promise(after, started) == Promise(before, started)
                <==> before.done
                     || (if started then before.response.body == [] else Render(before.response) == Render(BARE_500)))
            && (started ==> Promise(after, started) <= Promise(before, started))
            && (after.lost <==> before.lost || Promise(after, started) != Promise(before, started))
  {
    var r := k.clients[i];
    var after := OnRespondFailed(s, k, i, page).conn.clients[i];
    if !r.done && i in k.started {
      assert Promise(after, true) == r.sent + [];
      assert r.sent + [] == r.sent;
    }
  }

  /**
   In every run: a client that was answered was sent exactly the response accepted for it
   if and only if it lost nothing to a failed `response` event; and while the connection is
   there, the same holds of what any accepted client will have been sent.
   */
  lemma InFullUnlessLost(actions: seq<Action>, s: Socket, i: nat)
    requires s < |Reached(actions).conns| && i < |Reached(actions).conns[s].clients|
    ensures var k := Reached(actions).conns[s];
            var r := k.clients[i];
            && (i < Answered(k) ==> r.accepted.Some? && (r.sent == Render(r.accepted.value) <==> !r.lost))
            && (k.live && r.accepted.Some? ==> (Promise(r, i in k.started) == Render(r.accepted.value) <==> !r.lost))
  {
    ReachedInv(actions);
    var k := Reached(actions).conns[s];
    var r := k.clients[i];
    assert ConnOk(s, k, Reached(actions).queue);
    assert ClientOk(r, k.live, i in k.responses, i in k.started, i < Answered(k));
    assert r.sent + [] == r.sent;
  }

  // A run in which an application fires `response` twice for one request.
  const FIRST: ClientId := ClientId(0, 0)
  const ANSWER: Response := Response(200, "head", ["body"], false)

  function Lone(requests: seq<nat>, answered: bool, started: bool, wire: seq<Bytes>, r: Record): Conn {
    Conn(true, requests, if answered then {0} else {}, if started then {0} else {},
         if started then map[0 := false] else map[], false, None, [], [r], wire, false, false)
  }

  const ASKED: Record := Record(false, ANSWER, false, [], false, None, false, false, false)
  const CHOSEN: Record := ASKED.(accepted := Some(ANSWER))
  const HALFWAY: Record := CHOSEN.(sent := ["head"])
  const REPLACED: Record := HALFWAY.(response := BARE_500, done := true, failed := true, swapped := true, lost := true)
  const CUT: Record := REPLACED.(ended := true)

  /** Whether some run leads from one state to another. */
  ghost predicate Leads(net: Net, net': Net) {
    exists actions :: Run(net, actions) == net'
  }

  lemma LeadsOn(net: Net, net': Net, a: Action)
    requires Leads(net, net') && Enabled(net', a)
    ensures Leads(net, Step(net', a))
  {
    var actions :| Run(net, actions) == net';
    RunAppend(net, actions, [a]);
    assert Run(net', [a]) == Step(net', a);
    assert Run(net, actions + [a]) == Step(net', a);
  }

  /** A dispatch on a server with one connection. */
  lemma LeadsDispatch(net: Net, k: Conn, q: seq<Event>, i: nat, k': Conn, q': seq<Event>)
    requires Leads(net, Net([k], q, false))
    requires i < |q| && q[i].On() == 0 && !q[i].Close? && !q[i].Check? && q[i].client.serial < |k.clients|
    requires Handle(k, q[i]).conn == k' && !Handle(k, q[i]).broken
    requires q' == q[..i] + q[i+1..] + Handle(k, q[i]).fired
    ensures Leads(net, Net([k'], q', false))
  {
    LeadsOn(net, Net([k], q, false), Dispatch(i));
    assert [k][0 := k'] == [k'];
    assert Step(Net([k], q, false), Dispatch(i)) == Net([k'], q', false);
  }

  lemma LeadsFire(net: Net, k: Conn, q: seq<Event>, e: Event, q': seq<Event>)
    requires Leads(net, Net([k], q, false)) && e.Respond? && e.client.socket == 0 && e.client.serial < |k.clients|
    requires q' == q + [e]
    ensures Leads(net, Net([k], q', false))
  {
    LeadsOn(net, Net([k], q, false), Fire(e));
  }

  lemma FirstHandlers()
    ensures AddAll(FRESH, [Arrival(false, ANSWER)]) == Lone([0], false, false, [], ASKED)
    ensures Handle(Lone([0], false, false, [], ASKED), Respond(FIRST)) == Effect(Lone([0], true, false, [], CHOSEN), [Start(FIRST)], false)
    ensures Handle(Lone([0], true, false, [], CHOSEN), Start(FIRST)) == Effect(Lone([0], true, true, ["head"], HALFWAY), [Body(FIRST)], false)
  {
    assert AddAll(FRESH, [Arrival(false, ANSWER)]) == AddClient(FRESH, false, ANSWER);
    assert [] + ["head"] == ["head"];
  }

  lemma SecondHandlers()
    ensures Handle(Lone([0], true, true, ["head"], HALFWAY), Respond(FIRST))
            == Effect(Lone([0], true, true, ["head"], HALFWAY), [RespondFailed(FIRST, BARE_500)], false)
    ensures Handle(Lone([0], true, true, ["head"], HALFWAY), RespondFailed(FIRST, BARE_500))
            == Effect(Lone([0], true, true, ["head"], REPLACED), [Error(FIRST, BARE_500)], false)
    ensures Handle(Lone([0], true, true, ["head"], REPLACED), Body(FIRST))
            == Effect(Lone([0], true, true, ["head"], CUT), [Complete(FIRST)], false)
    ensures Handle(Lone([0], true, true, ["head"], CUT), Complete(FIRST))
            == Effect(Lone([], true, true, ["head"], CUT), [], false)
  {
  }

  lemma FirstRead()
    ensures Leads(INITIAL, Net([Lone([0], false, false, [], ASKED)], [Check(0)], false))
  {
    FirstHandlers();
    assert Run(INITIAL, []) == INITIAL;
    LeadsOn(INITIAL, INITIAL, Read(0, [Arrival(false, ANSWER)]));
    assert Open([], 0)[0 := Lone([0], false, false, [], ASKED)] == [Lone([0], false, false, [], ASKED)];
  }

  lemma HeadIsSent()
    ensures Leads(INITIAL, Net([Lone([0], true, true, ["head"], HALFWAY)], [Check(0), Body(FIRST)], false))
  {
    FirstRead();
    FirstHandlers();
    var k1 := Lone([0], false, false, [], ASKED);
    var k2 := Lone([0], true, false, [], CHOSEN);
    var k3 := Lone([0], true, true, ["head"], HALFWAY);
    LeadsFire(INITIAL, k1, [Check(0)], Respond(FIRST), [Check(0), Respond(FIRST)]);
    LeadsDispatch(INITIAL, k1, [Check(0), Respond(FIRST)], 1, k2, [Check(0), Start(FIRST)]);
    LeadsDispatch(INITIAL, k2, [Check(0), Start(FIRST)], 1, k3, [Check(0), Body(FIRST)]);
  }

  /** A second `response` event for a client, and its body never reaches the wire, though the pipeline moves on. */
  lemma TwoAnswersCutTheFirstShort()
    ensures exists actions ::
              Reached(actions) == Net([Lone([], true, true, ["head"], CUT)], [Check(0), Error(FIRST, BARE_500)], false)
    ensures CUT.accepted == Some(ANSWER) && Render(ANSWER) == ["head", "body"]
  {
    HeadIsSent();
    SecondHandlers();
    var k3 := Lone([0], true, true, ["head"], HALFWAY);
    var k4 := Lone([0], true, true, ["head"], REPLACED);
    var k5 := Lone([0], true, true, ["head"], CUT);
    var k6 := Lone([], true, true, ["head"], CUT);
    LeadsFire(INITIAL, k3, [Check(0), Body(FIRST)], Respond(FIRST), [Check(0), Body(FIRST), Respond(FIRST)]);
    LeadsDispatch(INITIAL, k3, [Check(0), Body(FIRST), Respond(FIRST)], 2, k3,
                  [Check(0), Body(FIRST), RespondFailed(FIRST, BARE_500)]);
    LeadsDispatch(INITIAL, k3, [Check(0), Body(FIRST), RespondFailed(FIRST, BARE_500)], 2, k4,
                  [Check(0), Body(FIRST), Error(FIRST, BARE_500)]);
    LeadsDispatch(INITIAL, k4, [Check(0), Body(FIRST), Error(FIRST, BARE_500)], 1, k5,
                  [Check(0), Error(FIRST, BARE_500), Complete(FIRST)]);
    LeadsDispatch(INITIAL, k5, [Check(0), Error(FIRST, BARE_500), Complete(FIRST)], 2, k6, [Check(0), Error(FIRST, BARE_500)]);
    var actions :| Run(INITIAL, actions) == Net([k6], [Check(0), Error(FIRST, BARE_500)], false);
    assert Reached(actions) == Net([k6], [Check(0), Error(FIRST, BARE_500)], false);
  }

  lemma {:induction false} RunAppend(net: Net, a: seq<Action>, b: seq<Action>)
    ensures Run(net, a + b) == Run(Run(net, a), b)
    decreases |a|
  {
    if a == [] {
      assert a + b == b;
    } else {
      assert (a + b)[1..] == a[1..] + b;
      RunAppend(if Enabled(net, a[0]) then Step(net, a[0]) else net, a[1..], b);
    }
  }
}
