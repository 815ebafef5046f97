/**
 What every handler keeps. The central fact is a token argument: as long as a connection
 is in the server's table, exactly one event drives the response of the pipeline's head
 if that response was accepted, and none drives anything else.
 */
module PipelineInvariant {
  import opened Messages
  import opened Pipeline

  // ----- the tokens of a connection

  /** The start, body and complete events pending for socket `s`. */
  function Tokens(q: seq<Event>, s: Socket): seq<Event> {
    if q == [] then []
    else (if q[0].IsToken() && q[0].On() == s then [q[0]] else []) + Tokens(q[1..], s)
  }

  lemma {:induction false} TokensAppend(a: seq<Event>, b: seq<Event>, s: Socket)
    ensures Tokens(a + b, s) == Tokens(a, s) + Tokens(b, s)
  {
    if a == [] {
      assert a + b == b;
    } else {
      TokensAppend(a[1..], b, s);
      assert (a + b)[1..] == a[1..] + b;
      var first := if a[0].IsToken() && a[0].On() == s then [a[0]] else [];
      assert first + (Tokens(a[1..], s) + Tokens(b, s)) == (first + Tokens(a[1..], s)) + Tokens(b, s);
    }
  }

  /** Taking an event out of the queue takes it out of the tokens, if it is one. */
  lemma TokensWithout(q: seq<Event>, i: nat, s: Socket)
    requires i < |q|
    ensures !(q[i].IsToken() && q[i].On() == s) ==> Tokens(Without(q, i), s) == Tokens(q, s)
    ensures q[i].IsToken() && q[i].On() == s && |Tokens(q, s)| <= 1 ==>
              Tokens(q, s) == [q[i]] && Tokens(Without(q, i), s) == []
  {
    assert q == q[..i] + ([q[i]] + q[i+1..]);
    TokensAppend(q[..i], [q[i]] + q[i+1..], s);
    TokensAppend([q[i]], q[i+1..], s);
    TokensAppend(q[..i], q[i+1..], s);
    assert Tokens([q[i]], s) == if q[i].IsToken() && q[i].On() == s then [q[i]] else [];
  }

  lemma {:induction false} TokensElsewhere(q: seq<Event>, s: Socket)
    requires forall e :: e in q ==> e.On() != s || !e.IsToken()
    ensures Tokens(q, s) == []
  {
    if q == [] {
    } else {
      TokensElsewhere(q[1..], s);
    }
  }

  // ----- the wire

  /** Everything written for the clients, in the order in which their requests arrived. */
  function AllSent(clients: seq<Record>): seq<Bytes> {
    if clients == [] then [] else clients[0].sent + AllSent(clients[1..])
  }

  lemma {:induction false} AllSentAppend(a: seq<Record>, b: seq<Record>)
    ensures AllSent(a + b) == AllSent(a) + AllSent(b)
  {
    if a == [] {
      assert a + b == b;
    } else {
      var whole := a + b;
      assert whole[0] == a[0] && whole[1..] == a[1..] + b;
      calc {
        AllSent(whole);
        a[0].sent + AllSent(a[1..] + b);
        { AllSentAppend(a[1..], b); }
        a[0].sent + (AllSent(a[1..]) + AllSent(b));
        AllSent(a) + AllSent(b);
      }
    }
  }

  lemma {:induction false} NothingSent(clients: seq<Record>)
    requires forall r :: r in clients ==> r.sent == []
    ensures AllSent(clients) == []
  {
    if clients == [] {
    } else {
      NothingSent(clients[1..]);
    }
  }

  /** Writing a block for the last client that has any keeps the order. */
  lemma {:induction false} AllSentGrows(clients: seq<Record>, i: nat, r: Record, data: Bytes)
    requires i < |clients| && r.sent == clients[i].sent + [data]
    requires forall j :: i < j < |clients| ==> clients[j].sent == []
    ensures AllSent(clients[i := r]) == AllSent(clients) + [data]
  {
    var rest := clients[1..];
    if i == 0 {
      assert clients[i := r][1..] == rest;
      NothingSent(rest);
    } else {
      AllSentGrows(rest, i - 1, r, data);
      assert clients[i := r][1..] == rest[i - 1 := r];
    }
  }

  /** Changing a client without writing for it leaves the wire alone. */
  lemma {:induction false} AllSentSame(a: seq<Record>, b: seq<Record>)
    requires |a| == |b|
    requires forall j :: 0 <= j < |a| ==> a[j].sent == b[j].sent
    ensures AllSent(a) == AllSent(b)
  {
    if a == [] {
    } else {
      AllSentSame(a[1..], b[1..]);
    }
  }

  // ----- the invariant

  /** The pipeline holds the latest requests in order of arrival, and only its head may be on its way. */
  ghost predicate Shape(k: Conn) {
    && |k.requests| <= |k.clients|
    && (forall j :: 0 <= j < |k.requests| ==> k.requests[j] == Answered(k) + j)
    && k.composed.Keys == k.started
    && (forall i :: i in k.started ==> i <= Answered(k) && i < |k.clients|)
    && (forall i :: i in k.responses ==> i < |k.clients|)
    && (k.stalled ==> Answered(k) in k.started)
  }

  /** What a client will have been sent in the end: what it was sent, and what its response still holds. */
  function Promise(r: Record, started: bool): seq<Bytes> {
    if started then r.sent + r.response.body else Render(r.response)
  }

  /** A client that lost nothing gets what was accepted. */
  ghost predicate Faithful(r: Record, live: bool, started: bool, answered: bool) {
    r.accepted.Some? && !r.lost ==>
      && r.sent <= Render(r.accepted.value)
      && (live || r.response.body != [] ==> Promise(r, started) == Render(r.accepted.value))
      && (answered ==> r.sent == Render(r.accepted.value))
  }

  /** A client that lost something gets something else, once and for all. */
  ghost predicate Short(r: Record, live: bool, started: bool) {
    r.lost ==>
      && r.swapped && r.accepted.Some? && r.response.body == []
      && (live || started ==> Promise(r, started) != Render(r.accepted.value))
  }

  /** What is known of a client, given whether its connection is in the table and how far its response has come. */
  ghost predicate ClientOk(r: Record, live: bool, accepted: bool, started: bool, answered: bool) {
    && (accepted <==> r.accepted.Some?)
    && (if started then accepted else r.sent == [])
    && (answered ==> started && r.ended)
    && (r.ended ==> started && r.response.body == [])
    && (r.done <==> r.ended || r.failed)
    && (r.swapped ==> r.failed)
    && Faithful(r, live, started, answered)
    && Short(r, live, started)
  }

  ghost predicate ClientInv(k: Conn) {
    forall i :: 0 <= i < |k.clients| ==>
      ClientOk(k.clients[i], k.live, i in k.responses, i in k.started, i < Answered(k))
  }

  /** The one event that drives the response of the head, if that response was accepted. */
  function Pending(s: Socket, k: Conn): seq<Event> {
    var head := Answered(k);
    if !(0 <= head < |k.clients|) || head !in k.responses || k.stalled then []
    else if head !in k.started then [Start(ClientId(s, head))]
    else if !k.clients[head].ended then [Body(ClientId(s, head))]
    else [Complete(ClientId(s, head))]
  }

  ghost predicate TokenInv(s: Socket, k: Conn, tokens: seq<Event>, closing: bool) {
    && (tokens == Pending(s, k) || (tokens == [] && !k.live))
    && (k.live && k.stalled ==> closing)
  }

  ghost predicate ConnInv(s: Socket, k: Conn, tokens: seq<Event>, closing: bool) {
    && Shape(k)
    && ClientInv(k)
    && TokenInv(s, k, tokens, closing)
    && (!k.tainted ==> k.wire == AllSent(k.clients))
  }

  // ----- every handler keeps it

  /** The effect of a handler on connection `s` keeps the invariant; `rest` are the tokens still in the queue. */
  ghost predicate Keeps(s: Socket, f: Effect, rest: seq<Event>, closing: bool) {
    && !f.broken
    && ConnInv(s, f.conn, rest + Tokens(f.fired, s), closing || Close(s) in f.fired)
  }

  lemma UpdateClients(k: Conn, i: nat, r: Record)
    requires ClientInv(k) && i < |k.clients|
    requires ClientOk(r, k.live, i in k.responses, i in k.started, i < Answered(k))
    ensures ClientInv(k.(clients := k.clients[i := r]))
  {
  }

  /** Handlers that fire no token and touch at most one client without writing for it. */
  lemma KeepsUpdate(s: Socket, k: Conn, i: nat, r: Record, f: Effect, tokens: seq<Event>, rest: seq<Event>, closing: bool)
    requires ConnInv(s, k, tokens, closing) && i < |k.clients|
    requires f.conn == k.(clients := k.clients[i := r]) && !f.broken
    requires Tokens(f.fired, s) == []
    requires rest == tokens || (rest == [] && !k.live)
    requires ClientOk(r, k.live, i in k.responses, i in k.started, i < Answered(k))
    requires r.sent == k.clients[i].sent && r.ended == k.clients[i].ended
    ensures Keeps(s, f, rest, closing)
  {
    UpdateClients(k, i, r);
    UpdateRest(s, k, i, r);
    assert rest + Tokens(f.fired, s) == rest;
  }

  lemma UpdateRest(s: Socket, k: Conn, i: nat, r: Record)
    requires Shape(k) && i < |k.clients| && r.sent == k.clients[i].sent && r.ended == k.clients[i].ended
    ensures var k' := k.(clients := k.clients[i := r]);
            Shape(k') && AllSent(k'.clients) == AllSent(k.clients) && Pending(s, k') == Pending(s, k)
  {
    AllSentSame(k.clients, k.clients[i := r]);
  }

  lemma KeepsPremature(s: Socket, k: Conn, i: nat, f: Effect, tokens: seq<Event>, rest: seq<Event>, closing: bool)
    requires ConnInv(s, k, tokens, closing) && i < |k.clients| && !k.live
    requires rest == tokens || rest == []
    requires f.conn == Premature(k, i) && Tokens(f.fired, s) == [] && !f.broken
    ensures Keeps(s, f, rest, closing)
  {
    var r := k.clients[i];
    KeepsUpdate(s, k, i, r.(response := r.response.(body := [])), f, tokens, rest, closing);
  }

  lemma KeepsResponse(s: Socket, k: Conn, i: nat, tokens: seq<Event>, closing: bool)
    requires ConnInv(s, k, tokens, closing) && i < |k.clients|
    ensures Keeps(s, OnResponse(s, k, i), tokens, closing)
  {
    var f := OnResponse(s, k, i);
    if !k.live {
      KeepsPremature(s, k, i, f, tokens, tokens, closing);
    } else if i in k.responses {
      assert tokens + Tokens(f.fired, s) == tokens;
    } else {
      KeepsAccept(s, k, i, tokens, closing);
    }
  }

  lemma AcceptClients(s: Socket, k: Conn, i: nat)
    requires ClientInv(k) && i < |k.clients| && k.live && i !in k.responses
    ensures ClientInv(OnResponse(s, k, i).conn)
  {
  }

  lemma KeepsAccept(s: Socket, k: Conn, i: nat, tokens: seq<Event>, closing: bool)
    requires ConnInv(s, k, tokens, closing) && i < |k.clients| && k.live && i !in k.responses
    ensures Keeps(s, OnResponse(s, k, i), tokens, closing)
  {
    var f := OnResponse(s, k, i);
    AcceptClients(s, k, i);
    assert ClientOk(k.clients[i], true, false, i in k.started, i < Answered(k));
    AcceptRest(s, k, i);
    assert Tokens(f.fired, s) == f.fired;
  }

  lemma AcceptRest(s: Socket, k: Conn, i: nat)
    requires Shape(k) && i < |k.clients| && k.live && i !in k.responses && i !in k.started
    ensures var f := OnResponse(s, k, i);
            Shape(f.conn) && AllSent(f.conn.clients) == AllSent(k.clients) && Pending(s, f.conn) == Pending(s, k) + f.fired
  {
    var f := OnResponse(s, k, i);
    AllSentSame(k.clients, f.conn.clients);
    assert k.requests != [] ==> k.requests[0] == Answered(k);
  }

  lemma StartClients(s: Socket, k: Conn, i: nat)
    requires ClientInv(k) && i < |k.clients| && k.live && i == Answered(k) && i in k.responses && i !in k.started
    ensures ClientInv(OnStart(s, k, i).conn)
  {
    assert ClientOk(k.clients[i], true, true, false, false);
  }

  lemma StartShape(s: Socket, k: Conn, i: nat)
    requires Shape(k) && i < |k.clients| && k.live && i == Answered(k)
    ensures Shape(OnStart(s, k, i).conn)
  {
  }

  lemma KeepsStart(s: Socket, k: Conn, i: nat, closing: bool)
    requires ConnInv(s, k, [Start(ClientId(s, i))], closing) && i < |k.clients|
    ensures Keeps(s, OnStart(s, k, i), [], closing)
  {
    var f := OnStart(s, k, i);
    if !k.live {
      KeepsPremature(s, k, i, f, [Start(ClientId(s, i))], [], closing);
    } else {
      assert [Start(ClientId(s, i))] == Pending(s, k);
      StartClients(s, k, i);
      StartShape(s, k, i);
      AllSentGrows(k.clients, i, f.conn.clients[i], k.clients[i].response.head);
    }
  }

  lemma EndClients(s: Socket, k: Conn, i: nat)
    requires ClientInv(k) && i < |k.clients| && i in k.started && k.clients[i].response.body == []
    ensures ClientInv(OnBody(s, k, i).conn)
  {
    assert ClientOk(k.clients[i], k.live, i in k.responses, true, i < Answered(k));
  }

  lemma KeepsBodyEnd(s: Socket, k: Conn, i: nat, closing: bool)
    requires ConnInv(s, k, [Body(ClientId(s, i))], closing) && i < |k.clients|
    requires k.clients[i].response.body == []
    ensures Keeps(s, OnBody(s, k, i), [], closing)
  {
    var f := OnBody(s, k, i);
    assert [Body(ClientId(s, i))] == Pending(s, k);
    EndClients(s, k, i);
    AllSentSame(k.clients, f.conn.clients);
  }

  lemma ChunkClient(r: Record, live: bool)
    requires ClientOk(r, live, true, true, false) && r.response.body != []
    ensures var data := r.response.body[0];
            ClientOk(r.(sent := r.sent + [data], response := r.response.(body := r.response.body[1..])), live, true, true, false)
  {
    assert (r.sent + [r.response.body[0]]) + r.response.body[1..] == r.sent + r.response.body;
  }

  lemma ChunkClients(s: Socket, k: Conn, i: nat)
    requires ClientInv(k) && i < |k.clients| && i == Answered(k) && i in k.started && i in k.responses
    requires k.clients[i].response.body != []
    ensures ClientInv(OnBody(s, k, i).conn)
  {
    ChunkClient(k.clients[i], k.live);
  }

  lemma KeepsBodyChunk(s: Socket, k: Conn, i: nat, closing: bool)
    requires ConnInv(s, k, [Body(ClientId(s, i))], closing) && i < |k.clients|
    requires k.clients[i].response.body != []
    ensures Keeps(s, OnBody(s, k, i), [], closing)
  {
    var f := OnBody(s, k, i);
    assert [Body(ClientId(s, i))] == Pending(s, k);
    ChunkClients(s, k, i);
    AllSentGrows(k.clients, i, f.conn.clients[i], k.clients[i].response.body[0]);
  }

  lemma CompleteClients(s: Socket, k: Conn, i: nat)
    requires ClientInv(k) && Shape(k) && i < |k.clients| && k.live && i == Answered(k)
    requires i in k.started && k.clients[i].ended
    ensures ClientInv(OnComplete(s, k, i).conn)
  {
    var k' := OnComplete(s, k, i).conn;
    var r := k.clients[i];
    assert ClientOk(r, true, true, true, false);
    assert r.sent + [] == r.sent;
    assert Answered(k') == i + 1 && k'.clients == k.clients;
  }

  /** Popping the head, the handler fires the event that the new head calls for. */
  lemma CompleteTokens(s: Socket, k: Conn, i: nat)
    requires Shape(k) && i < |k.clients| && k.live && i == Answered(k) && i in k.started && !k.stalled
    ensures var f := OnComplete(s, k, i);
            !f.broken && Shape(f.conn) && Tokens(f.fired, s) == Pending(s, f.conn) && !f.conn.stalled
  {
    assert k.requests != [] && k.requests[0] == i;
    var f := OnComplete(s, k, i);
    assert Answered(f.conn) == i + 1;
    assert |k.requests| > 1 ==> k.requests[1] == i + 1;
  }

  lemma KeepsCompleteLive(s: Socket, k: Conn, i: nat, closing: bool)
    requires ConnInv(s, k, [Complete(ClientId(s, i))], closing) && i < |k.clients| && k.live
    ensures Keeps(s, OnComplete(s, k, i), [], closing)
  {
    var f := OnComplete(s, k, i);
    assert [Complete(ClientId(s, i))] == Pending(s, k);
    CompleteClients(s, k, i);
    CompleteTokens(s, k, i);
    assert [] + Tokens(f.fired, s) == Tokens(f.fired, s);
  }

  lemma KeepsComplete(s: Socket, k: Conn, i: nat, closing: bool)
    requires ConnInv(s, k, [Complete(ClientId(s, i))], closing) && i < |k.clients|
    ensures Keeps(s, OnComplete(s, k, i), [], closing)
  {
    if k.live {
      KeepsCompleteLive(s, k, i, closing);
    } else {
      KeepsPremature(s, k, i, OnComplete(s, k, i), [Complete(ClientId(s, i))], [], closing);
    }
  }

  lemma KeepsError(s: Socket, k: Conn, i: nat, page: Response, fired: seq<Event>, tokens: seq<Event>, closing: bool)
    requires ConnInv(s, k, tokens, closing) && i < |k.clients|
    requires fired == OnError(s, k, i, page).fired || fired == [ErrorFailed(ClientId(s, i))]
    ensures Keeps(s, OnError(s, k, i, page).(fired := fired), tokens, closing)
  {
    var f := OnError(s, k, i, page).(fired := fired);
    if !k.live {
      KeepsPremature(s, k, i, f, tokens, tokens, closing);
    } else if i in k.responses {
      KeepsQuiet(s, k, f, tokens, closing);
    } else {
      KeepsUpdate(s, k, i, k.clients[i].(response := page), f, tokens, tokens, closing);
    }
  }

  /** Handlers that leave the connection as it is and fire no token. */
  lemma KeepsQuiet(s: Socket, k: Conn, f: Effect, tokens: seq<Event>, closing: bool)
    requires ConnInv(s, k, tokens, closing) && f.conn == k && !f.broken && Tokens(f.fired, s) == []
    ensures Keeps(s, f, tokens, closing)
  {
    assert tokens + Tokens(f.fired, s) == tokens;
  }

  lemma KeepsErrorFailed(s: Socket, k: Conn, i: nat, tokens: seq<Event>, closing: bool)
    requires ConnInv(s, k, tokens, closing) && i < |k.clients|
    ensures Keeps(s, OnErrorFailed(s, k, i), tokens, closing)
  {
    var f := OnErrorFailed(s, k, i);
    if !k.live {
      KeepsPremature(s, k, i, f, tokens, tokens, closing);
    } else if i in k.responses {
      KeepsQuiet(s, k, f, tokens, closing);
    } else {
      KeepsErrorPage(s, k, i, tokens, closing);
    }
  }

  /** The page written past the pipeline. */
  lemma KeepsErrorPage(s: Socket, k: Conn, i: nat, tokens: seq<Event>, closing: bool)
    requires ConnInv(s, k, tokens, closing) && i < |k.clients| && k.live && i !in k.responses
    ensures Keeps(s, OnErrorFailed(s, k, i), tokens, closing)
  {
    var f := OnErrorFailed(s, k, i);
    var r := k.clients[i].(response := BARE_500);
    var k' := k.(clients := k.clients[i := r]);
    assert ClientOk(k.clients[i], true, false, i in k.started, i < Answered(k));
    UpdateClients(k, i, r);
    UpdateRest(s, k, i, r);
    assert f.conn == k'.(wire := f.conn.wire, tainted := true);
    assert Pending(s, f.conn) == Pending(s, k');
    assert tokens + Tokens(f.fired, s) == tokens;
  }

  lemma KeepsRespondFailed(s: Socket, k: Conn, i: nat, page: Response, tokens: seq<Event>, closing: bool)
    requires ConnInv(s, k, tokens, closing) && i < |k.clients|
    ensures Keeps(s, OnRespondFailed(s, k, i, page), tokens, closing)
  {
    var f := OnRespondFailed(s, k, i, page);
    if k.clients[i].done {
      KeepsQuiet(s, k, f, tokens, closing);
    } else if !k.live {
      KeepsPremature(s, k, i, f, tokens, tokens, closing);
    } else {
      KeepsUpdate(s, k, i, f.conn.clients[i], f, tokens, tokens, closing);
    }
  }

  /** The idle timer lives beside the pipeline. */
  lemma KeepsTimers(s: Socket, k: Conn, timeout: Option<nat>, timers: seq<Timer>, fired: seq<Event>, tokens: seq<Event>, closing: bool)
    requires ConnInv(s, k, tokens, closing) && Tokens(fired, s) == []
    ensures Keeps(s, Effect(k.(timeout := timeout, timers := timers), fired, false), tokens, closing)
  {
    var k' := k.(timeout := timeout, timers := timers);
    assert Pending(s, k') == Pending(s, k);
    assert ClientInv(k');
    assert tokens + Tokens(fired, s) == tokens;
  }

  /** Once it is closed, the connection demands less. */
  lemma KeepsClose(s: Socket, k: Conn, tokens: seq<Event>, closing: bool, closed: bool)
    requires ConnInv(s, k, tokens, closing)
    ensures Keeps(s, OnClose(k), tokens, closed)
  {
    var f := OnClose(k);
    assert Pending(s, f.conn) == Pending(s, k);
    assert ClientInv(f.conn);
    assert tokens + Tokens(f.fired, s) == tokens;
  }

  lemma KeepsStall(s: Socket, k: Conn, i: nat, closing: bool)
    requires ConnInv(s, k, [Body(ClientId(s, i))], closing)
    ensures Keeps(s, Effect(k.(stalled := true), [Close(s)], false), [], closing)
  {
    var k' := k.(stalled := true);
    assert [Body(ClientId(s, i))] == Pending(s, k);
    assert ClientInv(k');
    assert Pending(s, k') == [];
  }

  /** Whether the handled event `e` may leave `rest` of the tokens it was among. */
  ghost predicate Leaves(e: Event, tokens: seq<Event>, rest: seq<Event>) {
    if e.IsToken() then tokens == [e] && rest == [] else rest == tokens
  }

  /** Handling any event keeps the invariant of its connection. */
  lemma KeepsHandle(s: Socket, k: Conn, e: Event, tokens: seq<Event>, rest: seq<Event>, closing: bool)
    requires ConnInv(s, k, tokens, closing) && Leaves(e, tokens, rest)
    requires e.On() == s && (e.Close? || e.Check? || e.client.serial < |k.clients|)
    ensures Keeps(s, Handle(k, e), rest, closing && !e.Close?)
  {
    match e
    case Respond(c) => KeepsResponse(s, k, c.serial, tokens, closing);
    case Start(c) => KeepsStart(s, k, c.serial, closing);
    case Body(c) =>
      if k.clients[c.serial].response.body == [] {
        KeepsBodyEnd(s, k, c.serial, closing);
      } else {
        KeepsBodyChunk(s, k, c.serial, closing);
      }
    case Complete(c) => KeepsComplete(s, k, c.serial, closing);
    case RespondFailed(c, page) => KeepsRespondFailed(s, k, c.serial, page, tokens, closing);
    case Error(c, page) => KeepsError(s, k, c.serial, page, Handle(k, e).fired, tokens, closing);
    case ErrorDone(c, ignored) => KeepsQuiet(s, k, Handle(k, e), tokens, closing);
    case ErrorFailed(c) => KeepsErrorFailed(s, k, c.serial, tokens, closing);
    case Close(_) => KeepsClose(s, k, tokens, closing, false);
    case Check(_) => KeepsTimers(s, k, OnCheck(k).conn.timeout, OnCheck(k).conn.timers, [], tokens, closing);
  }

  lemma KeepsResponseRaising(s: Socket, k: Conn, i: nat, page: Response, tokens: seq<Event>, closing: bool)
    requires ConnInv(s, k, tokens, closing) && i < |k.clients|
    ensures Keeps(s, HandleRaising(k, Respond(ClientId(s, i)), page), tokens, closing)
  {
    KeepsResponse(s, k, i, tokens, closing);
    var f := OnResponse(s, k, i);
    var f' := HandleRaising(k, Respond(ClientId(s, i)), page);
    KeepsMore(s, f, f'.fired[|f.fired|..], tokens, closing);
    assert f'.fired == f.fired + f'.fired[|f.fired|..];
  }

  /** Firing more events that are no tokens. */
  lemma KeepsMore(s: Socket, f: Effect, extra: seq<Event>, rest: seq<Event>, closing: bool)
    requires Keeps(s, f, rest, closing) && Tokens(extra, s) == []
    ensures Keeps(s, f.(fired := f.fired + extra), rest, closing)
  {
    TokensAppend(f.fired, extra, s);
    assert Tokens(f.fired, s) + [] == Tokens(f.fired, s);
  }

  /** The same when foreign code raises during the dispatch. */
  lemma KeepsHandleRaising(s: Socket, k: Conn, e: Event, page: Response, tokens: seq<Event>, rest: seq<Event>, closing: bool)
    requires ConnInv(s, k, tokens, closing) && Leaves(e, tokens, rest)
    requires CanRaise(e) && e.On() == s && e.client.serial < |k.clients|
    ensures Keeps(s, HandleRaising(k, e, page), rest, closing)
  {
    match e
    case Respond(c) => KeepsResponseRaising(s, k, c.serial, page, tokens, closing);
    case Error(c, p) => KeepsError(s, k, c.serial, p, HandleRaising(k, e, page).fired, tokens, closing);
    case ErrorDone(c, _) => KeepsErrorFailed(s, k, c.serial, tokens, closing);
    case Body(c) => KeepsStall(s, k, c.serial, closing);
  }

  /** A new request at the end of the pipeline changes nothing for those before it. */
  lemma KeepsAddClient(s: Socket, k: Conn, connect: bool, response: Response, tokens: seq<Event>, closing: bool)
    requires ConnInv(s, k, tokens, closing)
    ensures ConnInv(s, AddClient(k, connect, response), tokens, closing)
  {
    var k' := AddClient(k, connect, response);
    var added := k'.clients[|k.clients|];
    AllSentAppend(k.clients, [added]);
    assert AllSent([added]) == [];
    AddClientClients(k, connect, response);
    assert Pending(s, k') == Pending(s, k);
  }

  lemma AddClientClients(k: Conn, connect: bool, response: Response)
    requires Shape(k) && ClientInv(k)
    ensures ClientInv(AddClient(k, connect, response)) && Answered(AddClient(k, connect, response)) == Answered(k)
  {
    var k' := AddClient(k, connect, response);
    assert Answered(k') == Answered(k);
  }

  lemma {:induction false} KeepsAddAll(s: Socket, k: Conn, batch: seq<Arrival>, tokens: seq<Event>, closing: bool)
    requires ConnInv(s, k, tokens, closing)
    ensures ConnInv(s, AddAll(k, batch), tokens, closing)
    decreases |batch|
  {
    if batch == [] {
    } else {
      KeepsAddClient(s, k, batch[0].connect, batch[0].response, tokens, closing);
      KeepsAddAll(s, AddClient(k, batch[0].connect, batch[0].response), batch[1..], tokens, closing);
    }
  }

  /** The application may work on a response as long as it was not accepted. */
  lemma KeepsCompose(s: Socket, k: Conn, i: nat, response: Response, tokens: seq<Event>, closing: bool)
    requires ConnInv(s, k, tokens, closing) && i < |k.clients| && i !in k.responses
    ensures ConnInv(s, k.(clients := k.clients[i := k.clients[i].(response := response)]), tokens, closing)
  {
    var r := k.clients[i].(response := response);
    var f := Effect(k.(clients := k.clients[i := r]), [], false);
    KeepsUpdate(s, k, i, r, f, tokens, tokens, closing);
    assert tokens + [] == tokens;
  }
}
