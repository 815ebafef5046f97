/**
 A client connection and the server at the other end. The link delivers the requests to
 the server in the order in which the client wrote them, and the bytes on the server's
 wire to the client in pieces of any size. The client's parser is a parameter; all that is
 assumed of it is that it finds the responses in a stream of framed ones.
 */
module EndToEnd {
  import opened Messages
  import opened Framing
  import opened Pipeline
  import opened PipelineInvariant
  import opened PipelineRuns
  import opened PipelineTheorems
  import opened PipelineHistory
  import opened HttpClient

  // ----- the wire in terms of accepted responses

  function Value(r: Record): Response {
    if r.accepted.Some? then r.accepted.value else BARE_500
  }

  function Values(clients: seq<Record>): (rs: seq<Response>)
    ensures |rs| == |clients|
    ensures forall i :: 0 <= i < |clients| ==> rs[i] == Value(clients[i])
  {
    seq(|clients|, i requires 0 <= i < |clients| => Value(clients[i]))
  }

  lemma {:induction false} AnswersAreJoined(clients: seq<Record>)
    requires forall i :: 0 <= i < |clients| ==> clients[i].accepted.Some?
    ensures Flatten(Answers(clients)) == Joined(Values(clients))
  {
    if clients == [] {
    } else {
      AnswersAreJoined(clients[1..]);
      assert Values(clients)[1..] == Values(clients[1..]);
      FlattenAppend(Render(clients[0].accepted.value), Answers(clients[1..]));
    }
  }

  /** The number of responses of which anything was written. */
  function OnTheWay(k: Conn): int {
    Answered(k) + if Current(k) == [] then 0 else 1
  }

  /** What can be said of a connection nothing went wrong on. */
  ghost predicate Intact(s: Socket, k: Conn, q: seq<Event>) {
    ConnOk(s, k, q) && !k.tainted && NoneLost(k)
  }

  lemma OnTheWayAccepted(s: Socket, k: Conn, q: seq<Event>)
    requires Intact(s, k, q)
    ensures 0 <= OnTheWay(k) <= |k.clients|
    ensures forall i :: 0 <= i < OnTheWay(k) ==> k.clients[i].accepted.Some?
    ensures Current(k) != [] ==> Current(k) <= Render(Value(k.clients[Answered(k)]))
  {
    forall i | 0 <= i < |k.clients| ensures ClientOk(k.clients[i], k.live, i in k.responses, i in k.started, i < Answered(k)) {
    }
  }

  lemma FlattenBegins(a: seq<Bytes>, b: seq<Bytes>)
    requires a <= b
    ensures Flatten(a) <= Flatten(b)
  {
    assert b == a + b[|a|..];
    FlattenAppend(a, b[|a|..]);
  }

  /** The bytes of the answered clients and the head. */
  lemma WireBytes(s: Socket, k: Conn, q: seq<Event>)
    requires Intact(s, k, q)
    ensures 0 <= Answered(k) <= |k.clients|
    ensures Flatten(k.wire) == Joined(Values(k.clients[..Answered(k)])) + Flatten(Current(k))
  {
    OnTheWayAccepted(s, k, q);
    WireSplits(k);
    var done := k.clients[..Answered(k)];
    FlattenAppend(Answers(done), Current(k));
    AnswersAreJoined(done);
  }

  lemma ValuesTake(clients: seq<Record>, n: nat)
    requires n < |clients|
    ensures Values(clients[..n + 1]) == Values(clients[..n]) + [Value(clients[n])]
    ensures Joined(Values(clients[..n + 1])) == Joined(Values(clients[..n])) + BytesOf(Value(clients[n]))
  {
    var last := Value(clients[n]);
    assert Values(clients[..n + 1]) == Values(clients[..n]) + [last];
    JoinedAppend(Values(clients[..n]), [last]);
    assert Joined([last]) == BytesOf(last) + [] == BytesOf(last);
  }

  /** The bytes on the wire begin the accepted responses of the first clients, in their order. */
  lemma WireBegins(s: Socket, k: Conn, q: seq<Event>)
    requires Intact(s, k, q)
    ensures 0 <= Answered(k) <= OnTheWay(k) <= |k.clients|
    ensures Flatten(k.wire) <= Joined(Values(k.clients[..OnTheWay(k)]))
    ensures Joined(Values(k.clients[..Answered(k)])) <= Flatten(k.wire)
  {
    OnTheWayAccepted(s, k, q);
    WireBytes(s, k, q);
    if Current(k) != [] {
      FlattenBegins(Current(k), Render(Value(k.clients[Answered(k)])));
      ValuesTake(k.clients, Answered(k));
    }
  }

  // ----- both ends

  /**
   The two ends of the connection with socket `s` at the server. `sent` is every request
   the client wrote, `pairing` its queue and the responses it has, and `received` the
   number of bytes it has read.
   */
  datatype Ends = Ends(server: Net, s: Socket, sent: seq<Exchange>, pairing: Pairing, received: nat)

  datatype Move =
    | Send(client: Exchange)   // the client writes a request
    | Serve(action: Action)    // the server takes a step
    | Deliver(n: nat)          // the client reads the next `n` bytes

  /** The number of requests that arrived at the server. */
  function Arrived(x: Ends): nat {
    if x.s < |x.server.conns| then |x.server.conns[x.s].clients| else 0
  }

  /** The bytes that the server has written. */
  function Out(x: Ends): Bytes {
    if x.s < |x.server.conns| then Flatten(x.server.conns[x.s].wire) else []
  }

  predicate CanMove(x: Ends, m: Move) {
    match m
    case Send(client) => client !in x.sent
    // what the server reads was written, and a request is read once
    case Serve(a) => Enabled(x.server, a) && Arrived(x) + Arriving(a, x.s) <= |x.sent|
    case Deliver(n) => x.received + n <= |Out(x)|
  }

  /** The messages that are completed when the bytes received grow from `seen` to `bytes`. */
  function Completed(parse: Parser, seen: Bytes, bytes: Bytes): seq<Response> {
    if |parse(seen)| <= |parse(bytes)| then parse(bytes)[|parse(seen)|..] else []
  }

  function Moved(parse: Parser, x: Ends, m: Move): Ends
    requires CanMove(x, m)
  {
    match m
    case Send(client) => x.(sent := x.sent + [client], pairing := x.pairing.(pending := x.pairing.pending + [client]))
    case Serve(a) => x.(server := Step(x.server, a))
    case Deliver(n) =>
      var messages := Completed(parse, Out(x)[..x.received], Out(x)[..x.received + n]);
      x.(pairing := Pair(x.pairing, None, messages), received := x.received + n)
  }

  function MovedAll(parse: Parser, x: Ends, moves: seq<Move>): Ends
    decreases |moves|
  {
    if moves == [] then x
    else MovedAll(parse, if CanMove(x, moves[0]) then Moved(parse, x, moves[0]) else x, moves[1..])
  }

  function Connected(s: Socket): Ends {
    Ends(INITIAL, s, [], Pairing([], map[], [], true), 0)
  }

  /**
   The server kept to its part: nothing was lost or written past the pipeline, and every
   response that was accepted is framed. Once broken this stays broken.
   */
  ghost predicate Sound(framed: Frame, x: Ends) {
    x.s < |x.server.conns| ==>
      var k := x.server.conns[x.s];
      && !k.tainted && NoneLost(k)
      && forall i :: 0 <= i < |k.clients| && k.clients[i].accepted.Some? ==> framed(i, k.clients[i].accepted.value)
  }

  /** The response the server accepted for its `i`-th request on this connection, byte for byte. */
  ghost predicate Accepted(x: Ends, i: nat, response: Response) {
    && x.s < |x.server.conns| && i < |x.server.conns[x.s].clients|
    && x.server.conns[x.s].clients[i].accepted.Some?
    && BytesOf(response) == BytesOf(x.server.conns[x.s].clients[i].accepted.value)
  }

  /** The client has answers for exactly the first `m` requests it sent, each the response accepted for it. */
  ghost predicate Paired(x: Ends, m: nat) {
    && m <= Arrived(x) <= |x.sent|
    && x.pairing.ok
    && x.pairing.pending == x.sent[m..]
    && x.pairing.fired == x.sent[..m]
    && (forall i :: 0 <= i < m ==> x.sent[i] in x.pairing.response && Accepted(x, i, x.pairing.response[x.sent[i]]))
    && (forall c :: c in x.pairing.response ==> c in x.sent[..m])
  }

  ghost predicate EndsInv(parse: Parser, framed: Frame, x: Ends) {
    && NetInv(x.server)
    && Unique(x.sent)
    && x.received <= |Out(x)|
    && Arrived(x) <= |x.sent|
    && (Sound(framed, x) ==> Paired(x, |parse(Out(x)[..x.received])|))
  }

  // ----- sending

  lemma SendKeeps(parse: Parser, framed: Frame, x: Ends, client: Exchange)
    requires EndsInv(parse, framed, x) && CanMove(x, Send(client))
    ensures EndsInv(parse, framed, Moved(parse, x, Send(client)))
  {
    var x' := Moved(parse, x, Send(client));
    if Sound(framed, x') {
      assert Sound(framed, x);
      SendPairs(parse, x, client, |parse(Out(x)[..x.received])|);
    }
  }

  lemma SendPairs(parse: Parser, x: Ends, client: Exchange, m: nat)
    requires Paired(x, m) && CanMove(x, Send(client))
    ensures Paired(Moved(parse, x, Send(client)), m)
  {
    var x' := Moved(parse, x, Send(client));
    assert x'.sent[m..] == x.sent[m..] + [client];
    assert x'.sent[..m] == x.sent[..m];
  }

  // ----- serving

  /** A connection starts without answers. */
  lemma StepOpens(net: Net, a: Action, s: Socket)
    requires NetInv(net) && Enabled(net, a) && s == |net.conns| < |Step(net, a).conns|
    ensures |Step(net, a).conns[s].clients| == Arriving(a, s)
  {
    match a
    case Read(_, batch) => AddAllExtends(FRESH, batch);
    case _ =>
  }

  /** The server only writes more, and what was sound before is all that can be sound after. */
  lemma ServeExtends(framed: Frame, x: Ends, x': Ends)
    requires x' == x.(server := x'.server) && x.s < |x.server.conns| && x.s < |x'.server.conns|
    requires Extends(x.server.conns[x.s], x'.server.conns[x.s])
    ensures Out(x) <= Out(x')
    ensures Sound(framed, x') ==> Sound(framed, x)
  {
    var k := x.server.conns[x.s];
    var k' := x'.server.conns[x.s];
    FlattenBegins(k.wire, k'.wire);
    forall i | 0 <= i < |k.clients| ensures Lasts(k.clients[i], k'.clients[i]) {
    }
  }

  lemma ServePairs(x: Ends, x': Ends, m: nat)
    requires x' == x.(server := x'.server) && Paired(x, m) && Arrived(x) <= Arrived(x') <= |x.sent|
    requires m == 0 || (x.s < |x.server.conns| && x.s < |x'.server.conns| && Extends(x.server.conns[x.s], x'.server.conns[x.s]))
    ensures Paired(x', m)
  {
    forall i | 0 <= i < m
      ensures x'.sent[i] in x'.pairing.response && Accepted(x', i, x'.pairing.response[x'.sent[i]])
    {
      assert Accepted(x, i, x.pairing.response[x.sent[i]]);
      assert Lasts(x.server.conns[x.s].clients[i], x'.server.conns[x.s].clients[i]);
    }
  }

  lemma ServeKnown(parse: Parser, framed: Frame, x: Ends, a: Action)
    requires EndsInv(parse, framed, x) && CanMove(x, Serve(a)) && x.s < |x.server.conns|
    ensures EndsInv(parse, framed, Moved(parse, x, Serve(a)))
  {
    var x' := Moved(parse, x, Serve(a));
    StepKeeps(x.server, a);
    StepExtends(x.server, a, x.s);
    ServeExtends(framed, x, x');
    assert Out(x')[..x.received] == Out(x)[..x.received];
    if Sound(framed, x') {
      ServePairs(x, x', |parse(Out(x)[..x.received])|);
    }
  }

  lemma ServeKeeps(parse: Parser, framed: Frame, x: Ends, a: Action)
    requires Parses(parse, framed) && EndsInv(parse, framed, x) && CanMove(x, Serve(a))
    ensures EndsInv(parse, framed, Moved(parse, x, Serve(a)))
  {
    if x.s < |x.server.conns| {
      ServeKnown(parse, framed, x, a);
    } else {
      var x' := Moved(parse, x, Serve(a));
      StepKeeps(x.server, a);
      NothingReceived(parse, framed, x);
      assert Out(x')[..0] == [] == Out(x)[..0];
      if x.s < |x'.server.conns| {
        StepOpens(x.server, a, x.s);
      }
      ServePairs(x, x', 0);
    }
  }

  /** The parser makes nothing out of nothing. */
  lemma NothingReceived(parse: Parser, framed: Frame, x: Ends)
    requires Parses(parse, framed)
    ensures |parse([])| == 0
  {
    assert Joined([]) + [] == [];
    assert AllFramed(framed, []) && Unfinished(framed, 0, []);
    assert Finds(parse, [], []);
  }

  // ----- delivering

  /** The responses that the server has begun to send. */
  function Begun(x: Ends): seq<Response>
    requires x.s < |x.server.conns| && 0 <= OnTheWay(x.server.conns[x.s]) <= |x.server.conns[x.s].clients|
  {
    Values(x.server.conns[x.s].clients[..OnTheWay(x.server.conns[x.s])])
  }

  /** What the server has begun to send was accepted for its requests, in their order, and the wire begins it. */
  lemma BegunIsAccepted(framed: Frame, x: Ends)
    requires NetInv(x.server) && Sound(framed, x) && x.s < |x.server.conns|
    ensures 0 <= Answered(x.server.conns[x.s]) <= OnTheWay(x.server.conns[x.s]) <= Arrived(x)
    ensures AllFramed(framed, Begun(x)) && Out(x) <= Joined(Begun(x))
    ensures Joined(Begun(x)[..Answered(x.server.conns[x.s])]) <= Out(x)
    ensures forall i, r :: 0 <= i < |Begun(x)| && BytesOf(r) == BytesOf(Begun(x)[i]) ==> Accepted(x, i, r)
  {
    var k := x.server.conns[x.s];
    assert ConnOk(x.s, k, x.server.queue) && Intact(x.s, k, x.server.queue);
    OnTheWayAccepted(x.s, k, x.server.queue);
    WireBegins(x.s, k, x.server.queue);
    assert Begun(x)[..Answered(k)] == Values(k.clients[..Answered(k)]);
  }

  /** The first `n` bytes of the wire parse to those of the accepted responses that are complete in them, in request order. */
  lemma ParsedInOrder(parse: Parser, framed: Frame, x: Ends, n: nat)
    requires Parses(parse, framed) && NetInv(x.server) && Sound(framed, x) && x.s < |x.server.conns| && n <= |Out(x)|
    ensures 0 <= OnTheWay(x.server.conns[x.s]) <= Arrived(x)
    ensures var parsed := parse(Out(x)[..n]);
            && |parsed| == Whole(Begun(x), n)
            && forall i :: 0 <= i < |parsed| ==> Accepted(x, i, parsed[i])
  {
    BegunIsAccepted(framed, x);
    assert Out(x)[..n] == Joined(Begun(x))[..n];
    BeginningParses(parse, framed, Begun(x), n);
  }

  /** More bytes parse to more responses. */
  lemma ParsedGrows(parse: Parser, framed: Frame, x: Ends, n: nat, n': nat)
    requires Parses(parse, framed) && NetInv(x.server) && Sound(framed, x) && x.s < |x.server.conns| && n <= n' <= |Out(x)|
    ensures |parse(Out(x)[..n])| <= |parse(Out(x)[..n'])| <= Arrived(x)
  {
    ParsedInOrder(parse, framed, x, n);
    ParsedInOrder(parse, framed, x, n');
    WholeGrows(Begun(x), n, n');
  }

  /** What the next bytes complete are the messages that follow. */
  lemma DeliverSound(parse: Parser, framed: Frame, x: Ends, n: nat)
    requires Parses(parse, framed) && EndsInv(parse, framed, x) && CanMove(x, Deliver(n)) && Sound(framed, x)
    requires x.s < |x.server.conns|
    ensures Paired(Moved(parse, x, Deliver(n)), |parse(Out(x)[..x.received + n])|)
  {
    var m := |parse(Out(x)[..x.received])|;
    var parsed := parse(Out(x)[..x.received + n]);
    ParsedGrows(parse, framed, x, x.received, x.received + n);
    assert forall i :: 0 <= i < |parsed| ==> Accepted(x, i, parsed[i]) by {
      ParsedInOrder(parse, framed, x, x.received + n);
    }
    DeliverPairs(x, Moved(parse, x, Deliver(n)), m, parsed);
  }

  lemma DeliverKeeps(parse: Parser, framed: Frame, x: Ends, n: nat)
    requires Parses(parse, framed) && EndsInv(parse, framed, x) && CanMove(x, Deliver(n))
    ensures EndsInv(parse, framed, Moved(parse, x, Deliver(n)))
  {
    var x' := Moved(parse, x, Deliver(n));
    assert x'.server == x.server && x'.s == x.s && x'.sent == x.sent;
    if x.s >= |x.server.conns| {
      assert n == 0;
      assert Completed(parse, Out(x)[..x.received], Out(x)[..x.received]) == [];
      assert x' == x;
    } else if Sound(framed, x') {
      assert Sound(framed, x);
      DeliverSound(parse, framed, x, n);
    }
  }

  /** The messages from number `m` on are paired with the requests from number `m` on. */
  lemma DeliverPairs(x: Ends, x': Ends, m: nat, parsed: seq<Response>)
    requires Paired(x, m) && Unique(x.sent) && m <= |parsed| <= Arrived(x)
    requires forall i :: 0 <= i < |parsed| ==> Accepted(x, i, parsed[i])
    requires x' == x.(pairing := Pair(x.pairing, None, parsed[m..]), received := x'.received)
    ensures Paired(x', |parsed|)
  {
    var n := |parsed| - m;
    TakesInTurn(x.pairing, None, parsed[m..]);
    Regroup(x.sent, m, n);
    forall i | 0 <= i < |parsed|
      ensures x'.sent[i] in x'.pairing.response && Accepted(x', i, x'.pairing.response[x'.sent[i]])
    {
      DeliverAnswer(x, m, parsed, i);
    }
    forall c | c in x'.pairing.response ensures c in x'.sent[..|parsed|] {
      NoOtherAnswer(x, m, parsed, c);
    }
  }

  /** Nobody but these has an answer. */
  lemma NoOtherAnswer(x: Ends, m: nat, parsed: seq<Response>, c: Exchange)
    requires Paired(x, m) && m <= |parsed| <= Arrived(x) && c in Pair(x.pairing, None, parsed[m..]).response
    ensures c in x.sent[..|parsed|]
  {
    var n := |parsed| - m;
    if c !in x.pairing.pending[..n] {
      PairsNoOther(x.pairing, None, parsed[m..], c);
    }
    EarlyOrLate(x.sent, m, n, c);
  }

  /** A client answered before keeps its response, and each of the next ones gets the message of its number. */
  lemma DeliverAnswer(x: Ends, m: nat, parsed: seq<Response>, i: nat)
    requires Paired(x, m) && Unique(x.sent) && m <= |parsed| <= Arrived(x) && i < |parsed|
    requires forall j :: 0 <= j < |parsed| ==> Accepted(x, j, parsed[j])
    ensures var response := Pair(x.pairing, None, parsed[m..]).response;
            x.sent[i] in response && Accepted(x, i, response[x.sent[i]])
  {
    var pending := x.pairing.pending;
    if i < m {
      assert Accepted(x, i, x.pairing.response[x.sent[i]]);
      NotAgain(x.sent, m, |parsed| - m, i);
      PairsNoOther(x.pairing, None, parsed[m..], x.sent[i]);
    } else {
      forall a, b | 0 <= a < b < |pending| ensures pending[a] != pending[b] {
        assert pending[a] == x.sent[m + a] && pending[b] == x.sent[m + b];
      }
      PairsInTurn(x.pairing, None, parsed[m..], i - m);
      assert pending[i - m] == x.sent[i] && parsed[m..][i - m] == parsed[i];
    }
  }

  lemma NotAgain(q: seq<Exchange>, d: nat, n: nat, i: nat)
    requires Unique(q) && i < d && d + n <= |q|
    ensures q[i] !in q[d..][..n]
  {
  }

  lemma Regroup(q: seq<Exchange>, d: nat, n: nat)
    requires d + n <= |q|
    ensures q[d..][n..] == q[d + n..]
    ensures q[..d] + q[d..][..n] == q[..d + n]
  {
  }

  lemma EarlyOrLate(q: seq<Exchange>, d: nat, n: nat, c: Exchange)
    requires d + n <= |q|
    requires c in q[..d] || c in q[d..][..n]
    ensures c in q[..d + n]
  {
    assert q[..d + n] == q[..d] + q[d..][..n];
  }

  // ----- runs of both ends

  lemma {:induction false} MovesKeep(parse: Parser, framed: Frame, x: Ends, moves: seq<Move>)
    requires Parses(parse, framed) && EndsInv(parse, framed, x)
    ensures EndsInv(parse, framed, MovedAll(parse, x, moves)) && MovedAll(parse, x, moves).s == x.s
    decreases |moves|
  {
    if moves == [] {
    } else {
      var x' := if CanMove(x, moves[0]) then Moved(parse, x, moves[0]) else x;
      if CanMove(x, moves[0]) {
        match moves[0]
        case Send(client) => SendKeeps(parse, framed, x, client);
        case Serve(a) => ServeKeeps(parse, framed, x, a);
        case Deliver(n) => DeliverKeeps(parse, framed, x, n);
      }
      MovesKeep(parse, framed, x', moves[1..]);
    }
  }

  lemma ReachedEnds(parse: Parser, framed: Frame, s: Socket, moves: seq<Move>)
    requires Parses(parse, framed)
    ensures EndsInv(parse, framed, MovedAll(parse, Connected(s), moves)) && MovedAll(parse, Connected(s), moves).s == s
  {
    NothingReceived(parse, framed, Connected(s));
    assert Out(Connected(s))[..0] == [];
    MovesKeep(parse, framed, Connected(s), moves);
  }

  /**
   In every run of both ends, whatever order the server's application finishes in and in
   whatever pieces the bytes arrive: a client object that has a response has, byte for
   byte, the one that the server accepted for the request of that very object, the
   `response` events were fired in the order of the requests, and no message ever finds
   the client's queue empty.
   */
  lemma EveryClientGetsItsOwnResponse(parse: Parser, framed: Frame, s: Socket, moves: seq<Move>, client: Exchange)
    requires Parses(parse, framed)
    requires var x := MovedAll(parse, Connected(s), moves);
             Sound(framed, x) && client in x.pairing.response
    ensures var x := MovedAll(parse, Connected(s), moves);
            && x.pairing.ok
            && x.pairing.fired <= x.sent
            && exists i :: 0 <= i < |x.pairing.fired| && x.sent[i] == client && Accepted(x, i, x.pairing.response[client])
  {
    ReachedEnds(parse, framed, s, moves);
    var x := MovedAll(parse, Connected(s), moves);
    var m := |parse(Out(x)[..x.received])|;
    var i :| 0 <= i < m && x.sent[..m][i] == client;
    assert x.sent[i] == client;
  }

  /**
   The bytes that the client has read are the responses accepted for the requests it has
   answers for and a proper beginning of the next; when it has read all there is, it has
   an answer to every request that the server answered in full.
   */
  lemma DeliveredBytesWereWritten(parse: Parser, framed: Frame, s: Socket, moves: seq<Move>)
    requires Parses(parse, framed)
    requires var x := MovedAll(parse, Connected(s), moves);
             Sound(framed, x) && s < |x.server.conns|
    ensures var x := MovedAll(parse, Connected(s), moves);
            var k := x.server.conns[s];
            var n := |x.pairing.fired|;
            && x.received <= |Flatten(k.wire)| && n <= |k.clients|
            && Joined(Values(k.clients[..n])) <= Flatten(k.wire)[..x.received]
            && (n < OnTheWay(k) ==> x.received < |Joined(Values(k.clients[..n + 1]))|)
            && (x.received == |Flatten(k.wire)| ==> Answered(k) <= n)
  {
    ReachedEnds(parse, framed, s, moves);
    var x := MovedAll(parse, Connected(s), moves);
    ReadSoFar(parse, framed, x);
    if x.received == |Out(x)| {
      AllIsRead(parse, framed, x);
    }
  }

  lemma FiredIsWhole(parse: Parser, framed: Frame, x: Ends)
    requires Parses(parse, framed) && EndsInv(parse, framed, x) && Sound(framed, x) && x.s < |x.server.conns|
    ensures 0 <= OnTheWay(x.server.conns[x.s]) <= Arrived(x)
    ensures |x.pairing.fired| == Whole(Begun(x), x.received)
  {
    ParsedInOrder(parse, framed, x, x.received);
  }

  lemma ReadSoFar(parse: Parser, framed: Frame, x: Ends)
    requires Parses(parse, framed) && EndsInv(parse, framed, x) && Sound(framed, x) && x.s < |x.server.conns|
    ensures var k := x.server.conns[x.s];
            var n := |x.pairing.fired|;
            && 0 <= n <= OnTheWay(k) <= |k.clients|
            && Joined(Values(k.clients[..n])) <= Out(x)[..x.received]
            && (n < OnTheWay(k) ==> x.received < |Joined(Values(k.clients[..n + 1]))|)
  {
    var rs := Begun(x);
    var n := Whole(rs, x.received);
    FiredIsWhole(parse, framed, x);
    BegunIsAccepted(framed, x);
    assert Out(x)[..x.received] == Joined(rs)[..x.received];
    CutBounds(rs, x.received);
    BegunTake(x, n);
    if n < |rs| {
      BegunTake(x, n + 1);
    }
  }

  lemma AllIsRead(parse: Parser, framed: Frame, x: Ends)
    requires Parses(parse, framed) && EndsInv(parse, framed, x) && Sound(framed, x) && x.s < |x.server.conns|
    requires x.received == |Out(x)|
    ensures Answered(x.server.conns[x.s]) <= |x.pairing.fired|
  {
    FiredIsWhole(parse, framed, x);
    BegunIsAccepted(framed, x);
    WholeHolds(Begun(x), Answered(x.server.conns[x.s]), x.received);
  }

  lemma BegunTake(x: Ends, n: nat)
    requires x.s < |x.server.conns| && n <= OnTheWay(x.server.conns[x.s]) <= |x.server.conns[x.s].clients|
    ensures Begun(x)[..n] == Values(x.server.conns[x.s].clients[..n])
  {
  }

  lemma CutBounds(rs: seq<Response>, n: nat)
    requires n <= |Joined(rs)|
    ensures var m := Whole(rs, n);
            Joined(rs[..m]) <= Joined(rs)[..n] && (m < |rs| ==> n < |Joined(rs[..m + 1])|)
  {
    var m := Whole(rs, n);
    Cut(rs, n);
    if m < |rs| {
      assert rs[..m + 1] == rs[..m] + [rs[m]];
      JoinedAppend(rs[..m], [rs[m]]);
      assert Joined([rs[m]]) == BytesOf(rs[m]) + [] == BytesOf(rs[m]);
    }
  }
}
