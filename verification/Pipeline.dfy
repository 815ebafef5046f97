/**
 The pipelined response engine of the server, one step at a time.

 A connection keeps its requests in a pipeline. Answers arrive as `response` events in
 any order and are sent by a chain of events, `response.start`, `response.body` for
 every chunk and `response.complete`, that waits in the event queue of the application.
 Every function here is one handler: it maps the state of one connection to the next
 one and to the events it fires. The dispatcher may pick any pending event, so that
 whatever holds of all runs holds for every priority and every delay.
 */
module Pipeline {
  import opened Messages

  /** A client object is known by its socket and by its place among the socket's requests. */
  datatype ClientId = ClientId(socket: Socket, serial: nat)

  datatype Event =
    | Respond(client: ClientId)                         // response
    | Start(client: ClientId)                           // response.start
    | Body(client: ClientId)                            // response.body
    | Complete(client: ClientId)                        // response.complete
    | RespondFailed(client: ClientId, page: Response)   // response_failure
    | Error(client: ClientId, page: Response)           // httperror
    | ErrorDone(client: ClientId, ignored: bool)        // httperror_success
    | ErrorFailed(client: ClientId)                     // httperror_failure
    | Close(socket: Socket)                             // close, disconnect
    | Check(socket: Socket)                             // timeout.check
  {
    /** The connection the event is about. */
    function On(): Socket {
      if Close? || Check? then socket else client.socket
    }

    /** The events that drive the sending of one response. */
    predicate IsToken() {
      Start? || Body? || Complete?
    }
  }

  /**
   A client object. The last six fields are history: the blocks written for it, whether
   its body was sent to the end, its response at the moment it was accepted, whether that
   response was replaced later, whether a failed `response` event marked it done, and
   whether the replacement cost it anything of what was accepted.
   */
  datatype Record = Record(connect: bool, response: Response, done: bool, sent: seq<Bytes>, ended: bool,
                           accepted: Option<Response>, swapped: bool, failed: bool, lost: bool)

  /** A sleeping idle check; `pending` until it wakes up. */
  datatype Timer = Timer(aborted: bool, pending: bool)

  /**
   The state of one connection. `live` says whether the server still has it in its
   table. History: `clients`, every client that ever arrived, `wire`, the blocks written
   to the socket, `tainted`, whether an error page was written past the pipeline, and
   `stalled`, whether a body iterator raised.
   */
  datatype Conn = Conn(live: bool, requests: seq<nat>, responses: set<nat>, started: set<nat>,
                       composed: map<nat, bool>, tunnel: bool, timeout: Option<nat>, timers: seq<Timer>,
                       clients: seq<Record>, wire: seq<Bytes>, tainted: bool, stalled: bool)

  const FRESH: Conn := Conn(true, [], {}, {}, map[], false, None, [], [], [], false, false)

  /** The next state of a connection, the events fired, and whether the handler raised where nothing handles it. */
  datatype Effect = Effect(conn: Conn, fired: seq<Event>, broken: bool)

  /** The number of requests answered in full and popped. */
  function Answered(k: Conn): int {
    |k.clients| - |k.requests|
  }

  // ----- the handlers

  /** `_premature_client_disconnect`: nobody will read the answer; the body is closed. */
  function Premature(k: Conn, i: nat): Conn
    requires i < |k.clients|
  {
    k.(clients := k.clients[i := k.clients[i].(response := k.clients[i].response.(body := []))])
  }

  function AddClient(k: Conn, connect: bool, response: Response): Conn {
    k.(requests := k.requests + [|k.clients|],
       clients := k.clients + [Record(connect, response, false, [], false, None, false, false, false)])
  }

  function OnResponse(s: Socket, k: Conn, i: nat): Effect
    requires i < |k.clients|
  {
    var c := ClientId(s, i);
    if !k.live then
      Effect(Premature(k, i), [], false)
    else if i in k.responses then
      Effect(k, [RespondFailed(c, BARE_500)], false)
    else
      var r := k.clients[i];
      Effect(k.(responses := k.responses + {i}, clients := k.clients[i := r.(accepted := Some(r.response))]),
             if k.requests == [] || k.requests[0] != i then [] else [Start(c)], false)
  }

  predicate OpensTunnel(r: Record) {
    r.response.status == 101 || (r.connect && 200 <= r.response.status < 300)
  }

  function OnStart(s: Socket, k: Conn, i: nat): Effect
    requires i < |k.clients|
  {
    if !k.live then
      Effect(Premature(k, i), [], false)
    else
      var r := k.clients[i];
      Effect(k.(started := k.started + {i}, tunnel := k.tunnel || OpensTunnel(r),
                composed := k.composed[i := r.response.close],
                wire := k.wire + [r.response.head],
                clients := k.clients[i := r.(sent := r.sent + [r.response.head])]),
             [Body(ClientId(s, i))], false)
  }

  /** Unlike its neighbours this handler does not ask whether the connection is still there. */
  function OnBody(s: Socket, k: Conn, i: nat): Effect
    requires i < |k.clients|
  {
    var c := ClientId(s, i);
    var r := k.clients[i];
    if r.response.body == [] then
      Effect(k.(clients := k.clients[i := r.(done := true, ended := true)]), [Complete(c)], false)
    else
      var data := r.response.body[0];
      Effect(k.(wire := k.wire + [data],
                clients := k.clients[i := r.(sent := r.sent + [data], response := r.response.(body := r.response.body[1..]))]),
             [Body(c)], false)
  }

  /** `broken` stands for the failing assertion and for the failing lookup in `composed`. */
  function OnComplete(s: Socket, k: Conn, i: nat): Effect
    requires i < |k.clients|
  {
    if !k.live then
      Effect(Premature(k, i), [], false)
    else if k.requests == [] || k.requests[0] != i then
      Effect(k, [], true)
    else
      var k' := k.(requests := k.requests[1..]);
      if k'.requests == [] then
        if i !in k.composed then Effect(k', [], true)
        else Effect(k', if k.composed[i] then [Close(s)] else [], false)
      else
        var next := k'.requests[0];
        Effect(k', if next in k.responses && next !in k.started then [Start(ClientId(s, next))] else [], false)
  }

  /** The guard at priority 1.1 and the default page at 0.1. */
  function OnError(s: Socket, k: Conn, i: nat, page: Response): Effect
    requires i < |k.clients|
  {
    var c := ClientId(s, i);
    if !k.live then
      Effect(Premature(k, i), [ErrorDone(c, true)], false)
    else if i in k.responses then
      Effect(k, [ErrorFailed(c)], false)
    else
      Effect(k.(clients := k.clients[i := k.clients[i].(response := page)]), [ErrorDone(c, false)], false)
  }

  function OnErrorDone(s: Socket, k: Conn, i: nat, ignored: bool): Effect {
    Effect(k, if ignored then [] else [Respond(ClientId(s, i))], false)
  }

  function OnErrorFailed(s: Socket, k: Conn, i: nat): Effect
    requires i < |k.clients|
  {
    if !k.live then
      Effect(Premature(k, i), [], false)
    else if i in k.responses then
      Effect(k, [], false)
    else
      Effect(k.(clients := k.clients[i := k.clients[i].(response := BARE_500)],
                wire := k.wire + [BARE_500.head], tainted := true),
             [Close(s)], false)
  }

  /** Whether a bare 500 in its place takes anything away from a response: what is left of the body, or the head. */
  predicate Loses(r: Record, started: bool) {
    if started then r.response.body != [] else Render(r.response) != Render(BARE_500)
  }

  function OnRespondFailed(s: Socket, k: Conn, i: nat, page: Response): Effect
    requires i < |k.clients|
  {
    var r := k.clients[i];
    if r.done then
      Effect(k, [], false)
    else if !k.live then
      Effect(Premature(k, i), [], false)
    else
      Effect(k.(clients := k.clients[i := r.(response := BARE_500, done := true, failed := true,
                                             swapped := r.swapped || i in k.responses,
                                             lost := r.lost || (i in k.responses && Loses(r, i in k.started)))]),
             [Error(ClientId(s, i), page)], false)
  }

  function OnCheck(k: Conn): Effect {
    if !k.live || k.tunnel then
      Effect(k, [], false)
    else
      var ts := if k.timeout.Some? && k.timeout.value < |k.timers|
                then k.timers[k.timeout.value := k.timers[k.timeout.value].(aborted := true)]
                else k.timers;
      Effect(k.(timers := ts + [Timer(false, true)], timeout := Some(|ts|)), [], false)
  }

  predicate AllDone(k: Conn) {
    forall j :: 0 <= j < |k.requests| ==> k.requests[j] < |k.clients| && k.clients[k.requests[j]].done
  }

  /** The second half of the idle check, when timer `t` wakes up. */
  function OnExpire(s: Socket, k: Conn, t: nat): Effect
    requires t < |k.timers|
  {
    var timer := k.timers[t];
    var k' := k.(timers := k.timers[t := timer.(pending := false)]);
    Effect(k', if timer.aborted || k.tunnel || !AllDone(k) then [] else [Close(s)], false)
  }

  function OnClose(k: Conn): Effect {
    Effect(k.(live := false), [], false)
  }

  // ----- events and runs

  datatype Net = Net(conns: seq<Conn>, queue: seq<Event>, broken: bool)

  const INITIAL: Net := Net([], [], false)

  /** Whether the client or the connection the event is about exists. */
  predicate Known(conns: seq<Conn>, e: Event) {
    e.On() < |conns| && (e.Close? || e.Check? || e.client.serial < |conns[e.On()].clients|)
  }

  /** The handler for an event. */
  function Handle(k: Conn, e: Event): Effect
    requires e.Close? || e.Check? || e.client.serial < |k.clients|
  {
    match e
    case Respond(c) => OnResponse(c.socket, k, c.serial)
    case Start(c) => OnStart(c.socket, k, c.serial)
    case Body(c) => OnBody(c.socket, k, c.serial)
    case Complete(c) => OnComplete(c.socket, k, c.serial)
    case RespondFailed(c, page) => OnRespondFailed(c.socket, k, c.serial, page)
    case Error(c, page) => OnError(c.socket, k, c.serial, page)
    case ErrorDone(c, ignored) => OnErrorDone(c.socket, k, c.serial, ignored)
    case ErrorFailed(c) => OnErrorFailed(c.socket, k, c.serial)
    case Close(_) => OnClose(k)
    case Check(_) => OnCheck(k)
  }

  /** The events during whose dispatch foreign code may raise. */
  predicate CanRaise(e: Event) {
    e.Respond? || e.Body? || e.Error? || (e.ErrorDone? && !e.ignored)
  }

  /** The same dispatch when foreign code raises in it: another handler, the body iterator, or the encoder. */
  function HandleRaising(k: Conn, e: Event, page: Response): Effect
    requires CanRaise(e) && e.client.serial < |k.clients|
  {
    match e
    case Respond(c) =>
      var f := OnResponse(c.socket, k, c.serial);
      f.(fired := f.fired + if !k.live || c.serial !in k.responses then [RespondFailed(c, page)] else [])
    case Error(c, p) =>
      var f := OnError(c.socket, k, c.serial, p);
      f.(fired := [ErrorFailed(c)])
    case ErrorDone(c, _) => OnErrorFailed(c.socket, k, c.serial)
    case _ => Effect(k.(stalled := true), [Close(e.client.socket)], false)
  }

  /** A request as the parser hands it over. */
  datatype Arrival = Arrival(connect: bool, response: Response)

  function AddAll(k: Conn, batch: seq<Arrival>): Conn
    decreases |batch|
  {
    if batch == [] then k else AddAll(AddClient(k, batch[0].connect, batch[0].response), batch[1..])
  }

  datatype Action =
    | Connect(s: Socket)
    | Read(s: Socket, batch: seq<Arrival>)                   // the parser yields these requests
    | ReadFails(s: Socket, arrival: Arrival, page: Response) // the parser raises
    | Compose(client: ClientId, response: Response)          // the application works on its response
    | Fire(event: Event)                                     // the application fires response or httperror
    | Dispatch(i: nat)                                       // the i-th pending event is handled
    | Raise(i: nat, page: Response)                          // likewise, and foreign code raises
    | Expire(s: Socket, t: nat)                              // a timer wakes up
    | Disconnect(s: Socket)

  function Without<T>(q: seq<T>, i: nat): seq<T>
    requires i < |q|
  {
    q[..i] + q[i+1..]
  }

  /** The connections with socket `s` among them; a socket is first seen when it is first read. */
  function Open(conns: seq<Conn>, s: Socket): seq<Conn> {
    if s == |conns| then conns + [FRESH] else conns
  }

  predicate Enabled(net: Net, a: Action) {
    match a
    case Connect(_) => true
    // a socket is not read again after it was closed
    case Read(s, _) => s == |net.conns| || (s < |net.conns| && net.conns[s].live)
    case ReadFails(s, _, _) => s == |net.conns| || (s < |net.conns| && net.conns[s].live)
    // an accepted response is left alone
    case Compose(c, _) => c.socket < |net.conns| && c.serial < |net.conns[c.socket].clients|
                          && c.serial !in net.conns[c.socket].responses
    case Fire(e) => (e.Respond? || e.Error?) && Known(net.conns, e)
    case Dispatch(i) => i < |net.queue|
    case Raise(i, _) => i < |net.queue| && CanRaise(net.queue[i]) && Known(net.conns, net.queue[i])
    case Expire(s, t) => s < |net.conns| && t < |net.conns[s].timers| && net.conns[s].timers[t].pending
    case Disconnect(s) => s < |net.conns|
  }

  /** Puts the effect of a handler on connection `s` back; `rest` is the queue without the event that was handled. */
  function Apply(net: Net, s: Socket, f: Effect, rest: seq<Event>): Net
    requires s < |net.conns|
  {
    Net(net.conns[s := f.conn], rest + f.fired, net.broken || f.broken)
  }

  function Step(net: Net, a: Action): Net
    requires Enabled(net, a)
  {
    match a
    case Connect(s) => net.(queue := net.queue + [Check(s)])
    case Read(s, batch) =>
      var conns := Open(net.conns, s);
      var k := conns[s];
      net.(conns := conns[s := if k.tunnel then k else AddAll(k, batch)], queue := net.queue + [Check(s)])
    case ReadFails(s, arrival, page) =>
      var conns := Open(net.conns, s);
      var k := conns[s];
      if k.tunnel then net.(conns := conns, queue := net.queue + [Check(s)])
      else net.(conns := conns[s := AddClient(k, arrival.connect, arrival.response)],
                queue := net.queue + [Error(ClientId(s, |k.clients|), page), Check(s)])
    case Compose(c, response) =>
      var k := net.conns[c.socket];
      net.(conns := net.conns[c.socket := k.(clients := k.clients[c.serial := k.clients[c.serial].(response := response)])])
    case Fire(e) => net.(queue := net.queue + [e])
    case Dispatch(i) =>
      var e := net.queue[i];
      if Known(net.conns, e)
      then Apply(net, e.On(), Handle(net.conns[e.On()], e), Without(net.queue, i))
      else net.(queue := Without(net.queue, i))
    case Raise(i, page) =>
      var e := net.queue[i];
      Apply(net, e.On(), HandleRaising(net.conns[e.On()], e, page), Without(net.queue, i))
    case Expire(s, t) => Apply(net, s, OnExpire(s, net.conns[s], t), net.queue)
    case Disconnect(s) => Apply(net, s, OnClose(net.conns[s]), net.queue)
  }

  /** The state after a list of actions; actions that are not possible are skipped. */
  function Run(net: Net, actions: seq<Action>): Net
    decreases |actions|
  {
    if actions == [] then net
    else Run(if Enabled(net, actions[0]) then Step(net, actions[0]) else net, actions[1..])
  }
}
