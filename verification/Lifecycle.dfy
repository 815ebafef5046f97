/**
 The life of one request: routing into a domain, routing to a resource, and the request
 event, each a chain of handlers in the order of their priorities. The dispatcher calls
 the handlers one by one until one stops the event; afterwards it fires a `_failure`
 event if an exception escaped and a `_success` event otherwise. The handler of such an
 event may be called several times in a row.
 */
module Lifecycle {
  import opened Messages

  /** How a piece of foreign code ends: normally, with a `StatusException`, or with any other exception. */
  datatype Ending = Returns | RaisesStatus | RaisesOther

  /** What a handler does. All of them are wrapped by `httperror`. */
  datatype Act =
    | Foreign(ending: Ending)                         // any further handler
    | RouteHost(domain: Option<nat>, alias: bool)     // DomainRouter._route_host
    | CheckDomain                                     // DomainRouter._on_domain_routing
    | FindResource(resource: Option<nat>)             // RegexPathRouter._find_resource
    | CheckResource                                   // Router._on_resource_routing
    | LookUpMethod(entry: Option<nat>)                // Resource._pre_request: the entry of the table of methods
    | CheckMethod                                     // Resource._check_method_exists
    | SetContentType(negotiated: Option<string>)      // ContentType.set_content_type
    | CheckContentType                                // ContentType._not_acceptable
    | Execute(ending: Ending)                         // Resource._execute_method

  datatype Handler = Handler(priority: real, act: Act)

  /** What the handlers read and write of the client; `chosen` is `client.method`, and `ran` the method that was executed. */
  datatype Request = Request(domain: Option<nat>, resource: Option<nat>, chosen: Option<nat>,
                             contentType: Option<string>, ran: Option<nat>)

  const ARRIVED: Request := Request(None, None, None, None, None)

  /** The effect of one handler and how it ends. */
  function Perform(x: Request, act: Act): (Request, Ending) {
    match act
    case Foreign(ending) => (x, ending)
    case RouteHost(domain, alias) => if alias then (x, RaisesStatus) else (x.(domain := domain), Returns)
    case CheckDomain => (x, if x.domain.None? then RaisesStatus else Returns)
    case FindResource(resource) => (if resource.Some? then x.(resource := resource) else x, Returns)
    case CheckResource => (x, if x.resource.None? then RaisesStatus else Returns)
    case LookUpMethod(entry) => (x.(chosen := entry), Returns)
    case CheckMethod => (x, if x.chosen.None? then RaisesStatus else Returns)
    case SetContentType(negotiated) => (if negotiated.Some? then x.(contentType := negotiated) else x, Returns)
    case CheckContentType => (x, if x.contentType.None? then RaisesStatus else Returns)
    case Execute(ending) => (x.(ran := x.chosen), ending)
  }

  /** Handlers in the order in which they are called. */
  predicate InOrder(hs: seq<Handler>) {
    forall i, j :: 0 <= i < j < |hs| ==> hs[i].priority >= hs[j].priority
  }

  /** The chain up to the first handler that raises; the wrapper stops the event there. */
  function RunChain(x: Request, hs: seq<Handler>): (Request, Ending)
    decreases |hs|
  {
    if hs == [] then (x, Returns)
    else
      var (x', ending) := Perform(x, hs[0].act);
      if ending == Returns then RunChain(x', hs[1..]) else (x', ending)
  }

  // ----- guarded execution

  /** The state before handler `i` of a chain, if it is reached. */
  function Before(x: Request, hs: seq<Handler>, i: nat): Request
    requires i <= |hs|
  {
    if i == 0 then x else Perform(Before(x, hs, i - 1), hs[i - 1].act).0
  }

  /** Whether handler `i` is called: all before it returned. */
  predicate Reached(x: Request, hs: seq<Handler>, i: nat)
    requires i <= |hs|
  {
    i == 0 || (Reached(x, hs, i - 1) && Perform(Before(x, hs, i - 1), hs[i - 1].act).1 == Returns)
  }

  lemma {:induction false} ReachedReturned(x: Request, hs: seq<Handler>, i: nat, j: nat)
    requires j < i <= |hs| && Reached(x, hs, i)
    ensures Perform(Before(x, hs, j), hs[j].act).1 == Returns
  {
    if j == i - 1 {
    } else {
      ReachedReturned(x, hs, i - 1, j);
    }
  }

  lemma {:induction false} ReachedTail(x: Request, hs: seq<Handler>, i: nat)
    requires 0 < i <= |hs| && Perform(x, hs[0].act).1 == Returns
    requires Reached(Perform(x, hs[0].act).0, hs[1..], i - 1)
    ensures Reached(x, hs, i)
  {
    if i == 1 {
      assert Before(x, hs, 0) == x && Reached(x, hs, 0);
    } else {
      ReachedTail(x, hs, i - 1);
      BeforeTail(x, hs, i - 1);
      assert hs[i - 1] == hs[1..][i - 2];
    }
  }

  lemma {:induction false} BeforeTail(x: Request, hs: seq<Handler>, i: nat)
    requires 0 < i <= |hs|
    ensures Before(x, hs, i) == Before(Perform(x, hs[0].act).0, hs[1..], i - 1)
  {
    if i == 1 {
      assert Before(x, hs, 0) == x;
    } else {
      BeforeTail(x, hs, i - 1);
    }
  }

  /** The dispatcher's loop stops after the first handler that raises, or at the end. */
  lemma {:induction false} ChainStops(x: Request, hs: seq<Handler>) returns (n: nat)
    ensures n <= |hs| && Reached(x, hs, n)
    ensures RunChain(x, hs).1 == Returns <==> n == |hs|
    ensures n == |hs| ==> RunChain(x, hs).0 == Before(x, hs, n)
    ensures n < |hs| ==> RunChain(x, hs) == Perform(Before(x, hs, n), hs[n].act)
    decreases |hs|
  {
    if hs == [] {
      return 0;
    }
    var (x', ending) := Perform(x, hs[0].act);
    if ending != Returns {
      n := 0;
    } else {
      var m := ChainStops(x', hs[1..]);
      n := m + 1;
      BeforeTail(x, hs, n);
      ReachedTail(x, hs, n);
    }
  }

  /** The handlers that a resource brings for a request, at their priorities, among any others. */
  predicate RequestChain(hs: seq<Handler>, entry: Option<nat>) {
    && InOrder(hs)
    && (exists i :: 0 <= i < |hs| && hs[i] == Handler(1.0, LookUpMethod(entry)))
    && (exists i :: 0 <= i < |hs| && hs[i] == Handler(0.6, CheckMethod))
    && (exists i :: 0 <= i < |hs| && hs[i] == Handler(0.51, CheckContentType))
    && (forall i :: 0 <= i < |hs| ==>
          match hs[i].act
          case LookUpMethod(e) => hs[i].priority == 1.0 && e == entry
          case SetContentType(_) => hs[i].priority == 0.59
          case Execute(_) => hs[i].priority == 0.5
          case Foreign(_) => true
          case CheckMethod => true
          case CheckContentType => true
          case _ => false)
  }

  /** Once looked up, the method stays what the table says. */
  lemma {:induction false} MethodStays(x: Request, hs: seq<Handler>, entry: Option<nat>, a: nat, i: nat)
    requires RequestChain(hs, entry) && a < i <= |hs| && hs[a].act == LookUpMethod(entry)
    ensures Before(x, hs, i).chosen == entry
  {
    if i == a + 1 {
    } else {
      MethodStays(x, hs, entry, a, i - 1);
      assert hs[i - 1] in hs;
    }
  }

  /** A content type, once there, stays there. */
  lemma {:induction false} ContentTypeStays(x: Request, hs: seq<Handler>, a: nat, i: nat)
    requires a <= i <= |hs| && Before(x, hs, a).contentType.Some?
    ensures Before(x, hs, i).contentType.Some?
  {
    if i == a {
    } else {
      ContentTypeStays(x, hs, a, i - 1);
    }
  }

  /** A handler of lower priority comes later. */
  lemma LowerIsLater(hs: seq<Handler>, i: nat, j: nat)
    requires InOrder(hs) && i < |hs| && j < |hs| && hs[i].priority > hs[j].priority
    ensures i < j
  {
  }

  /** No handler below priority 0.6 is called without a method; the method is the one the table has for the request. */
  lemma MethodIsKnown(x: Request, hs: seq<Handler>, entry: Option<nat>, i: nat)
    requires RequestChain(hs, entry) && i < |hs| && hs[i].priority < 0.6 && Reached(x, hs, i)
    ensures entry.Some? && Before(x, hs, i).chosen == entry
  {
    var a :| 0 <= a < |hs| && hs[a] == Handler(1.0, LookUpMethod(entry));
    var b :| 0 <= b < |hs| && hs[b] == Handler(0.6, CheckMethod);
    LowerIsLater(hs, a, b);
    LowerIsLater(hs, b, i);
    MethodStays(x, hs, entry, a, b);
    MethodStays(x, hs, entry, a, i);
    ReachedReturned(x, hs, i, b);
  }

  /** No handler below priority 0.51 is called without a content type. */
  lemma ContentTypeIsKnown(x: Request, hs: seq<Handler>, entry: Option<nat>, i: nat)
    requires RequestChain(hs, entry) && i < |hs| && hs[i].priority < 0.51 && Reached(x, hs, i)
    ensures Before(x, hs, i).contentType.Some?
  {
    var c :| 0 <= c < |hs| && hs[c] == Handler(0.51, CheckContentType);
    LowerIsLater(hs, c, i);
    ReachedReturned(x, hs, i, c);
    ContentTypeStays(x, hs, c, i);
  }

  /**
   The application's method runs only if every handler of higher priority returned, the
   table has a method for the request, that one is it, and a content type was found.
   */
  lemma ExecutionIsGuarded(x: Request, hs: seq<Handler>, entry: Option<nat>, i: nat)
    requires RequestChain(hs, entry) && i < |hs| && hs[i].act.Execute? && Reached(x, hs, i)
    ensures forall j :: 0 <= j < |hs| && hs[j].priority > 0.5 ==> j < i && Perform(Before(x, hs, j), hs[j].act).1 == Returns
    ensures entry.Some? && Perform(Before(x, hs, i), hs[i].act).0.ran == entry
    ensures Before(x, hs, i).contentType.Some?
  {
    assert hs[i] in hs && hs[i].priority == 0.5;
    MethodIsKnown(x, hs, entry, i);
    ContentTypeIsKnown(x, hs, entry, i);
    forall j | 0 <= j < |hs| && hs[j].priority > 0.5 ensures j < i && Perform(Before(x, hs, j), hs[j].act).1 == Returns {
      LowerIsLater(hs, j, i);
      ReachedReturned(x, hs, i, j);
    }
  }

  // ----- routing

  /** The handlers of the first routing event: the domain is looked up before it is checked. */
  predicate DomainChain(hs: seq<Handler>) {
    && InOrder(hs)
    && (exists i :: 0 <= i < |hs| && hs[i] == Handler(-0.11, CheckDomain))
    && (forall i :: 0 <= i < |hs| && hs[i].act.RouteHost? ==> hs[i].priority > 0.0)
  }

  lemma {:induction false} DomainStays(x: Request, hs: seq<Handler>, a: nat, i: nat)
    requires DomainChain(hs) && a <= i <= |hs| && (a < |hs| ==> hs[a].priority < 0.0)
    ensures Before(x, hs, i).domain == Before(x, hs, a).domain
  {
    if i == a {
    } else {
      DomainStays(x, hs, a, i - 1);
      assert hs[i - 1].priority <= hs[a].priority;
    }
  }

  /** After the first routing event the domain is known, as `_route_into_domain` takes for granted. */
  lemma DomainIsKnown(x: Request, hs: seq<Handler>)
    requires DomainChain(hs) && RunChain(x, hs).1 == Returns
    ensures RunChain(x, hs).0.domain.Some?
  {
    var n := ChainStops(x, hs);
    var c :| 0 <= c < |hs| && hs[c] == Handler(-0.11, CheckDomain);
    if c < n {
      ReachedReturned(x, hs, n, c);
    }
    DomainStays(x, hs, c, n);
  }

  // ----- outcomes

  /** What is fired for a client: an error by the `httperror` wrapper, an error by `_on_request_failure`, or a response. */
  datatype Outcome = WrapperError | FailureError | Answer

  function RequestOutcome(x: Request, request: seq<Handler>): seq<Outcome> {
    match RunChain(x, request).1
    case Returns => [Answer]
    case RaisesStatus => [WrapperError]
    case RaisesOther => [FailureError]
  }

  /** The second routing event, fired `times` times: the state after all of them, the errors, and whether one succeeded. */
  function RouteTimes(x: Request, routing: seq<Handler>, times: nat): (Request, seq<Outcome>, bool) {
    if times == 0 then (x, [], false)
    else
      var (x', errors, any) := RouteTimes(x, routing, times - 1);
      var (x'', ending) := RunChain(x', routing);
      (x'', errors + if ending == RaisesStatus then [WrapperError] else [], any || ending == Returns)
  }

  /** Everything that is fired for a client whose second routing event is fired `times` times. */
  function Outcomes(domains: seq<Handler>, routing: seq<Handler>, request: seq<Handler>, times: nat): seq<Outcome> {
    var (x, ending) := RunChain(ARRIVED, domains);
    match ending
    case RaisesStatus => [WrapperError]
    case RaisesOther => []
    case Returns =>
      var (x', errors, any) := RouteTimes(x, routing, times);
      errors + if any then RequestOutcome(x', request) else []
  }

  /**
   With one second routing event, a client has at most one outcome, and none exactly when a
   handler of one of the routing events raises something other than a `StatusException`.
   */
  lemma OneOutcome(domains: seq<Handler>, routing: seq<Handler>, request: seq<Handler>)
    ensures |Outcomes(domains, routing, request, 1)| <= 1
    ensures Outcomes(domains, routing, request, 1) == [] <==>
              || RunChain(ARRIVED, domains).1 == RaisesOther
              || (RunChain(ARRIVED, domains).1 == Returns && RunChain(RunChain(ARRIVED, domains).0, routing).1 == RaisesOther)
  {
    var x := RunChain(ARRIVED, domains).0;
    assert RouteTimes(x, routing, 0) == (x, [], false);
    assert RouteTimes(x, routing, 1).1 == [] + if RunChain(x, routing).1 == RaisesStatus then [WrapperError] else [];
  }

  /** A chain that finds no resource fails however often it is run. */
  lemma {:induction false} NotFoundEveryTime(x: Request, times: nat)
    requires x.resource == None
    ensures var r := RouteTimes(x, [Handler(-0.12, CheckResource)], times);
            r.0 == x && |r.1| == times && !r.2
  {
    if times == 0 {
    } else {
      NotFoundEveryTime(x, times - 1);
      var hs := [Handler(-0.12, CheckResource)];
      assert hs[1..] == [];
      assert RunChain(x, hs) == (x, RaisesStatus);
    }
  }

  /**
   `_route_into_domain` has no guard against being called several times: for a path without
   resource a client then has as many outcomes as there were calls.
   */
  lemma SeveralCallsSeveralOutcomes(domain: nat, times: nat, request: seq<Handler>)
    ensures var domains := [Handler(1.8, RouteHost(Some(domain), false)), Handler(-0.11, CheckDomain)];
            DomainChain(domains) && |Outcomes(domains, [Handler(-0.12, CheckResource)], request, times)| == times
  {
    var domains := [Handler(1.8, RouteHost(Some(domain), false)), Handler(-0.11, CheckDomain)];
    assert domains[1] == Handler(-0.11, CheckDomain);
    assert domains[1..] == [domains[1]] && domains[1..][1..] == [];
    var x := ARRIVED.(domain := Some(domain));
    assert RunChain(x, [domains[1]]) == (x, Returns);
    assert RunChain(ARRIVED, domains) == (x, Returns);
    NotFoundEveryTime(x, times);
  }

  /** At most one outcome is promised for all handlers exactly if the second routing event is fired at most once. */
  lemma OneOutcomeExactly(times: nat)
    ensures (forall domains, routing, request :: DomainChain(domains) ==> |Outcomes(domains, routing, request, times)| <= 1)
            <==> times <= 1
  {
    if times == 1 {
      forall domains, routing, request | DomainChain(domains) ensures |Outcomes(domains, routing, request, times)| <= 1 {
        OneOutcome(domains, routing, request);
      }
    } else if times > 1 {
      var domains := [Handler(1.8, RouteHost(Some(0), false)), Handler(-0.11, CheckDomain)];
      SeveralCallsSeveralOutcomes(0, times, []);
      assert DomainChain(domains) && |Outcomes(domains, [Handler(-0.12, CheckResource)], [], times)| > 1;
    }
  }

  // ----- the components

  class Event {
    var stopped: bool
    // _request_success_foobar
    var served: bool

    constructor ()
      ensures !stopped && !served
    {
      stopped, served := false, false;
    }
  }

  class Client {
    var request: Request
    // client.events.request
    var requestEvent: Event?
    var handled: bool
    // the httperror and response events fired for this client
    var fired: seq<Outcome>

    constructor ()
      ensures request == ARRIVED && requestEvent == null && !handled && fired == []
    {
      request, requestEvent, handled, fired := ARRIVED, null, false, [];
    }

    /** The dispatcher with the `httperror` wrapper around every handler. */
    method Dispatch(event: Event, hs: seq<Handler>) returns (ending: Ending)
      requires !event.stopped
      modifies this`request, this`requestEvent, this`fired, event`stopped, requestEvent
      ensures (request, ending) == RunChain(old(request), hs)
      ensures event.stopped <==> ending != Returns
      ensures fired == old(fired) + if ending == RaisesStatus then [WrapperError] else []
      ensures requestEvent == if ending == Returns then old(requestEvent) else null
      ensures event.served == old(event.served)
    {
      for i := 0 to |hs|
        invariant RunChain(request, hs[i..]) == RunChain(old(request), hs)
        invariant !event.stopped && fired == old(fired) && requestEvent == old(requestEvent)
        invariant requestEvent != null ==> requestEvent.served == old(requestEvent.served)
        invariant event.served == old(event.served)
      {
        var (x, e) := Perform(request, hs[i].act);
        request := x;
        assert hs[i..][1..] == hs[i+1..];
        if e != Returns {
          event.stopped := true;
          if requestEvent != null {
            requestEvent.stopped := true;
            requestEvent := null;
          }
          if e == RaisesStatus {
            fired := fired + [WrapperError];
          }
          return e;
        }
      }
      assert hs[|hs|..] == [];
      return Returns;
    }

    /** `Router._on_routing_success`, called `calls` times for one event. */
    method OnRoutingSuccess(event: Event, calls: nat)
      requires calls > 0
      modifies this`requestEvent
      ensures old(requestEvent) != null || event.stopped ==> requestEvent == old(requestEvent)
      ensures old(requestEvent) == null && !event.stopped ==> requestEvent != null && fresh(requestEvent) && !requestEvent.stopped && !requestEvent.served
    {
      for i := 0 to calls
        invariant old(requestEvent) != null || event.stopped ==> requestEvent == old(requestEvent)
        invariant old(requestEvent) == null && i == 0 ==> requestEvent == null
        invariant old(requestEvent) == null && i > 0 && !event.stopped ==>
                    requestEvent != null && fresh(requestEvent) && !requestEvent.stopped && !requestEvent.served
      {
        if !event.stopped && requestEvent == null {
          requestEvent := new Event();
        }
      }
    }

    /** `Router._on_request_success`, called `calls` times for one event. */
    method OnRequestSuccess(event: Event, calls: nat)
      requires calls > 0 && !event.served
      modifies this`fired, event`served
      ensures fired == old(fired) + if event.stopped then [] else [Answer]
    {
      for i := 0 to calls
        invariant event.served <==> i > 0 && !event.stopped
        invariant fired == old(fired) + if event.served then [Answer] else []
      {
        if !event.stopped && !event.served {
          event.served := true;
          fired := fired + [Answer];
        }
      }
    }

    /** `HTTP._on_request_failure`, called `calls` times. */
    method OnRequestFailure(calls: nat)
      requires calls > 0 && !handled
      modifies this`fired, this`handled
      ensures fired == old(fired) + [FailureError]
    {
      for i := 0 to calls
        invariant handled <==> i > 0
        invariant fired == old(fired) + if handled then [FailureError] else []
      {
        if !handled {
          handled := true;
          fired := fired + [FailureError];
        }
      }
    }

    /** The request event and what follows it. */
    method ServeRequest(hs: seq<Handler>, calls: nat)
      requires calls > 0 && requestEvent != null && !requestEvent.stopped && !requestEvent.served && !handled
      modifies this, requestEvent
      ensures fired == old(fired) + RequestOutcome(old(request), hs)
    {
      var event := requestEvent;
      var ending := Dispatch(event, hs);
      if ending == RaisesOther {
        OnRequestFailure(calls);
      } else {
        OnRequestSuccess(event, calls);
      }
    }
  }

  /**
   One request from its arrival to its outcome. The handlers of the `_success` and
   `_failure` events are called `calls` times each; `_route_into_domain` is called `times`
   times, and all the routing events it fires are dispatched before their successes.
   */
  method Serve(domains: seq<Handler>, routing: seq<Handler>, request: seq<Handler>, times: nat, calls: nat)
    returns (client: Client)
    requires DomainChain(domains) && calls > 0
    ensures fresh(client) && client.fired == Outcomes(domains, routing, request, times)
  {
    client := new Client();
    var first := new Event();
    var ending := client.Dispatch(first, domains);
    if ending != Returns {
      return;
    }
    DomainIsKnown(ARRIVED, domains);
    assert client.request.domain.Some?;
    ghost var x := client.request;
    var succeeded: Event? := null;
    for i := 0 to times
      invariant client.requestEvent == null && !client.handled && fresh(client)
      invariant (client.request, client.fired, succeeded != null) == RouteTimes(x, routing, i)
      invariant succeeded != null ==> fresh(succeeded) && !succeeded.stopped
    {
      var second := new Event();
      ending := client.Dispatch(second, routing);
      if ending == Returns {
        succeeded := second;
      }
    }
    if succeeded != null {
      client.OnRoutingSuccess(succeeded, calls);
      client.ServeRequest(request, calls);
    }
  }
}
