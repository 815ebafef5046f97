/**
 Which outcome a request has, in terms of what its handlers find: the host, the resource,
 the entry of the table of methods, the content type, and how the foreign handlers and the
 application's method end. The first handler that raises decides.
 */
module LifecycleOutcomes {
  import opened Messages
  import opened Lifecycle

  /** What is found for a request, and how the application's method ends. */
  datatype Facts = Facts(domain: Option<nat>, alias: bool, resource: Option<nat>, entry: Option<nat>,
                         contentType: Option<string>, ending: Ending)

  /** How a handler ends, given the facts and not the handlers before it. */
  function Ends(act: Act, facts: Facts): Ending {
    match act
    case Foreign(ending) => ending
    case RouteHost(_, _) => if facts.alias then RaisesStatus else Returns
    case CheckDomain => if facts.domain == None then RaisesStatus else Returns
    case FindResource(_) => Returns
    case CheckResource => if facts.resource == None then RaisesStatus else Returns
    case LookUpMethod(_) => Returns
    case CheckMethod => if facts.entry == None then RaisesStatus else Returns
    case SetContentType(_) => Returns
    case CheckContentType => if facts.contentType == None then RaisesStatus else Returns
    case Execute(_) => facts.ending
  }

  /** The handlers of the first routing event. */
  predicate DomainHandlers(hs: seq<Handler>, facts: Facts) {
    && DomainChain(hs)
    && (exists i :: 0 <= i < |hs| && hs[i].act == RouteHost(facts.domain, facts.alias))
    && (forall i :: 0 <= i < |hs| ==>
          match hs[i].act
          case RouteHost(domain, alias) => domain == facts.domain && alias == facts.alias
          case CheckDomain => hs[i].priority == -0.11
          case Foreign(_) => true
          case _ => false)
  }

  /** Those of the second. */
  predicate RoutingHandlers(hs: seq<Handler>, facts: Facts) {
    && InOrder(hs)
    && (exists i :: 0 <= i < |hs| && hs[i] == Handler(0.0, FindResource(facts.resource)))
    && (exists i :: 0 <= i < |hs| && hs[i] == Handler(-0.12, CheckResource))
    && (forall i :: 0 <= i < |hs| ==>
          match hs[i].act
          case FindResource(resource) => hs[i].priority == 0.0 && resource == facts.resource
          case CheckResource => hs[i].priority == -0.12
          case Foreign(_) => true
          case _ => false)
  }

  /** Those of the request event. */
  predicate RequestHandlers(hs: seq<Handler>, facts: Facts) {
    && RequestChain(hs, facts.entry)
    && (exists i :: 0 <= i < |hs| && hs[i].act == SetContentType(facts.contentType))
    && (exists i :: 0 <= i < |hs| && hs[i].act == Execute(facts.ending))
    && (forall i :: 0 <= i < |hs| ==>
          match hs[i].act
          case CheckMethod => hs[i].priority == 0.6
          case CheckContentType => hs[i].priority == 0.51
          case SetContentType(negotiated) => negotiated == facts.contentType
          case Execute(ending) => ending == facts.ending
          case _ => true)
  }

  // ----- one chain

  predicate AllReturn(hs: seq<Handler>, facts: Facts) {
    forall i :: 0 <= i < |hs| ==> Ends(hs[i].act, facts) == Returns
  }

  predicate FirstRaises(hs: seq<Handler>, facts: Facts, i: nat) {
    i < |hs| && Ends(hs[i].act, facts) != Returns && forall j :: 0 <= j < i ==> Ends(hs[j].act, facts) == Returns
  }

  /** Every handler that is called ends as the facts say. */
  predicate EndsByFacts(x: Request, hs: seq<Handler>, facts: Facts) {
    forall i :: 0 <= i < |hs| && Reached(x, hs, i) ==> Perform(Before(x, hs, i), hs[i].act).1 == Ends(hs[i].act, facts)
  }

  lemma {:induction false} ReachedEarlier(x: Request, hs: seq<Handler>, i: nat, j: nat)
    requires j <= i <= |hs| && Reached(x, hs, i)
    ensures Reached(x, hs, j)
  {
    if j == i {
    } else {
      ReachedEarlier(x, hs, i - 1, j);
    }
  }

  lemma ChainByFacts(x: Request, hs: seq<Handler>, facts: Facts)
    requires EndsByFacts(x, hs, facts)
    ensures RunChain(x, hs).1 == Returns <==> AllReturn(hs, facts)
    ensures forall i: nat :: FirstRaises(hs, facts, i) ==> RunChain(x, hs).1 == Ends(hs[i].act, facts)
  {
    var n := ChainStops(x, hs);
    forall j | 0 <= j < n ensures Ends(hs[j].act, facts) == Returns {
      ReachedEarlier(x, hs, n, j);
      ReachedReturned(x, hs, n, j);
    }
    if n < |hs| {
      assert Reached(x, hs, n);
      assert Ends(hs[n].act, facts) == RunChain(x, hs).1;
    }
  }

  // ----- what the handlers before have left

  lemma {:induction false} ResourceStays(x: Request, hs: seq<Handler>, i: nat)
    requires i <= |hs| && forall j :: 0 <= j < i ==> !hs[j].act.FindResource? || hs[j].act.resource == None
    ensures Before(x, hs, i).resource == x.resource
  {
    if i == 0 {
    } else {
      ResourceStays(x, hs, i - 1);
    }
  }

  lemma {:induction false} ContentTypeUnset(x: Request, hs: seq<Handler>, i: nat)
    requires i <= |hs| && forall j :: 0 <= j < i ==> !hs[j].act.SetContentType? || hs[j].act.negotiated == None
    ensures Before(x, hs, i).contentType == x.contentType
  {
    if i == 0 {
    } else {
      ContentTypeUnset(x, hs, i - 1);
    }
  }

  lemma {:induction false} DomainIsSet(x: Request, hs: seq<Handler>, facts: Facts, a: nat, i: nat)
    requires DomainHandlers(hs, facts) && a < i <= |hs| && hs[a].act == RouteHost(facts.domain, false)
    ensures Before(x, hs, i).domain == facts.domain
  {
    if i == a + 1 {
    } else {
      DomainIsSet(x, hs, facts, a, i - 1);
      assert hs[i - 1] in hs;
    }
  }

  lemma {:induction false} ResourceIsSet(x: Request, hs: seq<Handler>, facts: Facts, a: nat, i: nat)
    requires RoutingHandlers(hs, facts) && a < i <= |hs| && hs[a].act == FindResource(facts.resource) && facts.resource.Some?
    ensures Before(x, hs, i).resource == facts.resource
  {
    if i == a + 1 {
    } else {
      ResourceIsSet(x, hs, facts, a, i - 1);
      assert hs[i - 1] in hs;
    }
  }

  lemma {:induction false} ContentTypeIsSet(x: Request, hs: seq<Handler>, facts: Facts, a: nat, i: nat)
    requires RequestHandlers(hs, facts) && a < i <= |hs| && hs[a].act == SetContentType(facts.contentType) && facts.contentType.Some?
    ensures Before(x, hs, i).contentType == facts.contentType
  {
    if i == a + 1 {
    } else {
      ContentTypeIsSet(x, hs, facts, a, i - 1);
      assert hs[i - 1] in hs;
    }
  }

  // ----- the three chains

  lemma DomainsEnd(x: Request, hs: seq<Handler>, facts: Facts)
    requires DomainHandlers(hs, facts)
    ensures EndsByFacts(x, hs, facts)
  {
    var a :| 0 <= a < |hs| && hs[a].act == RouteHost(facts.domain, facts.alias);
    forall i | 0 <= i < |hs| && Reached(x, hs, i) ensures Perform(Before(x, hs, i), hs[i].act).1 == Ends(hs[i].act, facts) {
      if hs[i].act.CheckDomain? {
        LowerIsLater(hs, a, i);
        ReachedReturned(x, hs, i, a);
        DomainIsSet(x, hs, facts, a, i);
      }
    }
  }

  lemma RoutingEnds(x: Request, hs: seq<Handler>, facts: Facts)
    requires RoutingHandlers(hs, facts) && x.resource == None
    ensures EndsByFacts(x, hs, facts)
  {
    var a :| 0 <= a < |hs| && hs[a] == Handler(0.0, FindResource(facts.resource));
    forall i | 0 <= i < |hs| && Reached(x, hs, i) ensures Perform(Before(x, hs, i), hs[i].act).1 == Ends(hs[i].act, facts) {
      if hs[i].act.CheckResource? {
        LowerIsLater(hs, a, i);
        if facts.resource.Some? {
          ResourceIsSet(x, hs, facts, a, i);
        } else {
          ResourceStays(x, hs, i);
        }
      }
    }
  }

  lemma RequestEnds(x: Request, hs: seq<Handler>, facts: Facts)
    requires RequestHandlers(hs, facts) && x.contentType == None
    ensures EndsByFacts(x, hs, facts)
  {
    var m :| 0 <= m < |hs| && hs[m] == Handler(1.0, LookUpMethod(facts.entry));
    var a :| 0 <= a < |hs| && hs[a].act == SetContentType(facts.contentType);
    forall i | 0 <= i < |hs| && Reached(x, hs, i) ensures Perform(Before(x, hs, i), hs[i].act).1 == Ends(hs[i].act, facts) {
      if hs[i].act.CheckMethod? {
        LowerIsLater(hs, m, i);
        MethodStays(x, hs, facts.entry, m, i);
      } else if hs[i].act.CheckContentType? {
        LowerIsLater(hs, a, i);
        if facts.contentType.Some? {
          ContentTypeIsSet(x, hs, facts, a, i);
        } else {
          ContentTypeUnset(x, hs, i);
        }
      }
    }
  }

  /** What a chain that returns leaves untouched. */
  lemma ChainLeaves(x: Request, hs: seq<Handler>)
    requires RunChain(x, hs).1 == Returns
    requires forall j :: 0 <= j < |hs| ==> !hs[j].act.SetContentType?
    ensures RunChain(x, hs).0.contentType == x.contentType
    ensures (forall j :: 0 <= j < |hs| ==> !hs[j].act.FindResource?) ==> RunChain(x, hs).0.resource == x.resource
  {
    var n := ChainStops(x, hs);
    ContentTypeUnset(x, hs, n);
    if forall j :: 0 <= j < |hs| ==> !hs[j].act.FindResource? {
      ResourceStays(x, hs, n);
    }
  }

  // ----- the whole life

  predicate Handlers(domains: seq<Handler>, routing: seq<Handler>, request: seq<Handler>, facts: Facts) {
    DomainHandlers(domains, facts) && RoutingHandlers(routing, facts) && RequestHandlers(request, facts)
  }

  /** How the three events of a request end: `routing` and `request` only if the events before succeeded. */
  lemma LifeByFacts(domains: seq<Handler>, routing: seq<Handler>, request: seq<Handler>, facts: Facts)
    requires Handlers(domains, routing, request, facts)
    ensures EndsByFacts(ARRIVED, domains, facts)
    ensures var x := RunChain(ARRIVED, domains).0;
            RunChain(ARRIVED, domains).1 == Returns ==>
              && EndsByFacts(x, routing, facts)
              && (RunChain(x, routing).1 == Returns ==> EndsByFacts(RunChain(x, routing).0, request, facts))
  {
    DomainsEnd(ARRIVED, domains, facts);
    if RunChain(ARRIVED, domains).1 == Returns {
      var x := RunChain(ARRIVED, domains).0;
      ChainLeaves(ARRIVED, domains);
      RoutingEnds(x, routing, facts);
      if RunChain(x, routing).1 == Returns {
        ChainLeaves(x, routing);
        RequestEnds(RunChain(x, routing).0, request, facts);
      }
    }
  }

  /** Which of three chains the first handler that raises belongs to. */
  lemma FirstOfThree(a: seq<Handler>, b: seq<Handler>, c: seq<Handler>, facts: Facts, i: nat)
    requires FirstRaises(a + b + c, facts, i)
    ensures i < |a| ==> FirstRaises(a, facts, i) && (a + b + c)[i] == a[i]
    ensures |a| <= i < |a| + |b| ==> AllReturn(a, facts) && FirstRaises(b, facts, i - |a|) && (a + b + c)[i] == b[i - |a|]
    ensures |a| + |b| <= i ==>
              AllReturn(a, facts) && AllReturn(b, facts) && FirstRaises(c, facts, i - |a| - |b|) && (a + b + c)[i] == c[i - |a| - |b|]
  {
    var all := a + b + c;
    assert forall j :: 0 <= j < |a| ==> all[j] == a[j];
    assert forall j :: 0 <= j < |b| ==> all[|a| + j] == b[j];
    assert forall j :: 0 <= j < |c| ==> all[|a| + |b| + j] == c[j];
  }

  /**
   The first handler that raises, of the two routing events and the request event in a
   row, decides: a `StatusException` becomes an error by the wrapper, any other exception
   an error by `_on_request_failure` if it was raised by a handler of the request event,
   and nothing if it was raised while routing. If none raises, a response is fired.
   */
  lemma FirstRaiseDecides(domains: seq<Handler>, routing: seq<Handler>, request: seq<Handler>, facts: Facts, i: nat)
    requires Handlers(domains, routing, request, facts) && FirstRaises(domains + routing + request, facts, i)
    ensures Outcomes(domains, routing, request, 1) ==
              if Ends((domains + routing + request)[i].act, facts) == RaisesStatus then [WrapperError]
              else if i < |domains| + |routing| then [] else [FailureError]
  {
    LifeByFacts(domains, routing, request, facts);
    FirstOfThree(domains, routing, request, facts, i);
    ChainByFacts(ARRIVED, domains, facts);
    var x := RunChain(ARRIVED, domains).0;
    OutcomesOnce(domains, routing, request);
    if i >= |domains| {
      ChainByFacts(x, routing, facts);
      if i >= |domains| + |routing| {
        ChainByFacts(RunChain(x, routing).0, request, facts);
      }
    }
  }

  /** The outcomes with one second routing event, spelled out. */
  lemma OutcomesOnce(domains: seq<Handler>, routing: seq<Handler>, request: seq<Handler>)
    ensures var (x, first) := RunChain(ARRIVED, domains);
            var (x', second) := RunChain(x, routing);
            Outcomes(domains, routing, request, 1) ==
              if first == RaisesStatus then [WrapperError]
              else if first == RaisesOther then []
              else if second == RaisesStatus then [WrapperError]
              else if second == RaisesOther then []
              else RequestOutcome(x', request)
  {
    var x := RunChain(ARRIVED, domains).0;
    var x' := RunChain(x, routing).0;
    assert RouteTimes(x, routing, 0) == (x, [], false);
    var second := RunChain(x, routing).1;
    assert RouteTimes(x, routing, 1) == (x', [] + if second == RaisesStatus then [WrapperError] else [], second == Returns);
    assert [] + RequestOutcome(x', request) == RequestOutcome(x', request);
    assert [WrapperError] + [] == [WrapperError];
  }

  /** No handler of a chain raises. */
  predicate ForeignReturn(hs: seq<Handler>) {
    forall i :: 0 <= i < |hs| && hs[i].act.Foreign? ==> hs[i].act.ending == Returns
  }

  /**
   A response is fired exactly if the host is no alias and its domain is known, a resource
   was found, the table has a method for the request, a content type is present, every
   foreign handler returns, and so does the application's method.
   */
  lemma AnswerExactly(domains: seq<Handler>, routing: seq<Handler>, request: seq<Handler>, facts: Facts)
    requires Handlers(domains, routing, request, facts)
    ensures Outcomes(domains, routing, request, 1) == [Answer] <==>
              && !facts.alias && facts.domain.Some? && facts.resource.Some? && facts.entry.Some? && facts.contentType.Some?
              && ForeignReturn(domains) && ForeignReturn(routing) && ForeignReturn(request)
              && facts.ending == Returns
  {
    DomainsReturn(domains, facts);
    RoutingReturns(routing, facts);
    RequestReturns(request, facts);
    ThreeReturn(domains, routing, request, facts);
    if AllReturn(domains, facts) && AllReturn(routing, facts) && AllReturn(request, facts) {
      LifeByFacts(domains, routing, request, facts);
      ChainByFacts(ARRIVED, domains, facts);
      var x := RunChain(ARRIVED, domains).0;
      ChainByFacts(x, routing, facts);
      ChainByFacts(RunChain(x, routing).0, request, facts);
      OutcomesOnce(domains, routing, request);
    } else {
      var i := SomeRaises(domains + routing + request, facts);
      FirstRaiseDecides(domains, routing, request, facts, i);
    }
  }

  lemma DomainsReturn(hs: seq<Handler>, facts: Facts)
    requires DomainHandlers(hs, facts)
    ensures AllReturn(hs, facts) <==> !facts.alias && facts.domain.Some? && ForeignReturn(hs)
  {
  }

  lemma RoutingReturns(hs: seq<Handler>, facts: Facts)
    requires RoutingHandlers(hs, facts)
    ensures AllReturn(hs, facts) <==> facts.resource.Some? && ForeignReturn(hs)
  {
  }

  lemma RequestReturns(hs: seq<Handler>, facts: Facts)
    requires RequestHandlers(hs, facts)
    ensures AllReturn(hs, facts) <==>
            facts.entry.Some? && facts.contentType.Some? && facts.ending == Returns && ForeignReturn(hs)
  {
  }

  lemma ThreeReturn(a: seq<Handler>, b: seq<Handler>, c: seq<Handler>, facts: Facts)
    ensures AllReturn(a + b + c, facts) <==> AllReturn(a, facts) && AllReturn(b, facts) && AllReturn(c, facts)
  {
    var all := a + b + c;
    assert forall j :: 0 <= j < |a| ==> all[j] == a[j];
    assert forall j :: 0 <= j < |b| ==> all[|a| + j] == b[j];
    assert forall j :: 0 <= j < |c| ==> all[|a| + |b| + j] == c[j];
  }

  lemma {:induction false} SomeRaises(hs: seq<Handler>, facts: Facts) returns (i: nat)
    requires !AllReturn(hs, facts)
    ensures FirstRaises(hs, facts, i)
  {
    if Ends(hs[0].act, facts) != Returns {
      i := 0;
    } else {
      var j := SomeRaises(hs[1..], facts);
      i := j + 1;
      forall n | 0 <= n < i ensures Ends(hs[n].act, facts) == Returns {
        assert n > 0 ==> hs[n] == hs[1..][n - 1];
      }
    }
  }
}
