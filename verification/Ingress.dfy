/**
 * Requests from outside: the load balancer picks a backend and asks the fabric for it from the ingress address, while
 * whatever else happens in the fabric goes on. Round robin, the deny-east-west policy and the counters in one history.
 */
module Ingress {
  import opened Words
  import opened Options
  import opened Maps
  import opened Programs
  import opened Readers
  import opened Fabric
  import opened Hash
  import Balancing

  /** A request arrives from outside, or something happens inside. */
  datatype Happening<!Endpoint> =
    | Arrives(request: Balancing.Request, length: int, clock: nat -> int)
    | Inside(event: Event<Endpoint>)

  datatype World<!Endpoint> = World(counter: MapState, fabric: FabricState<Endpoint>)

  function HeaderTo(backend: int, request: Balancing.Request, length: int): Header {
    Header(INGRESS_ADDR, backend, request.srcPort, length, 0)
  }

  /**
   * `handle`, with the request it makes of the fabric, up to the await; `length` is the payload's length as the fabric
   * estimates it.
   */
  method Handle<Body, Endpoint>(balancer: Balancing.LoadBalancer<Body>, fabric: SandboxFabric<Endpoint>,
                                request: Balancing.Request, length: int, clock: nat -> int, policyClock: nat -> int,
                                ghost counter: EbpfMap)
    returns (decision: Balancing.Decision<Body>, reply: Option<Reply>)
    requires balancer.Valid() && |balancer.backends| < TWO32 && fabric.Valid()
    requires fabric.deliveredByDst !in balancer.maps && fabric.droppedBySrc !in balancer.maps
    modifies balancer.maps, fabric.droppedBySrc, fabric`inFlight
    ensures fabric.Valid()
    ensures balancer.RoundRobinOver(counter) ==>
              && (decision, counter.Value())
                 == Balancing.InTurn(balancer.staticRoutes, balancer.backends, old(counter.Value()), request)
              && World(counter.Value(), fabric.Current())
                 == After(balancer.staticRoutes, balancer.backends, old(World(counter.Value(), fabric.Current())),
                          Arrives(request, length, policyClock))
    ensures reply == if decision.Forward?
                     then Some(Answer(old(fabric.Current()), HeaderTo(decision.backend, request, length), policyClock))
                     else None
  {
    hide Balancing.InTurn, Apply, Answer;
    decision := balancer.Handle(request, clock, counter);
    reply := None;
    if decision.Forward? {
      var begun := fabric.BeginRequest(HeaderTo(decision.backend, request, length), policyClock);
      reply := Some(begun);
    }
  }

  function After<Body, Endpoint>(routes: map<seq<unit>, Body>, backends: seq<int>, w: World<Endpoint>,
                                 h: Happening<Endpoint>): World<Endpoint> {
    match h
    case Arrives(request, length, clock) =>
      var (decision, counter) := Balancing.InTurn(routes, backends, w.counter, request);
      World(counter, if decision.Forward?
                     then Apply(w.fabric, Request(HeaderTo(decision.backend, request, length), clock)) else w.fabric)
    case Inside(event) => w.(fabric := Apply(w.fabric, event))
  }

  function AfterAll<Body, Endpoint>(routes: map<seq<unit>, Body>, backends: seq<int>, w: World<Endpoint>,
                                    history: seq<Happening<Endpoint>>): World<Endpoint>
    decreases |history|
  {
    if history == [] then w else AfterAll(routes, backends, After(routes, backends, w, history[0]), history[1..])
  }

  /** The requests that arrive, in order. */
  function Arrivals<Endpoint>(history: seq<Happening<Endpoint>>): seq<Balancing.Request> {
    if history == [] then []
    else (if history[0].Arrives? then [history[0].request] else []) + Arrivals(history[1..])
  }

  /** The history as the fabric sees it. */
  function FabricEvents<Body, Endpoint>(routes: map<seq<unit>, Body>, backends: seq<int>, w: World<Endpoint>,
                                        history: seq<Happening<Endpoint>>): seq<Event<Endpoint>>
    decreases |history|
  {
    if history == [] then []
    else
      var h := history[0];
      var rest := FabricEvents(routes, backends, After(routes, backends, w, h), history[1..]);
      match h
      case Inside(event) => [event] + rest
      case Arrives(request, length, clock) =>
        var decision := Balancing.InTurn(routes, backends, w.counter, request).0;
        if decision.Forward? then [Request(HeaderTo(decision.backend, request, length), clock)] + rest else rest
  }

  /** One history: the fabric's part is a history of the fabric, to which all that is proved of those applies. */
  lemma {:induction false} FabricsPart<Body, Endpoint>(routes: map<seq<unit>, Body>, backends: seq<int>,
                                                       w: World<Endpoint>, history: seq<Happening<Endpoint>>)
    ensures AfterAll(routes, backends, w, history).fabric
         == Final(w.fabric, FabricEvents(routes, backends, w, history))
    decreases |history|
  {
    hide Balancing.InTurn, Apply;
    if history != [] {
      FabricsPart(routes, backends, After(routes, backends, w, history[0]), history[1..]);
    }
  }

  // Under the deny-east-west policy

  /** The policy is installed, and addresses stay within the width the policy reads. */
  ghost predicate Guarded<Endpoint>(s: FabricState<Endpoint>, room: nat) {
    s.policy == Some(DENY) && Addressed(s) && s.nextAddress + room <= TWO64
  }

  predicate Keeps<Endpoint>(h: Happening<Endpoint>) {
    h.Inside? ==> !h.event.SetPolicy?
  }

  ghost predicate AllKeep<Endpoint>(history: seq<Happening<Endpoint>>) {
    forall h :: h in history ==> Keeps(h)
  }

  lemma StaysGuarded<Body, Endpoint>(routes: map<seq<unit>, Body>, backends: seq<int>, w: World<Endpoint>,
                                     h: Happening<Endpoint>, room: nat)
    requires Guarded(w.fabric, room + 1) && Keeps(h)
    ensures Guarded(After(routes, backends, w, h).fabric, room)
  {
    hide Balancing.InTurn, Answer;
  }

  /** How many of the arrivals so far no static route answers. */
  function DynamicBefore<Body, Endpoint>(routes: map<seq<unit>, Body>, history: seq<Happening<Endpoint>>, at: nat): nat
    requires at <= |history|
  {
    Balancing.Dynamic(routes, Arrivals(history[..at]))
  }

  lemma DynamicCons<Body, Endpoint>(routes: map<seq<unit>, Body>, history: seq<Happening<Endpoint>>, at: nat)
    requires 0 < at <= |history|
    ensures var h := history[0];
            DynamicBefore(routes, history, at)
            == DynamicBefore(routes, history[1..], at - 1)
               + if h.Arrives? && h.request.path !in routes then 1 else 0
  {
    assert history[..at][0] == history[0] && history[..at][1..] == history[1..][..at - 1];
    var rest := Arrivals(history[1..][..at - 1]);
    if history[0].Arrives? {
      assert ([history[0].request] + rest)[1..] == rest;
    } else {
      assert [] + rest == rest;
    }
  }

  lemma CounterMoves<Body, Endpoint>(routes: map<seq<unit>, Body>, backends: seq<int>, w: World<Endpoint>,
                                     h: Happening<Endpoint>, n: nat)
    requires backends != []
    ensures Balancing.Counted(After(routes, backends, w, h).counter, n)
         == Balancing.Counted(w.counter, n + if h.Arrives? && h.request.path !in routes then 1 else 0)
  {
    hide Balancing.Counted, Balancing.Bumped, Apply;
    Balancing.BumpedOnce(w.counter, n);
  }

  /**
   * Every arrival, whatever happens in the fabric meanwhile: one that no static route answers is forwarded to the
   * backend whose turn it is, and its handler starts exactly if that endpoint is there.
   */
  lemma {:induction false} ArrivalsAreServed<Body, Endpoint>(routes: map<seq<unit>, Body>, backends: seq<int>,
                                                             w: World<Endpoint>, history: seq<Happening<Endpoint>>,
                                                             at: nat)
    requires backends != [] && at < |history| && history[at].Arrives? && history[at].request.path !in routes
    requires Guarded(w.fabric, at) && AllKeep(history)
    ensures var turn := Balancing.Counted(w.counter, DynamicBefore(routes, history, at)) % |backends|;
            var now, h := AfterAll(routes, backends, w, history[..at]), history[at];
            && Balancing.InTurn(routes, backends, now.counter, h.request).0 == Balancing.Forward(turn, backends[turn])
            && Answer(now.fabric, HeaderTo(backends[turn], h.request, h.length), h.clock)
               == if backends[turn] in now.fabric.endpoints then HandlerStarted else NoEndpoint
    decreases at
  {
    hide Balancing.Counted, Apply, Answer, Guarded;
    var h := history[at];
    if at == 0 {
      assert history[..0] == [] && DynamicBefore(routes, history, 0) == 0;
      Balancing.BumpedOnce(w.counter, 0);
      var turn := Balancing.Counted(w.counter, 0) % |backends|;
      IngressPasses(w.fabric, HeaderTo(backends[turn], h.request, h.length), h.clock);
    } else {
      var next := After(routes, backends, w, history[0]);
      assert Keeps(history[0]) && history[1..][at - 1] == h && history[..at][1..] == history[1..][..at - 1];
      StaysGuarded(routes, backends, w, history[0], at - 1);
      ArrivalsAreServed(routes, backends, next, history[1..], at - 1);
      DynamicCons(routes, history, at);
      CounterMoves(routes, backends, w, history[0], DynamicBefore(routes, history[1..], at - 1));
    }
  }

  lemma IngressPasses<Endpoint>(s: FabricState<Endpoint>, h: Header, clock: nat -> int)
    requires Guarded(s, 0) && h.from == INGRESS_ADDR
    ensures Answer(s, h, clock) == if h.to in s.endpoints then HandlerStarted else NoEndpoint
  {
    hide Allows;
    if h.to in s.endpoints {
      DenyAnswers(s, h, clock);
    }
  }

  // Shares of handlers started

  /** The decisions on the arrivals, less the forwarded ones whose handler did not start. */
  function Served<Body, Endpoint>(routes: map<seq<unit>, Body>, backends: seq<int>, w: World<Endpoint>,
                                  history: seq<Happening<Endpoint>>): seq<Balancing.Decision<Body>>
    decreases |history|
  {
    if history == [] then []
    else
      var h := history[0];
      var rest := Served(routes, backends, After(routes, backends, w, h), history[1..]);
      if h.Inside? then rest
      else
        var decision := Balancing.InTurn(routes, backends, w.counter, h.request).0;
        if decision.Forward?
           && !Answer(w.fabric, HeaderTo(decision.backend, h.request, h.length), h.clock).HandlerStarted?
        then rest
        else [decision] + rest
  }

  ghost predicate AllStay<Endpoint>(backends: seq<int>, history: seq<Happening<Endpoint>>) {
    forall h :: h in history ==> !(h.Inside? && h.event.Leave? && h.event.address in backends)
  }

  ghost predicate AllThere<Endpoint>(backends: seq<int>, s: FabricState<Endpoint>) {
    forall b :: b in backends ==> b in s.endpoints
  }

  /** While all backends stay, no forwarded request is lost: the handlers started are those of the balancer's turns. */
  lemma {:induction false} NoneIsLost<Body, Endpoint>(routes: map<seq<unit>, Body>, backends: seq<int>,
                                                      w: World<Endpoint>, history: seq<Happening<Endpoint>>)
    requires Guarded(w.fabric, |history|) && AllKeep(history)
    requires AllThere(backends, w.fabric) && AllStay(backends, history)
    ensures Served(routes, backends, w, history)
         == Balancing.ServeAll(routes, backends, w.counter, Arrivals(history))
    decreases |history|
  {
    hide Apply, Answer, Guarded, AllThere;
    if history != [] {
      var h, next := history[0], After(routes, backends, w, history[0]);
      assert Keeps(h);
      StaysGuarded(routes, backends, w, h, |history| - 1);
      StaysThere(routes, backends, w, h);
      NoneIsLost(routes, backends, next, history[1..]);
      var rest := Arrivals(history[1..]);
      if h.Arrives? {
        assert ([h.request] + rest)[1..] == rest;
        var decision := Balancing.InTurn(routes, backends, w.counter, h.request).0;
        if decision.Forward? {
          assert Guarded(w.fabric, 0) by { MoreRoom(w.fabric, |history|); }
          assert decision.backend in w.fabric.endpoints by { Forwarded(backends, w.fabric, decision.backend); }
          IngressPasses(w.fabric, HeaderTo(decision.backend, h.request, h.length), h.clock);
        }
      } else {
        assert [] + rest == rest;
      }
    }
  }

  lemma MoreRoom<Endpoint>(s: FabricState<Endpoint>, room: nat)
    requires Guarded(s, room)
    ensures Guarded(s, 0)
  {
  }

  lemma Forwarded<Endpoint>(backends: seq<int>, s: FabricState<Endpoint>, b: int)
    requires AllThere(backends, s) && b in backends
    ensures b in s.endpoints
  {
  }

  lemma StaysThere<Body, Endpoint>(routes: map<seq<unit>, Body>, backends: seq<int>, w: World<Endpoint>,
                                   h: Happening<Endpoint>)
    requires AllThere(backends, w.fabric) && !(h.Inside? && h.event.Leave? && h.event.address in backends)
    ensures AllThere(backends, After(routes, backends, w, h).fabric)
  {
    hide Balancing.InTurn, Answer;
  }

  /** So the handlers are started in fair shares, short of the counter's wrap. */
  lemma HandlersStartFairly<Body, Endpoint>(routes: map<seq<unit>, Body>, backends: seq<int>, w: World<Endpoint>,
                                            history: seq<Happening<Endpoint>>)
    requires Guarded(w.fabric, |history|) && AllKeep(history)
    requires AllThere(backends, w.fabric) && AllStay(backends, history)
    requires !Refuses(w.counter, 0)
    requires GetOr0(w.counter, 0) as int + Balancing.Dynamic(routes, Arrivals(history)) <= TWO64
    ensures Balancing.Fair(Served(routes, backends, w, history), |backends|)
  {
    NoneIsLost(routes, backends, w, history);
    Balancing.RoundRobinIsFair(routes, backends, w.counter, Arrivals(history));
  }

  // What the fabric's policies see of an arrival

  /** `from`, `to`, `port`, `length`, `protocol` of a request forwarded to a backend */
  predicate ArrivalShows(backend: int, request: Balancing.Request, length: int, k: nat, value: int) {
    match k
    case 0 => value == 0
    case 1 => value == backend
    case 2 => value == request.srcPort
    case 3 => value == length
    case 4 => value == 0
    case _ => false
  }

  /** Under a gate on a field, an arrival that is forwarded to an endpoint goes through as the field says. */
  lemma GatedArrival<Endpoint>(s: FabricState<Endpoint>, backend: int, request: Balancing.Request, length: int,
                               clock: nat -> int, k: nat, value: int, limit: nat)
    requires k < 5 && limit < 0x8000_0000 && ArrivalShows(backend, request, length, k, value)
    requires s.policy == Some(Gate(k, limit)) && backend in s.endpoints
    ensures Answer(s, HeaderTo(backend, request, length), clock)
         == if value % TWO64 > limit then DeniedByPolicy else HandlerStarted
  {
    hide Answer, Gate;
    GateAnswers(s, HeaderTo(backend, request, length), clock, k, value, limit);
  }
}
