/**
 * The sandbox fabric: addresses, the policy verdict on every request, and the delivery and drop counters. A request is
 * two events, because the source awaits the destination's handler in between: it is answered at once or its handler
 * starts, and a started one completes later, with any other events in between.
 */
module Fabric {
  import opened Words
  import opened Codec
  import opened Options
  import opened Verifier
  import opened Maps
  import opened Machine
  import opened Programs
  import opened ProgramRuns
  import opened Vm
  import opened Readers
  import SmallPrograms

  datatype Header = Header(from: int, to: int, port: int, length: int, protocol: int)

  datatype Reply =
    | NoEndpoint             // 404
    | DeniedByPolicy         // 403
    | HandlerStarted
    | Completed(ok: bool)    // 200 or 500
    | Rejected               // the destination's run threw: it was disposed, or its snapshot failed

  /** How a started handler's run ended. */
  datatype Ending = Ran(ok: bool) | Threw

  datatype Event<!Endpoint> =
    | Join(endpoint: Endpoint)
    | Leave(address: int)
    | SetPolicy(policy: Option<seq<Insn>>)
    | Request(header: Header, clock: nat -> int)
    | Complete(header: Header, ending: Ending)

  datatype FabricState<!Endpoint> = FabricState(
    endpoints: map<int, Endpoint>,
    nextAddress: int,
    policy: Option<seq<Insn>>,
    deliveredByDst: MapState,
    droppedBySrc: MapState,
    inFlight: multiset<Header>)   // requests whose handler has started and not ended

  const EMPTY_MAP: MapState := MapState(map[], 1024)

  function Initial<Endpoint>(policy: Option<seq<Insn>>): FabricState<Endpoint> {
    FabricState(map[], INGRESS_ADDR + 1, policy, EMPTY_MAP, EMPTY_MAP, multiset{})
  }

  function HeaderFields(h: Header): seq<int> {
    [h.from, h.to, h.port, h.length, h.protocol]
  }

  /** `runPolicy`: no maps, the default budget; a crashing policy denies. */
  function Allows(p: seq<Insn>, h: Header, clock: nat -> int): bool {
    var e := Env(Pack(HeaderFields(h)), [], clock);
    var r := Machine.Run(p, e, Start(Host([], [], 0)), Budget(None));
    r.Returned? && r.r0 == 0
  }

  predicate Passes(policy: Option<seq<Insn>>, h: Header, clock: nat -> int) {
    policy.None? || Allows(policy.value, h, clock)
  }

  function Answer<Endpoint>(s: FabricState<Endpoint>, h: Header, clock: nat -> int): Reply {
    if h.to !in s.endpoints then NoEndpoint
    else if !Passes(s.policy, h, clock) then DeniedByPolicy
    else HandlerStarted
  }

  function Dropping<Endpoint>(s: FabricState<Endpoint>, from: int): FabricState<Endpoint> {
    s.(droppedBySrc := Plus(s.droppedBySrc, U64(from), 1))
  }

  function Apply<Endpoint>(s: FabricState<Endpoint>, ev: Event<Endpoint>): FabricState<Endpoint> {
    match ev
    case Join(endpoint) => s.(endpoints := s.endpoints[s.nextAddress := endpoint], nextAddress := s.nextAddress + 1)
    case Leave(address) => s.(endpoints := s.endpoints - {address})
    case SetPolicy(policy) => s.(policy := policy)
    case Request(h, clock) =>
      if Answer(s, h, clock).HandlerStarted? then s.(inFlight := s.inFlight + multiset{h}) else Dropping(s, h.from)
    case Complete(h, ending) =>
      var t := s.(inFlight := s.inFlight - multiset{h});
      if ending.Ran? then t.(deliveredByDst := Plus(s.deliveredByDst, U64(h.to), 1)) else t
  }

  /** Only what has started can end. */
  predicate Enabled<Endpoint>(s: FabricState<Endpoint>, ev: Event<Endpoint>) {
    ev.Complete? ==> ev.header in s.inFlight
  }

  class SandboxFabric<Endpoint> {
    var endpoints: map<int, Endpoint>
    var nextAddress: int
    var policy: EbpfVm?
    const deliveredByDst: EbpfMap
    const droppedBySrc: EbpfMap
    ghost var inFlight: multiset<Header>

    ghost predicate Valid()
      reads this
    {
      && deliveredByDst != droppedBySrc
      && (policy != null ==> policy.Valid() && policy.maxInstructions == Budget(None))
    }

    ghost function Current(): FabricState<Endpoint>
      reads this, deliveredByDst, droppedBySrc
    {
      FabricState(endpoints, nextAddress, if policy == null then None else Some(policy.insns),
            deliveredByDst.Value(), droppedBySrc.Value(), inFlight)
    }

    constructor ()
      ensures Valid() && fresh(deliveredByDst) && fresh(droppedBySrc)
      ensures Current() == Initial(None)
    {
      endpoints := map[];
      nextAddress := INGRESS_ADDR + 1;
      policy := null;
      deliveredByDst := new EbpfMap(1024);
      droppedBySrc := new EbpfMap(1024);
      inFlight := multiset{};
    }

    /** The constructor's policy option: a program that is refused makes it throw. */
    static method Create(policyProgram: Option<seq<byte>>) returns (made: Option<SandboxFabric<Endpoint>>)
      ensures made.Some? <==> policyProgram.Some? ==>
                Decode(policyProgram.value).Decoded? && Accepted(Decode(policyProgram.value).insns)
      ensures made.Some? ==> fresh(made.value) && made.value.Valid()
      ensures made.Some? ==>
                made.value.Current()
                == Initial(if policyProgram.Some? then Some(Decode(policyProgram.value).insns) else None)
      ensures policyProgram == Some(DenyEastWest()) ==> made.Some? && made.value.Current() == Initial(Some(DENY))
    {
      hide Decode, Accepted, DenyEastWest;
      DenyDecodes();
      DenyAccepted();
      var fabric := new SandboxFabric();
      if policyProgram.Some? {
        var installed := fabric.InstallPolicy(policyProgram.value);
        if !installed {
          return None;
        }
      }
      made := Some(fabric);
    }

    /** Verified at install time; a program that is refused leaves the policy in place. */
    method InstallPolicy(program: seq<byte>) returns (installed: bool)
      requires Valid()
      modifies `policy
      ensures Valid()
      ensures installed <==> Decode(program).Decoded? && Accepted(Decode(program).insns)
      ensures Current() == if installed then Apply(old(Current()), SetPolicy(Some(Decode(program).insns)))
                           else old(Current())
      ensures program == DenyEastWest() ==> installed && Current() == Apply(old(Current()), SetPolicy(Some(DENY)))
    {
      hide Decode, Accepted, DenyEastWest;
      DenyDecodes();
      DenyAccepted();
      var loaded := EbpfVm.Load(program, None);
      installed := loaded.Loaded?;
      if installed {
        policy := loaded.vm;
      }
    }

    method ClearPolicy()
      requires Valid()
      modifies `policy
      ensures Valid() && Current() == Apply(old(Current()), SetPolicy(None))
    {
      policy := null;
    }

    method JoinEndpoint(endpoint: Endpoint) returns (address: int)
      requires Valid()
      modifies `endpoints, `nextAddress
      ensures Valid() && address == old(nextAddress) && Current() == Apply(old(Current()), Join(endpoint))
    {
      address := nextAddress;
      nextAddress := nextAddress + 1;
      endpoints := endpoints[address := endpoint];
    }

    method LeaveEndpoint(address: int) returns (present: bool)
      requires Valid()
      modifies `endpoints
      ensures Valid() && (present <==> address in old(endpoints)) && Current() == Apply(old(Current()), Leave(address))
    {
      present := address in endpoints;
      endpoints := endpoints - {address};
    }

    method RunPolicy(h: Header, clock: nat -> int) returns (allowed: bool)
      requires Valid() && policy != null
      ensures allowed == Allows(policy.insns, h, clock)
    {
      hide Machine.Run, Pack, Start;
      var bytes := Pack(HeaderFields(h));
      var ctx := new byte[|bytes|](k requires 0 <= k < |bytes| => bytes[k]);
      assert ctx[..] == bytes;
      var outcome, trace;
      ghost var final;
      assert Fds([]) == [] && Values([]) == [];
      outcome, trace, final := policy.Run(ctx, [], clock);
      allowed := outcome == Value(0);
    }

    /** `request` up to the await. */
    method BeginRequest(h: Header, clock: nat -> int) returns (reply: Reply)
      requires Valid()
      modifies droppedBySrc, `inFlight
      ensures Valid() && reply == Answer(old(Current()), h, clock)
      ensures Current() == Apply(old(Current()), Request(h, clock))
    {
      hide Allows;
      if h.to !in endpoints {
        var _ := droppedBySrc.Add(h.from, 1);
        return NoEndpoint;
      }
      if policy != null {
        var allowed := RunPolicy(h, clock);
        if !allowed {
          var _ := droppedBySrc.Add(h.from, 1);
          return DeniedByPolicy;
        }
      }
      inFlight := inFlight + multiset{h};
      return HandlerStarted;
    }

    /** `request` after the await: a run that threw leaves without being counted. */
    method CompleteRequest(h: Header, ending: Ending) returns (reply: Reply)
      requires Valid() && h in inFlight
      modifies deliveredByDst, `inFlight
      ensures Valid() && reply == (if ending.Ran? then Completed(ending.ok) else Reply.Rejected)
      ensures Current() == Apply(old(Current()), Complete(h, ending))
    {
      inFlight := inFlight - multiset{h};
      if ending.Threw? {
        return Reply.Rejected;
      }
      var _ := deliveredByDst.Add(h.to, 1);
      reply := Completed(ending.ok);
    }
  }

  // Histories: any events in any order

  function Final<Endpoint>(s: FabricState<Endpoint>, events: seq<Event<Endpoint>>): FabricState<Endpoint>
    decreases |events|
  {
    if events == [] then s else Final(Apply(s, events[0]), events[1..])
  }

  predicate Starts<Endpoint>(s: FabricState<Endpoint>, ev: Event<Endpoint>) {
    ev.Request? && Answer(s, ev.header, ev.clock).HandlerStarted?
  }

  /** The sources of the requests that were answered without a handler, in order. */
  function DropLog<Endpoint>(s: FabricState<Endpoint>, events: seq<Event<Endpoint>>): seq<u64>
    decreases |events|
  {
    if events == [] then []
    else
      var ev := events[0];
      (if ev.Request? && !Starts(s, ev) then [U64(ev.header.from)] else []) + DropLog(Apply(s, ev), events[1..])
  }

  /** The headers of the requests whose handler was started. */
  function StartLog<Endpoint>(s: FabricState<Endpoint>, events: seq<Event<Endpoint>>): seq<Header>
    decreases |events|
  {
    if events == [] then []
    else
      var ev := events[0];
      (if Starts(s, ev) then [ev.header] else []) + StartLog(Apply(s, ev), events[1..])
  }

  function DeliveryLog<Endpoint>(events: seq<Event<Endpoint>>): seq<u64> {
    if events == [] then []
    else (if Delivers(events[0]) then [U64(events[0].header.to)] else []) + DeliveryLog(events[1..])
  }

  predicate Delivers<Endpoint>(ev: Event<Endpoint>) {
    ev.Complete? && ev.ending.Ran?
  }

  /** The two counter maps are exactly the tallies of what was dropped and what was delivered. */
  lemma CountersAreTallies<Endpoint>(s: FabricState<Endpoint>, events: seq<Event<Endpoint>>)
    ensures Final(s, events).droppedBySrc == Tally(s.droppedBySrc, DropLog(s, events))
    ensures Final(s, events).deliveredByDst == Tally(s.deliveredByDst, DeliveryLog(events))
  {
    DropsAreTallied(s, events);
    DeliveriesAreTallied(s, events);
  }

  lemma {:induction false} DropsAreTallied<Endpoint>(s: FabricState<Endpoint>, events: seq<Event<Endpoint>>)
    ensures Final(s, events).droppedBySrc == Tally(s.droppedBySrc, DropLog(s, events))
    decreases |events|
  {
    hide Answer, Plus, U64;
    if events != [] {
      var t := Apply(s, events[0]);
      DropsAreTallied(t, events[1..]);
      assert [] + DropLog(t, events[1..]) == DropLog(t, events[1..]);
    }
  }

  lemma {:induction false} DeliveriesAreTallied<Endpoint>(s: FabricState<Endpoint>, events: seq<Event<Endpoint>>)
    ensures Final(s, events).deliveredByDst == Tally(s.deliveredByDst, DeliveryLog(events))
    decreases |events|
  {
    hide Answer, Plus, U64;
    if events != [] {
      DeliveriesAreTallied(Apply(s, events[0]), events[1..]);
      assert [] + DeliveryLog(events[1..]) == DeliveryLog(events[1..]);
    }
  }

  /**
   * Per key, over any history from a new fabric: a counter that exists is the exact count modulo 2^64, and an address
   * with traffic but no counter was turned away by a map already holding 1024 addresses.
   */
  lemma CountersAreExact<Endpoint>(policy: Option<seq<Insn>>, events: seq<Event<Endpoint>>, key: u64)
    ensures var s := Initial(policy);
            var f := Final(s, events);
            && Exact(f.droppedBySrc, DropLog(s, events), key)
            && Exact(f.deliveredByDst, DeliveryLog(events), key)
  {
    hide Final, DropLog, DeliveryLog, Tally, Count;
    var s := Initial<Endpoint>(policy);
    CountersAreTallies(s, events);
    TallyCounts(EMPTY_MAP, DropLog(s, events), key);
    TallyCounts(EMPTY_MAP, DeliveryLog(events), key);
    TallyKeepsCapacity(EMPTY_MAP, DropLog(s, events));
    TallyKeepsCapacity(EMPTY_MAP, DeliveryLog(events));
  }

  predicate Exact(m: MapState, log: seq<u64>, key: u64) {
    if key in m.entries then m.entries[key] == U64(Count(log, key)) else key in log ==> |m.entries| >= 1024
  }

  lemma {:induction false} TallyKeepsCapacity(m: MapState, history: seq<u64>)
    ensures Tally(m, history).maxEntries == m.maxEntries
    decreases |history|
  {
    if history != [] {
      TallyKeepsCapacity(Plus(m, history[0], 1), history[1..]);
    }
  }

  // Conservation

  ghost function Total(m: map<u64, u64>): int
    decreases |m|
  {
    if m == map[] then 0
    else
      var k :| k in m;
      m[k] + Total(m - {k})
  }

  lemma {:induction false} TotalRemoves(m: map<u64, u64>, k: u64)
    requires k in m
    ensures Total(m) == m[k] as int + Total(m - {k})
    decreases |m|
  {
    var j :| j in m && Total(m) == m[j] as int + Total(m - {j});
    if j != k {
      TotalRemoves(m - {j}, k);
      assert (m - {j}) - {k} == (m - {k}) - {j};
      TotalRemoves(m - {k}, j);
    }
  }

  lemma TotalUpdates(m: map<u64, u64>, k: u64, v: u64)
    ensures Total(m[k := v]) == Total(m) + v - if k in m then m[k] as int else 0
  {
    TotalRemoves(m[k := v], k);
    assert m[k := v] - {k} == m - {k};
    if k in m {
      TotalRemoves(m, k);
    } else {
      assert m - {k} == m;
    }
  }

  function Keys(log: seq<u64>): set<u64> {
    set k | k in log
  }

  predicate Fits(m: MapState, log: seq<u64>) {
    |m.entries.Keys + Keys(log)| <= m.maxEntries
  }

  /** While all keys fit, each `add` contributes one to the total. */
  lemma {:induction false} TallyTotal(m: MapState, log: seq<u64>)
    requires Fits(m, log)
    ensures U64(Total(Tally(m, log).entries)) == U64(Total(m.entries) + |log|)
    decreases |log|
  {
    hide Tally, Plus, Total, U64, Fits;
    TallyUnfolds(m, log);
    if log != [] {
      var m1, rest := Plus(m, log[0], 1), log[1..];
      CountsAsOne(m, log);
      TallyTotal(m1, rest);
      U64Carries(Total(m1.entries), Total(m.entries) + 1, |rest|);
    }
  }

  lemma TallyUnfolds(m: MapState, log: seq<u64>)
    ensures Tally(m, log) == if log == [] then m else Tally(Plus(m, log[0], 1), log[1..])
  {
  }

  lemma U64Carries(a: int, b: int, c: int)
    requires U64(a) == U64(b)
    ensures U64(a + c) == U64(b + c)
  {
  }

  lemma U64Sums(a: int, b: int, c: int, d: int)
    requires U64(a) == U64(b) && U64(c) == U64(d)
    ensures U64(a + c) == U64(b + d)
  {
    U64Carries(a, b, c);
    U64Carries(c, d, b);
  }

  lemma CountsAsOne(m: MapState, log: seq<u64>)
    requires log != [] && Fits(m, log)
    ensures var m1 := Plus(m, log[0], 1);
            && U64(Total(m1.entries)) == U64(Total(m.entries) + 1)
            && Fits(m1, log[1..])
  {
    hide Total, U64, GetOr0, Fits;
    KeyFits(m, log);
    var k := log[0];
    var v := U64(GetOr0(m, k) as int + 1);
    TotalUpdates(m.entries, k, v);
    TotalUp(Total(m.entries), GetOr0(m, k), v);
    assert GetOr0(m, k) as int == if k in m.entries then m.entries[k] as int else 0 by { HeldValue(m, k); }
  }

  lemma HeldValue(m: MapState, k: u64)
    ensures GetOr0(m, k) as int == if k in m.entries then m.entries[k] as int else 0
  {
  }

  lemma TotalUp(total: int, held: u64, v: u64)
    requires v == U64(held as int + 1)
    ensures U64(total + v - held) == U64(total + 1)
  {
  }

  lemma KeyFits(m: MapState, log: seq<u64>)
    requires log != [] && Fits(m, log)
    ensures !Refuses(m, log[0])
    ensures Fits(Plus(m, log[0], 1), log[1..])
  {
    var k := log[0];
    assert k in log;
    SubsetCardinality(m.entries.Keys + {k}, m.entries.Keys + Keys(log));
    assert k !in m.entries ==> |m.entries.Keys + {k}| == |m.entries| + 1;
    assert Plus(m, k, 1).entries.Keys + Keys(log[1..]) == m.entries.Keys + Keys(log);
  }

  lemma {:induction false} SubsetCardinality<T>(a: set<T>, b: set<T>)
    requires a <= b
    ensures |a| <= |b|
  {
    if a != {} {
      var x :| x in a;
      SubsetCardinality(a - {x}, b - {x});
    }
  }

  function Requests<Endpoint>(events: seq<Event<Endpoint>>): nat {
    if events == [] then 0 else (if events[0].Request? then 1 else 0) + Requests(events[1..])
  }

  /** How many started handlers' runs threw. */
  function Thrown<Endpoint>(events: seq<Event<Endpoint>>): nat {
    if events == [] then 0
    else (if events[0].Complete? && events[0].ending.Threw? then 1 else 0) + Thrown(events[1..])
  }

  ghost predicate Possible<Endpoint>(s: FabricState<Endpoint>, events: seq<Event<Endpoint>>)
    decreases |events|
  {
    events == [] || (Enabled(s, events[0]) && Possible(Apply(s, events[0]), events[1..]))
  }

  /** Every request is dropped, delivered, thrown, or still in flight. */
  lemma {:induction false} RequestsAccounted<Endpoint>(s: FabricState<Endpoint>, events: seq<Event<Endpoint>>)
    requires Possible(s, events)
    ensures |DropLog(s, events)| + |DeliveryLog(events)| + Thrown(events) + |Final(s, events).inFlight|
         == Requests(events) + |s.inFlight|
    decreases |events|
  {
    hide Answer;
    if events != [] {
      RequestsAccounted(Apply(s, events[0]), events[1..]);
    }
  }

  /**
   * Conservation over any interleaving from a new fabric: while each counter map sees at most 1024 addresses, the
   * totals dropped and delivered, the runs that threw and the requests in flight add up to the requests made.
   */
  lemma Conservation<Endpoint>(policy: Option<seq<Insn>>, events: seq<Event<Endpoint>>)
    requires Possible(Initial(policy), events)
    requires |Keys(DropLog(Initial(policy), events))| <= 1024 && |Keys(DeliveryLog(events))| <= 1024
    ensures var f := Final(Initial(policy), events);
            U64(Total(f.droppedBySrc.entries) + Total(f.deliveredByDst.entries) + Thrown(events) + |f.inFlight|)
            == U64(Requests(events))
  {
    hide Final, DropLog, DeliveryLog, Tally, Total, Keys, U64, Thrown, Requests, Possible;
    var s := Initial<Endpoint>(policy);
    CountersAreTallies(s, events);
    TotalFromEmpty(DropLog(s, events));
    TotalFromEmpty(DeliveryLog(events));
    var f := Final(s, events);
    var dropped, delivered := Total(f.droppedBySrc.entries), Total(f.deliveredByDst.entries);
    U64Sums(dropped, |DropLog(s, events)|, delivered, |DeliveryLog(events)|);
    U64Carries(dropped + delivered, |DropLog(s, events)| + |DeliveryLog(events)|, Thrown(events) + |f.inFlight|);
    RequestsAccounted(s, events);
  }

  lemma TotalFromEmpty(log: seq<u64>)
    requires |Keys(log)| <= 1024
    ensures U64(Total(Tally(EMPTY_MAP, log).entries)) == U64(|log|)
  {
    hide Tally, Keys, U64;
    assert EMPTY_MAP.entries.Keys + Keys(log) == Keys(log);
    TallyTotal(EMPTY_MAP, log);
  }

  // The deny-east-west policy over whole histories

  /** Addresses are handed out upwards from 1, so the ingress address never names an endpoint. */
  ghost predicate Addressed<Endpoint>(s: FabricState<Endpoint>) {
    s.nextAddress >= 1 && forall a :: a in s.endpoints ==> 1 <= a < s.nextAddress
  }

  lemma {:induction false} AddressesStayDistinct<Endpoint>(s: FabricState<Endpoint>, events: seq<Event<Endpoint>>)
    requires Addressed(s)
    ensures Addressed(Final(s, events)) && Final(s, events).nextAddress >= s.nextAddress
    decreases |events|
  {
    if events != [] {
      AddressesStayDistinct(Apply(s, events[0]), events[1..]);
    }
  }

  lemma DenyAllows(h: Header, clock: nat -> int)
    ensures Allows(DENY, h, clock) <==> U64(h.from) == 0 || U64(h.to) == 0
  {
    hide Machine.Run, Pack, Start;
    DenyVerdict(Env(Pack(HeaderFields(h)), [], clock), Host([], [], 0), HeaderFields(h), Budget(None));
  }

  /** A request to a live endpoint starts its handler exactly when it comes from the ingress address. */
  lemma DenyAnswers<Endpoint>(s: FabricState<Endpoint>, h: Header, clock: nat -> int)
    requires s.policy == Some(DENY) && Addressed(s) && s.nextAddress <= TWO64 && h.to in s.endpoints
    ensures Answer(s, h, clock) == if U64(h.from) == INGRESS_ADDR then HandlerStarted else DeniedByPolicy
  {
    hide Allows;
    DenyAllows(h, clock);
  }

  /** While the policy stays installed, no handler ever starts for a request between two sandboxes. */
  lemma {:induction false} NoEastWestTraffic<Endpoint>(s: FabricState<Endpoint>, events: seq<Event<Endpoint>>)
    requires s.policy == Some(DENY) && forall ev :: ev in events ==> !ev.SetPolicy?
    ensures forall h :: h in StartLog(s, events) ==> U64(h.from) == 0 || U64(h.to) == 0
    decreases |events|
  {
    hide Allows;
    if events != [] {
      var ev := events[0];
      if ev.Request? {
        DenyAllows(ev.header, ev.clock);
      }
      NoEastWestTraffic(Apply(s, ev), events[1..]);
    }
  }

  // Who is there, told from the joins and leaves

  /** How many endpoints have joined: their addresses are 1, 2, 3 and so on. */
  function Joins<Endpoint>(events: seq<Event<Endpoint>>): nat {
    if events == [] then 0 else (if events[0].Join? then 1 else 0) + Joins(events[1..])
  }

  /** Event k is a join that was given the address, and the address has not been left since. */
  ghost predicate Holds<Endpoint>(events: seq<Event<Endpoint>>, k: nat, address: int) {
    && k < |events| && events[k].Join? && address == Joins(events[..k]) + 1
    && forall j :: k < j < |events| ==> events[j] != Leave(address)
  }

  lemma {:induction false} JoinsSnoc<Endpoint>(events: seq<Event<Endpoint>>, last: Event<Endpoint>)
    ensures Joins(events + [last]) == Joins(events) + if last.Join? then 1 else 0
    decreases |events|
  {
    if events == [] {
      assert events + [last] == [last] && [last][1..] == [];
    } else {
      JoinsSnoc(events[1..], last);
      assert (events + [last])[1..] == events[1..] + [last];
    }
  }

  lemma {:induction false} FinalSnoc<Endpoint>(s: FabricState<Endpoint>, events: seq<Event<Endpoint>>,
                                               last: Event<Endpoint>)
    ensures Final(s, events + [last]) == Apply(Final(s, events), last)
    decreases |events|
  {
    hide Apply;
    if events == [] {
      assert events + [last] == [last] && [last][1..] == [];
      assert Final(Apply(s, last), []) == Apply(s, last);
    } else {
      FinalSnoc(Apply(s, events[0]), events[1..], last);
      assert (events + [last])[1..] == events[1..] + [last];
    }
  }

  /**
   * Over any history of a new fabric, an address names an endpoint if and only if it was given to one that joined and
   * has not been left since; and it names that endpoint.
   */
  lemma {:induction false} EndpointsExactly<Endpoint>(policy: Option<seq<Insn>>, events: seq<Event<Endpoint>>)
    ensures var f := Final(Initial(policy), events);
            && f.nextAddress == Joins(events) + 1
            && (forall k: nat, a :: Holds(events, k, a) ==> a in f.endpoints && f.endpoints[a] == events[k].endpoint)
            && (forall a :: a in f.endpoints ==> 1 <= a <= Joins(events) && exists k: nat :: Holds(events, k, a))
    decreases |events|
  {
    if events != [] {
      var front, last := events[..|events| - 1], events[|events| - 1];
      assert events == front + [last];
      EndpointsExactly(policy, front);
      EndpointsStep(policy, front, last);
    }
  }

  lemma EndpointsStep<Endpoint>(policy: Option<seq<Insn>>, front: seq<Event<Endpoint>>, last: Event<Endpoint>)
    requires var f := Final(Initial(policy), front);
             && f.nextAddress == Joins(front) + 1
             && (forall k: nat, a :: Holds(front, k, a) ==> a in f.endpoints && f.endpoints[a] == front[k].endpoint)
             && (forall a :: a in f.endpoints ==> 1 <= a <= Joins(front) && exists k: nat :: Holds(front, k, a))
    ensures var f := Final(Initial(policy), front + [last]);
            && f.nextAddress == Joins(front + [last]) + 1
            && (forall k: nat, a :: Holds(front + [last], k, a) ==>
                  a in f.endpoints && f.endpoints[a] == (front + [last])[k].endpoint)
            && (forall a :: a in f.endpoints ==>
                  1 <= a <= Joins(front + [last]) && exists k: nat :: Holds(front + [last], k, a))
  {
    hide Final, Initial, Joins, Answer, Plus;
    var events, n := front + [last], |front|;
    FinalSnoc(Initial(policy), front, last);
    JoinsSnoc(front, last);
    var f, g := Final(Initial(policy), front), Final(Initial(policy), events);
    forall k: nat, a | Holds(events, k, a)
      ensures a in g.endpoints && g.endpoints[a] == events[k].endpoint
    {
      if k < n {
        assert events[..k] == front[..k];
        assert forall j :: k < j < n ==> events[j] == front[j];
        assert Holds(front, k, a);
        assert events[n] != Leave(a);
      } else {
        assert events[..n] == front;
      }
    }
    forall a | a in g.endpoints
      ensures 1 <= a <= Joins(events) && exists k: nat :: Holds(events, k, a)
    {
      if a in f.endpoints && !(last.Join? && a == f.nextAddress) {
        var k: nat :| Holds(front, k, a);
        assert events[..k] == front[..k];
        assert Holds(events, k, a);
      } else {
        assert events[..n] == front;
        assert Holds(events, n, a);
      }
    }
  }

  /** So a request is told that there is no endpoint exactly when nobody who joined still holds its address. */
  lemma UnknownExactly<Endpoint>(policy: Option<seq<Insn>>, events: seq<Event<Endpoint>>, h: Header,
                                 clock: nat -> int)
    ensures Answer(Final(Initial(policy), events), h, clock).NoEndpoint?
            <==> !exists k: nat :: Holds(events, k, h.to)
  {
    hide Final, Initial, Holds, Passes;
    EndpointsExactly(policy, events);
  }

  // The header, as policies see it

  /** `from`, `to`, `port`, `length`, `protocol` */
  predicate HeaderShows(h: Header, k: nat, value: int) {
    match k
    case 0 => value == h.from
    case 1 => value == h.to
    case 2 => value == h.port
    case 3 => value == h.length
    case 4 => value == h.protocol
    case _ => false
  }

  /** Under a gate on a field of the header, requests go through exactly when the field does not exceed the limit. */
  lemma GateAnswers<Endpoint>(s: FabricState<Endpoint>, h: Header, clock: nat -> int, k: nat, value: int, limit: nat)
    requires k < 5 && limit < 0x8000_0000 && HeaderShows(h, k, value)
    requires s.policy == Some(Gate(k, limit)) && h.to in s.endpoints
    ensures Answer(s, h, clock) == if value % TWO64 > limit then DeniedByPolicy else HandlerStarted
  {
    hide Machine.Run, Pack, Start;
    GateRun(k, limit, Env(Pack(HeaderFields(h)), [], clock), Host([], [], 0), HeaderFields(h), Budget(None));
  }

  /** A policy that crashes denies everything. */
  lemma CrashDenies<Endpoint>(s: FabricState<Endpoint>, h: Header, clock: nat -> int, off: i16)
    requires off > 32 && s.policy == Some(SmallPrograms.WordAt(1, off)) && h.to in s.endpoints
    ensures Answer(s, h, clock) == DeniedByPolicy
  {
    hide Machine.Run, Pack, Start;
    SmallPrograms.ContextWord(off, Env(Pack(HeaderFields(h)), [], clock), Host([], [], 0), Budget(None));
  }

  /** So does one that uses a map, since a policy is given none. */
  lemma MapPolicyDenies<Endpoint>(s: FabricState<Endpoint>, h: Header, clock: nat -> int, id: nat)
    requires 1 <= id <= 3 && s.policy == Some(SmallPrograms.CallOf(id)) && h.to in s.endpoints
    ensures Answer(s, h, clock) == DeniedByPolicy
  {
    hide Machine.Run, Pack, Start;
    SmallPrograms.MapCallFails(id, Env(Pack(HeaderFields(h)), [], clock), Host([], [], 0), Budget(None));
  }

  /** A policy runs under the default budget: one that spins and then allows denies beyond 100,000 steps. */
  lemma SpinAnswers<Endpoint>(s: FabricState<Endpoint>, h: Header, clock: nat -> int, pad: nat, n: nat)
    requires n < 0x8000_0000 && s.policy == Some(SmallPrograms.Spin(pad, n)) && h.to in s.endpoints
    ensures Answer(s, h, clock) == if SmallPrograms.Steps(pad, n) <= 100_000 then HandlerStarted else DeniedByPolicy
  {
    hide Machine.Run, Pack, SmallPrograms.Spin, Start;
    SmallPrograms.StartsAtZero(Host([], [], 0));
    SmallPrograms.SpinRun(pad, n, Env(Pack(HeaderFields(h)), [], clock), Start(Host([], [], 0)), Budget(None));
  }

  /** Without a policy every request to an endpoint that is there goes through. */
  lemma NoPolicyAnswers<Endpoint>(s: FabricState<Endpoint>, h: Header, clock: nat -> int)
    requires s.policy.None?
    ensures Answer(s, h, clock) == if h.to in s.endpoints then HandlerStarted else NoEndpoint
  {
  }
}
