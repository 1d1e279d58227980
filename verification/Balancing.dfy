/** The load balancer: a verified program picks the backend of each request. */
module Balancing {
  import opened Words
  import opened Codec
  import opened Options
  import opened Verifier
  import opened Maps
  import opened Machine
  import opened Programs
  import opened ProgramRuns
  import opened Vm
  import opened Hash
  import opened Readers
  import SmallPrograms

  const MAX_U64: u64 := 0xffff_ffff_ffff_ffff

  datatype Request = Request(path: seq<unit>, payloadText: seq<unit>, srcPort: int, hash: Option<int>)

  datatype Decision<Body> =
    | ServedStatic(body: Body)
    | NoBackends
    | Dropped
    | Forward(index: nat, backend: int)

  /** What `selectBackend` makes of a run: errors and the all-ones value drop, anything else is reduced to the pool. */
  function Selected(outcome: Outcome, poolSize: nat): Option<nat>
    requires poolSize > 0
  {
    match outcome
    case Threw(_) => None
    case Value(r0) => if r0 == MAX_U64 then None else Some(r0 % poolSize)
  }

  function Fields5(srcPort: int, dstPortHash: int, requestHash: int, poolSize: nat): seq<int> {
    [INGRESS_ADDR, srcPort, dstPortHash, requestHash, poolSize]
  }

  /** One more request through the round-robin counter. */
  function Bumped(m: MapState): MapState {
    Put(m, 0, GetOr0(m, 0) as int + 1)
  }

  const COLON: unit := 0x3a

  /** The hash given with the request, or else that of its path and payload. */
  function RequestHash(request: Request): int {
    if request.hash.Some? then request.hash.value
    else Fnv(OFFSET_BASIS, request.path + [COLON] + request.payloadText)
  }

  /** What the default configuration makes of one request: the decision, and the counter map after it. */
  function InTurn<Body>(routes: map<seq<unit>, Body>, backends: seq<int>, counter: MapState, request: Request)
    : (Decision<Body>, MapState)
  {
    if request.path in routes then (ServedStatic(routes[request.path]), counter)
    else if backends == [] then (NoBackends, counter)
    else
      var turn := GetOr0(counter, 0) % |backends|;
      (Forward(turn, backends[turn]), Bumped(counter))
  }

  /** The selection made of one run of each built-in program. */
  lemma RoundRobinSelects(e: Env, host: Host, fields: seq<int>, budget: nat)
    requires |fields| == 5 && 0 < fields[4] < TWO32 && e.ctx == Pack(fields) && budget >= 14
    requires e.fds == [0] && |host.maps| == 1
    ensures var r := Machine.Run(ROUND_ROBIN, e, Start(host), budget);
            && Selected(OutcomeOf(r), fields[4]) == Some(GetOr0(host.maps[0], 0) % fields[4])
            && r.s.host.maps == [Bumped(host.maps[0])]
  {
    hide Machine.Run, Pack, Start, Put, GetOr0, U64;
    U64Small(fields[4]);
    RoundRobinRun(e, host, fields, budget, 0);
    SmallRemainder(GetOr0(host.maps[0], 0), fields[4]);
  }

  lemma HashSelects(e: Env, host: Host, fields: seq<int>, budget: nat)
    requires |fields| == 5 && 0 < fields[4] < TWO32 && e.ctx == Pack(fields) && budget >= 4
    ensures Selected(OutcomeOf(Machine.Run(HASH, e, Start(host), budget)), fields[4])
         == Some(U64(fields[3]) % fields[4])
  {
    hide Machine.Run, Pack, Start, U64;
    U64Small(fields[4]);
    HashRun(e, host, fields, budget);
    SmallRemainder(U64(fields[3]), fields[4]);
  }

  /** `srcAddr`, `srcPort`, `dstPortHash`, `requestHash`, `backendCount`, as a program sees them. */
  predicate Shows(request: Request, poolSize: nat, k: nat, value: int) {
    match k
    case 0 => value == 0
    case 1 => value == request.srcPort
    case 2 => value == Fnv(OFFSET_BASIS, request.path)
    case 3 =>
      value == if request.hash.Some? then request.hash.value
               else Fnv(OFFSET_BASIS, request.path + [0x3a] + request.payloadText)
    case 4 => value == poolSize
    case _ => false
  }

  lemma FieldsShow(request: Request, poolSize: nat, pathHash: int, hash: int)
    requires pathHash == Fnv(OFFSET_BASIS, request.path) && hash == RequestHash(request)
    ensures forall k: nat, value :: Shows(request, poolSize, k, value) ==>
              k < 5 && Fields5(request.srcPort, pathHash, hash, poolSize)[k] == value
  {
    hide Fnv;
  }

  lemma MatchesFirst(maps: seq<EbpfMap>, final: Host)
    requires maps != [] && Match(maps, final)
    ensures maps[0].Value() == final.maps[FirstFd(maps, 0)]
  {
  }

  /** A program that returns a field selects by it, the all-ones value being the order to drop. */
  lemma FieldSelects(e: Env, host: Host, fields: seq<int>, budget: nat, k: nat)
    requires |fields| == 5 && 0 < fields[4] && e.ctx == Pack(fields) && budget >= 2 && k < 5
    ensures Selected(OutcomeOf(Machine.Run(Returning(k), e, Start(host), budget)), fields[4])
         == if fields[k] % TWO64 == MAX_U64 then None else Some(fields[k] % TWO64 % fields[4])
  {
    hide Machine.Run, Pack, Start;
    ReturningRun(k, e, host, fields, budget);
  }

  lemma CrashSelects(e: Env, host: Host, fields: seq<int>, budget: nat, off: i16)
    requires |fields| == 5 && 0 < fields[4] && e.ctx == Pack(fields) && budget >= 2 && off > 32
    ensures Selected(OutcomeOf(Machine.Run(SmallPrograms.WordAt(1, off), e, Start(host), budget)), fields[4]) == None
  {
    hide Machine.Run, Pack, Start;
    SmallPrograms.ContextWord(off, e, host, budget);
  }

  /** A remainder is below the divisor, so it is not the drop value and reducing it again changes nothing. */
  lemma SmallRemainder(c: u64, k: int)
    requires 0 < k < TWO32
    ensures 0 <= c % k < TWO32 && c % k % k == c % k
  {
    ModUnique(c % k, k, 0, c % k);
  }

  class LoadBalancer<Body> {
    var backends: seq<int>
    var vm: EbpfVm
    const maps: seq<EbpfMap>
    var staticRoutes: map<seq<unit>, Body>

    ghost predicate Valid()
      reads this
    {
      vm.Valid() && forall i, j :: 0 <= i < j < |backends| ==> backends[i] != backends[j]
    }

    /** The default configuration: the round-robin program over one counter map. */
    ghost predicate RoundRobinOver(counter: EbpfMap)
      reads this
    {
      vm.insns == ROUND_ROBIN && vm.maxInstructions >= 14 && maps == [counter]
    }

    ghost predicate Sticky()
      reads this
    {
      vm.insns == HASH && vm.maxInstructions >= 4
    }

    /** The program returns field k of its context. */
    ghost predicate Returns(k: nat)
      reads this
    {
      k < 5 && vm.insns == Returning(k) && vm.maxInstructions >= 2
    }

    /** The program reads beyond its context. */
    ghost predicate Crashes(off: i16)
      reads this
    {
      vm.insns == SmallPrograms.WordAt(1, off) && vm.maxInstructions >= 2
    }

    constructor (vm: EbpfVm, maps: seq<EbpfMap>)
      requires vm.Valid()
      ensures Valid() && backends == [] && staticRoutes == map[] && this.vm == vm && this.maps == maps
    {
      this.vm, this.maps := vm, maps;
      backends := [];
      staticRoutes := map[];
    }

    /** With the source's options: the program, round robin by default, and the maps, one fresh counter by default. */
    static method Create(program: Option<seq<byte>>, maps: Option<seq<EbpfMap>>)
      returns (made: Option<LoadBalancer<Body>>)
      ensures made.Some? <==> program.Some? ==> Decode(program.value).Decoded? && Accepted(Decode(program.value).insns)
      ensures made.Some? ==>
                && fresh(made.value) && made.value.Valid()
                && made.value.backends == [] && made.value.staticRoutes == map[]
                && made.value.vm.maxInstructions == Budget(None)
                && made.value.vm.insns == (if program.Some? then Decode(program.value).insns else ROUND_ROBIN)
                && (maps.Some? ==> made.value.maps == maps.value)
                && (maps.None? ==> |made.value.maps| == 1 && fresh(made.value.maps[0])
                                   && made.value.maps[0].Value() == MapState(map[], 1024))
      ensures program.None? && maps.None? ==> made.Some? && made.value.RoundRobinOver(made.value.maps[0])
    {
      hide Decode, Accepted, RoundRobin;
      RoundRobinDecodes();
      RoundRobinAccepted();
      var counter := new EbpfMap(1024);
      var loaded := EbpfVm.Load(if program.Some? then program.value else RoundRobin(), None);
      match loaded
      case NotLoaded(_) => made := None;
      case Loaded(vm) =>
        var balancer := new LoadBalancer(vm, if maps.Some? then maps.value else [counter]);
        made := Some(balancer);
    }

    method AddBackend(address: int)
      requires Valid()
      modifies `backends
      ensures Valid()
      ensures backends == if address in old(backends) then old(backends) else old(backends) + [address]
    {
      if address !in backends {
        backends := backends + [address];
      }
    }

    method RemoveBackend(address: int)
      requires Valid()
      modifies `backends
      ensures Valid() && address !in backends
      ensures address !in old(backends) ==> backends == old(backends)
      ensures address in old(backends) ==>
                exists i :: 0 <= i < |old(backends)| && old(backends)[i] == address
                         && backends == old(backends)[..i] + old(backends)[i + 1..]
    {
      for i := 0 to |backends|
        invariant backends == old(backends)
        invariant address !in backends[..i]
      {
        if backends[i] == address {
          backends := backends[..i] + backends[i + 1..];
          return;
        }
      }
    }

    /** `setProgram`: an unverifiable program leaves the balancer as it was. */
    method SetProgram(program: seq<byte>) returns (installed: bool)
      requires Valid()
      modifies `vm
      ensures Valid()
      ensures installed <==> Decode(program).Decoded? && Accepted(Decode(program).insns)
      ensures if installed then vm.insns == Decode(program).insns && vm.maxInstructions == Budget(None)
              else vm == old(vm)
      ensures program == HashBalancer() ==> installed && Sticky()
    {
      hide Decode, Accepted, HashBalancer;
      HashDecodes();
      HashAccepted();
      var loaded := EbpfVm.Load(program, None);
      installed := loaded.Loaded?;
      if installed {
        vm := loaded.vm;
      }
    }

    method SelectBackend(srcPort: int, dstPortHash: int, requestHash: int, clock: nat -> int)
      returns (index: Option<nat>, ghost final: Host)
      requires Valid() && backends != []
      modifies maps
      ensures var ctx := Pack(Fields5(srcPort, dstPortHash, requestHash, |backends|));
              var r := Machine.Run(vm.insns, Env(ctx, Fds(maps), clock),
                                   Start(Host(old(Values(maps)), [], 0)), vm.maxInstructions);
              index == Selected(OutcomeOf(r), |backends|) && final == r.s.host
      ensures Match(maps, final)
      ensures index.Some? ==> index.value < |backends|
    {
      hide Machine.Run, Pack, Match, Values, Start;
      var fields := Fields5(srcPort, dstPortHash, requestHash, |backends|);
      var bytes := Pack(fields);
      var ctx := new byte[|bytes|](k requires 0 <= k < |bytes| => bytes[k]);
      assert ctx[..] == bytes;
      var outcome, trace;
      outcome, trace, final := vm.Run(ctx, maps, clock);
      index := Selected(outcome, |backends|);
    }

    /** The part of `handle` that hashes the request and lets the program choose. */
    method Choose(request: Request, clock: nat -> int, ghost counter: EbpfMap) returns (index: Option<nat>)
      requires Valid() && 0 < |backends| < TWO32
      modifies maps
      ensures index.Some? ==> index.value < |backends|
      ensures RoundRobinOver(counter) ==>
                index == Some(GetOr0(old(counter.Value()), 0) % |backends|)
                && counter.Value() == Bumped(old(counter.Value()))
      ensures Sticky() ==> index == Some(U64(RequestHash(request)) % |backends|)
      ensures forall k: nat, value :: Returns(k) && Shows(request, |backends|, k, value) ==>
                index == if value % TWO64 == MAX_U64 then None else Some(value % TWO64 % |backends|)
      ensures forall off: i16 :: 32 < off && Crashes(off) ==> index == None
    {
      hide Machine.Run, Pack, Start, Fnv, Selected, OutcomeOf, Bumped, GetOr0, U64, Match;
      var hash: int;
      if request.hash.Some? {
        hash := request.hash.value;
      } else {
        var h := Fnv1aTypeScript(request.path + [COLON] + request.payloadText);
        hash := h;
      }
      var pathHash := Fnv1aTypeScript(request.path);
      ghost var fields := Fields5(request.srcPort, pathHash, hash, |backends|);
      ghost var e := Env(Pack(fields), Fds(maps), clock);
      ghost var host := Host(Values(maps), [], 0);
      ghost var n := vm.maxInstructions;
      FieldsShow(request, |backends|, pathHash, hash);
      ghost var final;
      index, final := SelectBackend(request.srcPort, pathHash, hash, clock);
      if RoundRobinOver(counter) {
        assert Fds(maps) == [0];
        RoundRobinSelects(e, host, fields, n);
        assert maps[0].Value() == final.maps[FirstFd(maps, 0)] by { MatchesFirst(maps, final); }
      }
      if Sticky() {
        HashSelects(e, host, fields, n);
      }
      forall k: nat, value | Returns(k) && Shows(request, |backends|, k, value)
        ensures index == if value % TWO64 == MAX_U64 then None else Some(value % TWO64 % |backends|)
      {
        FieldSelects(e, host, fields, n, k);
      }
      forall off: i16 | 32 < off && Crashes(off)
        ensures index == None
      {
        CrashSelects(e, host, fields, n, off);
      }
    }

    /** `handle`, up to the hand-over to the fabric. */
    method Handle(request: Request, clock: nat -> int, ghost counter: EbpfMap) returns (decision: Decision<Body>)
      requires Valid() && |backends| < TWO32
      modifies maps
      ensures match decision
              case ServedStatic(body) => request.path in staticRoutes && body == staticRoutes[request.path]
              case NoBackends => request.path !in staticRoutes && backends == []
              case Dropped => request.path !in staticRoutes && backends != []
              case Forward(i, b) => request.path !in staticRoutes && i < |backends| && b == backends[i]
      ensures decision.ServedStatic? || decision.NoBackends? ==> forall m :: m in maps ==> m.Value() == old(m.Value())
      ensures RoundRobinOver(counter) ==>
                (decision, counter.Value()) == InTurn(staticRoutes, backends, old(counter.Value()), request)
      ensures Sticky() ==>
                !decision.Dropped? && (decision.Forward? ==> decision.index == U64(RequestHash(request)) % |backends|)
      ensures request.path !in staticRoutes && backends != [] ==>
                && (forall k: nat, value :: Returns(k) && Shows(request, |backends|, k, value) ==>
                      decision == if value % TWO64 == MAX_U64 then Dropped
                                  else Forward(value % TWO64 % |backends|, backends[value % TWO64 % |backends|]))
                && (forall off: i16 :: 32 < off && Crashes(off) ==> decision == Dropped)
    {
      hide Machine.Run, Fnv, Bumped, GetOr0, U64, Shows, RequestHash;
      if request.path in staticRoutes {
        return ServedStatic(staticRoutes[request.path]);
      }
      if backends == [] {
        return NoBackends;
      }
      var index := Choose(request, clock, counter);
      match index
      case None => decision := Dropped;
      case Some(i) => decision := Forward(i, backends[i]);
    }
  }

  // Round robin over any sequence of requests, static ones among them

  /** How many of the requests no static route answers. */
  function Dynamic<Body>(routes: map<seq<unit>, Body>, requests: seq<Request>): nat {
    if requests == [] then 0
    else (if requests[0].path in routes then 0 else 1) + Dynamic(routes, requests[1..])
  }

  function ServeAll<Body>(routes: map<seq<unit>, Body>, backends: seq<int>, counter: MapState, requests: seq<Request>)
    : (decisions: seq<Decision<Body>>)
    ensures |decisions| == |requests|
    decreases |requests|
  {
    if requests == [] then []
    else
      var (decision, after) := InTurn(routes, backends, counter, requests[0]);
      [decision] + ServeAll(routes, backends, after, requests[1..])
  }

  /** Where the counter stands after n more forwarded requests; a map that can take no entry stays at 0. */
  function Counted(m: MapState, n: nat): u64 {
    if Refuses(m, 0) then 0 else U64(GetOr0(m, 0) + n)
  }

  lemma BumpedOnce(m: MapState, n: nat)
    ensures Counted(Bumped(m), n) == Counted(m, n + 1)
    ensures GetOr0(m, 0) == Counted(m, 0)
    ensures Refuses(Bumped(m), 0) <==> Refuses(m, 0)
  {
    if !Refuses(m, 0) {
      U64Adds(GetOr0(m, 0) as int + 1, n);
      U64Small(GetOr0(m, 0));
    }
  }

  /**
   * A request that no static route answers goes to the backend whose turn it is: the counter's first value plus the
   * number of such requests before it, modulo 2^64, modulo the pool.
   */
  lemma {:induction false} ServedInTurn<Body>(routes: map<seq<unit>, Body>, backends: seq<int>, m: MapState,
                                              requests: seq<Request>, at: nat)
    requires backends != [] && at < |requests|
    ensures var turn := Counted(m, Dynamic(routes, requests[..at])) % |backends|;
            ServeAll(routes, backends, m, requests)[at]
            == if requests[at].path in routes then ServedStatic(routes[requests[at].path])
               else Forward(turn, backends[turn])
    decreases at
  {
    hide Bumped, Counted, GetOr0, Refuses;
    BumpedOnce(m, 0);
    if at > 0 {
      var after := InTurn(routes, backends, m, requests[0]).1;
      ServedInTurn(routes, backends, after, requests[1..], at - 1);
      assert requests[..at][1..] == requests[1..][..at - 1];
      BumpedOnce(m, Dynamic(routes, requests[1..][..at - 1]));
    }
  }

  /** How many of the decisions forward to backend i. */
  function Received<Body>(decisions: seq<Decision<Body>>, i: nat): nat {
    if decisions == [] then 0
    else (if decisions[0].Forward? && decisions[0].index == i then 1 else 0) + Received(decisions[1..], i)
  }

  /** Among the numbers below x, those congruent to i modulo k. */
  function Congruent(x: nat, k: nat, i: nat): nat
    requires k > 0
  {
    x / k + if i < x % k then 1 else 0
  }

  lemma OneMore(x: nat, k: nat, i: nat)
    requires i < k
    ensures Congruent(x + 1, k, i) == Congruent(x, k, i) + if x % k == i then 1 else 0
  {
    if x % k + 1 < k {
      ModUnique(x + 1, k, x / k, x % k + 1);
    } else {
      ModUnique(x + 1, k, x / k + 1, 0);
    }
  }

  /** Among the first x values of a counter that wraps at 2^64, those congruent to i modulo k. */
  function Turns(x: nat, k: nat, i: nat): nat
    requires k > 0
  {
    (x / TWO64) * Congruent(TWO64, k, i) + Congruent(x % TWO64, k, i)
  }

  lemma OneMoreTurn(x: nat, k: nat, i: nat)
    requires i < k
    ensures Turns(x + 1, k, i) == Turns(x, k, i) + if U64(x) % k == i then 1 else 0
  {
    hide Congruent;
    var m := TWO64;
    OneMore(x % m, k, i);
    if x % m + 1 < m {
      ModUnique(x + 1, m, x / m, x % m + 1);
    } else {
      ModUnique(x + 1, m, x / m + 1, 0);
      NoneBelowZero(k, i);
      assert (x / m + 1) * Congruent(m, k, i) == (x / m) * Congruent(m, k, i) + Congruent(m, k, i);
    }
  }

  lemma NoneBelowZero(k: nat, i: nat)
    requires i < k
    ensures Congruent(0, k, i) == 0
  {
    ModUnique(0, k, 0, 0);
  }

  /** Turns are counted from the counter's value, wherever in its cycle that value lies. */
  lemma SameTurns(x: nat, n: nat, k: nat, i: nat)
    requires i < k
    ensures Turns(U64(x) + n, k, i) - Turns(U64(x), k, i) == Turns(x + n, k, i) - Turns(x, k, i)
    decreases n
  {
    hide Turns, U64;
    if n > 0 {
      SameTurns(x, n - 1, k, i);
      OneMoreTurn(U64(x) + n - 1, k, i);
      OneMoreTurn(x + n - 1, k, i);
      U64Adds(x, n - 1);
    }
  }

  /** Exactly how many of a history's requests go to backend i, over any number of wraps of the counter. */
  lemma {:induction false} ReceivedCounted<Body>(routes: map<seq<unit>, Body>, backends: seq<int>, m: MapState,
                                                 requests: seq<Request>, i: nat)
    requires i < |backends| && !Refuses(m, 0)
    ensures Received(ServeAll(routes, backends, m, requests), i)
         == Turns(GetOr0(m, 0) + Dynamic(routes, requests), |backends|, i) - Turns(GetOr0(m, 0), |backends|, i)
    decreases |requests|
  {
    hide Turns, Bumped, Refuses, GetOr0, U64;
    if requests != [] {
      var (decision, after) := InTurn(routes, backends, m, requests[0]);
      HeldNow(m);
      ReceivedCounted(routes, backends, after, requests[1..], i);
      assert ServeAll(routes, backends, m, requests)[1..] == ServeAll(routes, backends, after, requests[1..]);
      if requests[0].path !in routes {
        OneMoreTurn(GetOr0(m, 0), |backends|, i);
        SameTurns(GetOr0(m, 0) as int + 1, Dynamic(routes, requests[1..]), |backends|, i);
      }
    }
  }

  lemma HeldNow(m: MapState)
    requires !Refuses(m, 0)
    ensures !Refuses(Bumped(m), 0) && GetOr0(Bumped(m), 0) == U64(GetOr0(m, 0) as int + 1)
    ensures U64(GetOr0(m, 0)) == GetOr0(m, 0)
  {
  }

  // Fairness

  /** No two backends' shares differ by more than one. */
  ghost predicate Fair<Body>(decisions: seq<Decision<Body>>, k: nat) {
    forall i, j :: 0 <= i < k && 0 <= j < k ==> Received(decisions, i) - Received(decisions, j) <= 1
  }

  /** Every share is the number of complete rounds, or one more. */
  lemma SharesWithinWrap(c: nat, n: nat, k: nat, i: nat)
    requires i < k && c + n <= TWO64
    ensures Turns(c + n, k, i) - Turns(c, k, i) == Congruent(c + n, k, i) - Congruent(c, k, i)
  {
    hide Congruent;
    NoneBelowZero(k, i);
    var m := TWO64;
    if c < m {
      ModUnique(c, m, 0, c);
    }
    if c + n < m {
      ModUnique(c + n, m, 0, c + n);
    } else {
      ModUnique(c + n, m, 1, 0);
    }
    assert 0 * Congruent(m, k, i) == 0 && 1 * Congruent(m, k, i) == Congruent(m, k, i);
  }

  /** Whatever the counter starts at and whatever static requests come between, a history short of the wrap is fair. */
  lemma RoundRobinIsFair<Body>(routes: map<seq<unit>, Body>, backends: seq<int>, m: MapState, requests: seq<Request>)
    requires !Refuses(m, 0) && GetOr0(m, 0) + Dynamic(routes, requests) <= TWO64
    ensures Fair(ServeAll(routes, backends, m, requests), |backends|)
  {
    hide Turns, Refuses, GetOr0, Congruent, ServeAll, Received, Dynamic;
    var decisions, k := ServeAll(routes, backends, m, requests), |backends|;
    var c, n := GetOr0(m, 0), Dynamic(routes, requests);
    forall i, j | 0 <= i < k && 0 <= j < k
      ensures Received(decisions, i) - Received(decisions, j) <= 1
    {
      ReceivedCounted(routes, backends, m, requests, i);
      ReceivedCounted(routes, backends, m, requests, j);
      SharesWithinWrap(c, n, k, i);
      SharesWithinWrap(c, n, k, j);
      SharesClose(c, c + n, k, i, j);
    }
  }

  lemma SharesClose(c: nat, d: nat, k: nat, i: nat, j: nat)
    requires i < k && j < k
    ensures (Congruent(d, k, i) - Congruent(c, k, i)) - (Congruent(d, k, j) - Congruent(c, k, j)) <= 1
  {
  }

  /** When the pool divides 2^64, wrapping disturbs no share. */
  lemma TurnsOfDivisor(x: nat, k: nat, i: nat)
    requires i < k && TWO64 % k == 0
    ensures Turns(x, k, i) == (x / TWO64) * (TWO64 / k) + (x % TWO64) / k + if i < x % TWO64 % k then 1 else 0
  {
  }

  lemma FairOverWraps<Body>(routes: map<seq<unit>, Body>, backends: seq<int>, m: MapState, requests: seq<Request>)
    requires !Refuses(m, 0) && backends != [] && TWO64 % |backends| == 0
    ensures Fair(ServeAll(routes, backends, m, requests), |backends|)
  {
    hide Turns, Refuses, GetOr0, ServeAll, Received, Dynamic;
    var decisions, k := ServeAll(routes, backends, m, requests), |backends|;
    var c, n := GetOr0(m, 0), Dynamic(routes, requests);
    forall i, j | 0 <= i < k && 0 <= j < k
      ensures Received(decisions, i) - Received(decisions, j) <= 1
    {
      ReceivedCounted(routes, backends, m, requests, i);
      ReceivedCounted(routes, backends, m, requests, j);
      TurnsOfDivisor(c, k, i);
      TurnsOfDivisor(c, k, j);
      TurnsOfDivisor(c + n, k, i);
      TurnsOfDivisor(c + n, k, j);
    }
  }

  /** n requests that no route answers. */
  function Plain(n: nat): (requests: seq<Request>)
    ensures |requests| == n
    decreases n
  {
    if n == 0 then [] else [Request([], [], 0, None)] + Plain(n - 1)
  }

  lemma {:induction false} PlainAreDynamic<Body>(n: nat)
    ensures Dynamic<Body>(map[], Plain(n)) == n
    decreases n
  {
    if n > 0 {
      PlainAreDynamic<Body>(n - 1);
      assert Plain(n)[1..] == Plain(n - 1);
    }
  }

  /** Else two full cycles of the counter leave the first backend two ahead of the last. */
  lemma UnfairAfterTwoWraps<Body>(backends: seq<int>)
    requires backends != [] && TWO64 % |backends| != 0
    ensures !Fair(ServeAll<Body>(map[], backends, MapState(map[], 1024), Plain(2 * TWO64)), |backends|)
  {
    hide Plain, ServeAll, Received, Dynamic, Congruent, Turns;
    var k, m := |backends|, MapState(map[], 1024);
    PlainAreDynamic<Body>(2 * TWO64);
    var decisions := ServeAll<Body>(map[], backends, m, Plain(2 * TWO64));
    ReceivedCounted<Body>(map[], backends, m, Plain(2 * TWO64), 0);
    ReceivedCounted<Body>(map[], backends, m, Plain(2 * TWO64), k - 1);
    TwoCycles(k, 0);
    TwoCycles(k, k - 1);
    CycleShares(k);
    assert Received(decisions, 0) - Received(decisions, k - 1) == 2;
  }

  lemma TwoCycles(k: nat, i: nat)
    requires i < k
    ensures Turns(2 * TWO64, k, i) == 2 * Congruent(TWO64, k, i) && Turns(0, k, i) == 0
  {
    hide Congruent;
    NoneBelowZero(k, i);
    ModUnique(2 * TWO64, TWO64, 2, 0);
    ModUnique(0, TWO64, 0, 0);
    assert 0 * Congruent(TWO64, k, i) == 0;
  }

  lemma CycleShares(k: nat)
    requires k > 0 && TWO64 % k != 0
    ensures Congruent(TWO64, k, 0) == Congruent(TWO64, k, k - 1) + 1
  {
  }

  /** Round robin is fair over histories of any length if and only if the size of the pool divides 2^64. */
  lemma FairExactly<Body>(backends: seq<int>)
    requires backends != []
    ensures (forall m: MapState, requests: seq<Request> :: !Refuses(m, 0) ==>
               Fair(ServeAll<Body>(map[], backends, m, requests), |backends|))
            <==> TWO64 % |backends| == 0
  {
    hide Fair, ServeAll, Refuses, Plain;
    if TWO64 % |backends| == 0 {
      forall m: MapState, requests: seq<Request> | !Refuses(m, 0)
        ensures Fair(ServeAll<Body>(map[], backends, m, requests), |backends|)
      {
        FairOverWraps<Body>(map[], backends, m, requests);
      }
    } else {
      var m := MapState(map[], 1024);
      assert !Refuses(m, 0) by { RefusesNothing(m); }
      UnfairAfterTwoWraps<Body>(backends);
    }
  }

  lemma RefusesNothing(m: MapState)
    requires m == MapState(map[], 1024)
    ensures !Refuses(m, 0)
  {
  }
}
