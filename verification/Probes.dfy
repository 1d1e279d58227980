/**
 * Probes: verified programs attached to tracepoints, fired in attach order over maps they may share, until one vetoes.
 */
module Probes {
  import opened Words
  import opened Codec
  import opened Options
  import opened Verifier
  import opened Maps
  import opened Machine
  import opened Programs
  import opened ProgramRuns
  import opened Vm

  datatype Tracepoint = RunStart | RunEnd | Snapshot | Log

  /** A given name, or `probe-<id>`. */
  datatype Name = Given(text: string) | ById(id: nat)

  function NameText(n: Name): string {
    match n
    case Given(text) => text
    case ById(id) => "probe-" + Digits(id)
  }

  function Digits(n: nat): string {
    if n < 10 then ["0123456789"[n]] else Digits(n / 10) + ["0123456789"[n % 10]]
  }

  /** A decimal numeral read back. */
  function ReadDigits(text: string): int {
    if text == [] then 0 else 10 * ReadDigits(text[..|text| - 1]) + text[|text| - 1] as int - '0' as int
  }

  /** An id is written as its decimal numeral, without leading zeros. */
  lemma {:induction false} DigitsReadBack(n: nat)
    ensures ReadDigits(Digits(n)) == n
    ensures Digits(n) != [] && (forall i :: 0 <= i < |Digits(n)| ==> '0' <= Digits(n)[i] <= '9')
    ensures n > 0 ==> Digits(n)[0] != '0'
  {
    var last := ["0123456789"[n % 10]];
    assert last[0] as int - '0' as int == n % 10;
    if n < 10 {
      assert Digits(n) == last && last[..0] == [];
    } else {
      DigitsReadBack(n / 10);
      assert (Digits(n / 10) + last)[..|Digits(n / 10)|] == Digits(n / 10);
    }
  }

  /** A probe attached without a name is told by its id. */
  lemma DefaultName(id: nat)
    ensures var name := NameText(ById(id));
            |name| > 6 && name[..6] == "probe-" && ReadDigits(name[6..]) == id && NameText(Given(name)) == name
  {
    hide Digits, ReadDigits;
    DigitsReadBack(id);
    assert NameText(ById(id))[6..] == Digits(id);
  }

  datatype Probe = Probe(id: nat, tracepoint: Tracepoint, name: Name, vm: EbpfVm, maps: seq<EbpfMap>, failClosed: bool)

  /** The values of a set of map objects. */
  type Store = map<EbpfMap, MapState>

  ghost function StoreOf(maps: set<EbpfMap>): (store: Store)
    reads maps
    ensures store.Keys == maps
  {
    map m | m in maps :: m.Value()
  }

  ghost predicate Holds(store: Store, maps: seq<EbpfMap>) {
    forall m :: m in maps ==> m in store
  }

  ghost function Local(store: Store, maps: seq<EbpfMap>): (v: seq<MapState>)
    requires Holds(store, maps)
    ensures |v| == |maps| && forall k :: 0 <= k < |maps| ==> v[k] == store[maps[k]]
  {
    seq(|maps|, k requires 0 <= k < |maps| => store[maps[k]])
  }

  function IndexOf(maps: seq<EbpfMap>, m: EbpfMap): (k: nat)
    requires m in maps
    ensures k < |maps| && maps[k] == m
  {
    if maps[0] == m then 0 else 1 + IndexOf(maps[1..], m)
  }

  /** The store after a run over `maps` ended with `host`. */
  ghost function Merge(store: Store, maps: seq<EbpfMap>, host: Host): (after: Store)
    requires |host.maps| == |maps|
    ensures after.Keys == store.Keys
  {
    map m | m in store :: if m in maps then host.maps[FirstFd(maps, IndexOf(maps, m))] else store[m]
  }

  ghost function RunOf(p: Probe, ctx: seq<byte>, clock: nat -> int, store: Store): Result
    requires Holds(store, p.maps)
  {
    Machine.Run(p.vm.insns, Env(ctx, Fds(p.maps), clock), Start(Host(Local(store, p.maps), [], 0)),
                p.vm.maxInstructions)
  }

  /** A nonzero return vetoes, and so does an error when the probe fails closed. */
  predicate Vetoes(outcome: Outcome, failClosed: bool) {
    match outcome
    case Value(r0) => r0 != 0
    case Threw(_) => failClosed
  }

  ghost function StoreAfter(p: Probe, ctx: seq<byte>, clock: nat -> int, store: Store): (after: Store)
    requires Holds(store, p.maps)
    ensures after.Keys == store.Keys
  {
    var r := RunOf(p, ctx, clock, store);
    RunKeepsMaps(p, ctx, clock, store);
    Merge(store, p.maps, r.s.host)
  }

  lemma RunKeepsMaps(p: Probe, ctx: seq<byte>, clock: nat -> int, store: Store)
    requires Holds(store, p.maps)
    ensures !RunOf(p, ctx, clock, store).Next? && |RunOf(p, ctx, clock, store).s.host.maps| == |p.maps|
  {
    hide Machine.Run;
    var s := Start(Host(Local(store, p.maps), [], 0));
    HostSize(p.vm.insns, Env(ctx, Fds(p.maps), clock), s, p.vm.maxInstructions);
  }

  lemma {:induction false} HostSize(p: seq<Insn>, e: Env, s: State, budget: nat)
    ensures |Machine.Run(p, e, s, budget).s.host.maps| == |s.host.maps|
    decreases budget
  {
    if budget > 0 {
      assert |Step(p, e, s).s.host.maps| == |s.host.maps|;
      match Step(p, e, s) {
        case Next(t) => HostSize(p, e, t, budget - 1);
        case _ =>
      }
    }
  }

  ghost predicate HeldIn(maps: set<EbpfMap>, ps: seq<Probe>) {
    forall p :: p in ps ==> forall m :: m in p.maps ==> m in maps
  }

  ghost predicate AllHeld(store: Store, ps: seq<Probe>) {
    HeldIn(store.Keys, ps)
  }

  datatype Fired = Fired(veto: Option<Name>, store: Store)

  /** The specification: run the probes in order up to and including the first that vetoes. Probe i reads clock(i). */
  ghost function FireAll(ps: seq<Probe>, ctx: seq<byte>, clock: nat -> nat -> int, from: nat, store: Store): (f: Fired)
    requires AllHeld(store, ps)
    ensures f.store.Keys == store.Keys
    decreases |ps|
  {
    if ps == [] then Fired(None, store)
    else
      var after := StoreAfter(ps[0], ctx, clock(from), store);
      RunKeepsMaps(ps[0], ctx, clock(from), store);
      if Vetoes(OutcomeOf(RunOf(ps[0], ctx, clock(from), store)), ps[0].failClosed)
      then Fired(Some(ps[0].name), after)
      else FireAll(ps[1..], ctx, clock, from + 1, after)
  }

  function Matching(ps: seq<Probe>, t: Tracepoint): (r: seq<Probe>)
    ensures forall p :: p in r ==> p in ps && p.tracepoint == t
  {
    if ps == [] then [] else (if ps[0].tracepoint == t then [ps[0]] else []) + Matching(ps[1..], t)
  }

  lemma StoreIsMerged(all: set<EbpfMap>, store: Store, maps: seq<EbpfMap>, final: Host)
    requires store.Keys == all && Match(maps, final)
    requires forall m :: m in all && m !in maps ==> m.Value() == store[m]
    ensures StoreOf(all) == Merge(store, maps, final)
  {
    hide FirstFd, IndexOf;
    var merged := Merge(store, maps, final);
    forall m | m in all
      ensures m.Value() == merged[m]
    {
      if m in maps {
        var k := IndexOf(maps, m);
        SameMap(maps, k, m, final);
      }
    }
    assert StoreOf(all) == merged;
  }

  lemma SameMap(maps: seq<EbpfMap>, k: nat, m: EbpfMap, final: Host)
    requires k < |maps| && maps[k] == m && Match(maps, final)
    ensures m.Value() == final.maps[FirstFd(maps, k)]
  {
  }

  /** The counter ids are drawn from, shared by all registries. */
  class ProbeCounter {
    var last: nat

    constructor ()
      ensures last == 0
    {
      last := 0;
    }
  }

  class ProbeRegistry {
    const counter: ProbeCounter
    var probes: seq<Probe>

    ghost predicate Valid()
      reads this, counter
    {
      && (forall p :: p in probes ==> p.vm.Valid() && p.id <= counter.last)
      && (forall i, j :: 0 <= i < j < |probes| ==> probes[i].id != probes[j].id)
    }

    ghost function AllMaps(): set<EbpfMap>
      reads this
    {
      set p, m | p in probes && m in p.maps :: m
    }

    constructor (counter: ProbeCounter)
      ensures Valid() && probes == [] && this.counter == counter
    {
      this.counter := counter;
      probes := [];
    }

    /** Append, under an id no registry has used; a program that does not verify uses one up and is not attached. */
    method Attach(tracepoint: Tracepoint, program: seq<byte>, name: Option<string>, maps: seq<EbpfMap>,
                  failClosed: bool, maxInstructions: Option<int>)
      returns (id: Option<nat>)
      requires Valid()
      modifies `probes, counter
      ensures Valid() && counter.last == old(counter.last) + 1
      ensures id.Some? ==> id.value == counter.last
      ensures id.Some? <==> Decode(program).Decoded? && Accepted(Decode(program).insns)
      ensures id.None? ==> probes == old(probes)
      ensures id.Some? ==>
                && |probes| == |old(probes)| + 1 && probes[..|old(probes)|] == old(probes)
                && (forall p :: p in old(probes) ==> p.id != id.value)
                && var p := probes[|old(probes)|];
                   && p.id == id.value && p.tracepoint == tracepoint && p.maps == maps && p.failClosed == failClosed
                   && p.name == (if name.Some? then Given(name.value) else ById(id.value))
                   && p.vm.insns == Decode(program).insns && p.vm.maxInstructions == Budget(maxInstructions)
      ensures program == RunCounter() && |maps| == 1 && maxInstructions.None? ==>
                id.Some? && IsMeter(probes[|old(probes)|], maps[0])
    {
      hide Decode, Accepted, RunCounter;
      CounterDecodes();
      CounterAccepted();
      counter.last := counter.last + 1;
      var loaded := EbpfVm.Load(program, maxInstructions);
      match loaded
      case NotLoaded(_) => id := None;
      case Loaded(vm) =>
        var called := if name.Some? then Given(name.value) else ById(counter.last);
        probes := probes + [Probe(counter.last, tracepoint, called, vm, maps, failClosed)];
        id := Some(counter.last);
    }

    /** Remove the one probe with that id; the others keep their order. */
    method Detach(id: nat) returns (found: bool)
      requires Valid()
      modifies `probes
      ensures Valid()
      ensures found <==> exists p :: p in old(probes) && p.id == id
      ensures !found ==> probes == old(probes)
      ensures found ==> exists i :: 0 <= i < |old(probes)| && old(probes)[i].id == id
                                 && probes == old(probes)[..i] + old(probes)[i + 1..]
    {
      for i := 0 to |probes|
        invariant probes == old(probes)
        invariant forall k :: 0 <= k < i ==> probes[k].id != id
      {
        if probes[i].id == id {
          probes := probes[..i] + probes[i + 1..];
          return true;
        }
      }
      return false;
    }

    /** Run one probe; `all` is any set of maps with the probe's among them. */
    static method RunProbe(p: Probe, ctx: array<byte>, clock: nat -> int, ghost all: set<EbpfMap>)
      returns (outcome: Outcome)
      requires p.vm.Valid() && forall m :: m in p.maps ==> m in all
      modifies p.maps
      ensures ctx[..] == old(ctx[..])
      ensures !RunOf(p, ctx[..], clock, old(StoreOf(all))).Next?
      ensures outcome == OutcomeOf(RunOf(p, ctx[..], clock, old(StoreOf(all))))
      ensures StoreOf(all) == StoreAfter(p, ctx[..], clock, old(StoreOf(all)))
    {
      hide Machine.Run, Start, Merge, Fds, Match, OutcomeOf;
      ghost var store := StoreOf(all);
      assert Values(p.maps) == Local(store, p.maps);
      RunKeepsMaps(p, ctx[..], clock, store);
      var trace;
      ghost var final;
      outcome, trace, final := p.vm.Run(ctx, p.maps, clock);
      StoreIsMerged(all, store, p.maps, final);
    }

    /** `fire`: returns the first vetoing probe's name; probes after it do not run. */
    method Fire(tracepoint: Tracepoint, fields: seq<int>, clock: nat -> nat -> int) returns (veto: Option<Name>)
      requires Valid()
      modifies AllMaps()
      ensures Fired(veto, StoreOf(AllMaps()))
           == FireAll(Matching(probes, tracepoint), Pack(fields), clock, 0, old(StoreOf(AllMaps())))
    {
      hide Pack, RunOf, StoreAfter, Vetoes, OutcomeOf, FireAll, StoreOf, Matching;
      ghost var all := AllMaps();
      ghost var before := StoreOf(all);
      var matching := Matching(probes, tracepoint);
      var bytes := Pack(fields);
      var ctx := new byte[|bytes|](k requires 0 <= k < |bytes| => bytes[k]);
      assert ctx[..] == bytes;
      for i := 0 to |matching|
        invariant ctx[..] == bytes
        invariant AllHeld(StoreOf(all), matching[i..])
        invariant FireAll(matching, bytes, clock, 0, before) == FireAll(matching[i..], bytes, clock, i, StoreOf(all))
      {
        var p := matching[i];
        assert matching[i..][0] == p && matching[i..][1..] == matching[i + 1..];
        assert p in matching && p in probes;
        FireUnfolds(matching[i..], bytes, clock, i, StoreOf(all));
        var outcome := RunProbe(p, ctx, clock(i), all);
        if Vetoes(outcome, p.failClosed) {
          return Some(p.name);
        }
      }
      assert matching[|matching|..] == [];
      FireUnfolds([], bytes, clock, |matching|, StoreOf(all));
      return None;
    }
  }

  lemma FireUnfolds(ps: seq<Probe>, ctx: seq<byte>, clock: nat -> nat -> int, from: nat, store: Store)
    requires AllHeld(store, ps)
    ensures ps == [] ==> FireAll(ps, ctx, clock, from, store) == Fired(None, store)
    ensures ps != [] ==>
              var after := StoreAfter(ps[0], ctx, clock(from), store);
              var r := RunOf(ps[0], ctx, clock(from), store);
              && !r.Next?
              && FireAll(ps, ctx, clock, from, store)
                 == if Vetoes(OutcomeOf(r), ps[0].failClosed) then Fired(Some(ps[0].name), after)
                    else FireAll(ps[1..], ctx, clock, from + 1, after)
  {
    hide RunOf, StoreAfter, OutcomeOf;
    if ps != [] {
      RunKeepsMaps(ps[0], ctx, clock(from), store);
    }
  }

  // What firing does, probe by probe

  /** A veto leaves the maps as though the probes after it were not attached; without one, every probe ran. */
  lemma {:induction false} StopsAtFirstVeto(ps: seq<Probe>, ctx: seq<byte>, clock: nat -> nat -> int, from: nat,
                                            store: Store)
    requires AllHeld(store, ps)
    ensures var f := FireAll(ps, ctx, clock, from, store);
            f.veto.Some? ==>
              exists n :: 0 <= n < |ps| && f.veto == Some(ps[n].name)
                       && f == FireAll(ps[..n + 1], ctx, clock, from, store)
                       && FireAll(ps[..n], ctx, clock, from, store).veto.None?
    decreases |ps|
  {
    hide StoreAfter, RunOf, Vetoes, OutcomeOf;
    var f := FireAll(ps, ctx, clock, from, store);
    if ps != [] && f.veto.Some? {
      var after := StoreAfter(ps[0], ctx, clock(from), store);
      RunKeepsMaps(ps[0], ctx, clock(from), store);
      if Vetoes(OutcomeOf(RunOf(ps[0], ctx, clock(from), store)), ps[0].failClosed) {
        assert ps[..1][0] == ps[0];
        assert f == FireAll(ps[..0 + 1], ctx, clock, from, store) && ps[..0] == [];
      } else {
        StopsAtFirstVeto(ps[1..], ctx, clock, from + 1, after);
        var n :| 0 <= n < |ps[1..]| && f.veto == Some(ps[1..][n].name)
              && f == FireAll(ps[1..][..n + 1], ctx, clock, from + 1, after)
              && FireAll(ps[1..][..n], ctx, clock, from + 1, after).veto.None?;
        assert ps[..n + 2][1..] == ps[1..][..n + 1] && ps[..n + 1][1..] == ps[1..][..n];
        assert f == FireAll(ps[..(n + 1) + 1], ctx, clock, from, store);
      }
    }
  }

  // Which probe vetoes, by its run alone

  /** The first probe whose run vetoes, those before it having run. */
  ghost function FirstVeto(ps: seq<Probe>, ctx: seq<byte>, clock: nat -> nat -> int, from: nat, store: Store)
    : (r: Option<nat>)
    requires AllHeld(store, ps)
    ensures r.Some? ==> r.value < |ps|
    decreases |ps|
  {
    if ps == [] then None
    else
      RunKeepsMaps(ps[0], ctx, clock(from), store);
      if Vetoes(OutcomeOf(RunOf(ps[0], ctx, clock(from), store)), ps[0].failClosed) then Some(0)
      else
        var rest := FirstVeto(ps[1..], ctx, clock, from + 1, StoreAfter(ps[0], ctx, clock(from), store));
        if rest.Some? then Some(rest.value + 1) else None
  }

  lemma {:induction false} FireNamesFirstVeto(ps: seq<Probe>, ctx: seq<byte>, clock: nat -> nat -> int, from: nat,
                                              store: Store)
    requires AllHeld(store, ps)
    ensures var v := FirstVeto(ps, ctx, clock, from, store);
            FireAll(ps, ctx, clock, from, store).veto == if v.Some? then Some(ps[v.value].name) else None
    decreases |ps|
  {
    hide RunOf, StoreAfter, OutcomeOf, Vetoes;
    if ps != [] {
      RunKeepsMaps(ps[0], ctx, clock(from), store);
      FireNamesFirstVeto(ps[1..], ctx, clock, from + 1, StoreAfter(ps[0], ctx, clock(from), store));
    }
  }

  /** A probe that returns 1 whenever it is run vetoes as soon as it is reached. */
  lemma RefuserVetoes(ps: seq<Probe>, ctx: seq<byte>, clock: nat -> nat -> int, store: Store)
    requires AllHeld(store, ps) && ps != [] && ps[0].vm.insns == REFUSER && ps[0].vm.maxInstructions >= 2
    ensures FirstVeto(ps, ctx, clock, 0, store) == Some(0)
  {
    hide Machine.Run, Start;
    var e := Env(ctx, Fds(ps[0].maps), clock(0));
    RefuserRun(e, Host(Local(store, ps[0].maps), [], 0), ps[0].vm.maxInstructions);
  }

  ghost predicate Unused(ps: seq<Probe>, m: EbpfMap) {
    forall p :: p in ps ==> m !in p.maps
  }

  /** Firing leaves alone every map that no fired probe was given. */
  lemma {:induction false} FireFrame(ps: seq<Probe>, ctx: seq<byte>, clock: nat -> nat -> int, from: nat,
                                     store: Store, m: EbpfMap)
    requires AllHeld(store, ps) && Unused(ps, m) && m in store
    ensures FireAll(ps, ctx, clock, from, store).store[m] == store[m]
    decreases |ps|
  {
    hide RunOf, Vetoes, OutcomeOf;
    if ps != [] {
      FireFrame(ps[1..], ctx, clock, from + 1, StoreAfter(ps[0], ctx, clock(from), store), m);
    }
  }

  // Metering

  /** The run counter of the README over its own map. */
  ghost predicate IsMeter(p: Probe, m: EbpfMap) {
    p.vm.insns == COUNTER && p.vm.maxInstructions >= 6 && p.maps == [m]
  }

  lemma MeterAddsOne(p: Probe, ctx: seq<byte>, clock: nat -> int, store: Store, m: EbpfMap)
    requires IsMeter(p, m) && m in store
    ensures StoreAfter(p, ctx, clock, store)[m] == Plus(store[m], 0, 1)
    ensures RunOf(p, ctx, clock, store).Returned? && RunOf(p, ctx, clock, store).r0 == 0
  {
    hide Machine.Run, Start, Plus;
    var e := Env(ctx, Fds(p.maps), clock);
    var host := Host(Local(store, p.maps), [], 0);
    RunKeepsMaps(p, ctx, clock, store);
    CounterRun(e, host, p.vm.maxInstructions, 0);
    assert RunOf(p, ctx, clock, store).s.host.maps == [Plus(store[m], 0, 1)];
  }

  /** Attached first, the meter counts each firing once, whatever the probes behind it do or veto. */
  lemma MeterCounts(ps: seq<Probe>, ctx: seq<byte>, clock: nat -> nat -> int, store: Store, m: EbpfMap)
    requires AllHeld(store, ps) && ps != [] && IsMeter(ps[0], m) && Unused(ps[1..], m) && m in store
    ensures FireAll(ps, ctx, clock, 0, store).store[m] == Plus(store[m], 0, 1)
  {
    hide Plus, RunOf, StoreAfter;
    MeterAddsOne(ps[0], ctx, clock(0), store, m);
    FireFrame(ps[1..], ctx, clock, 1, StoreAfter(ps[0], ctx, clock(0), store), m);
  }

  lemma CountedOnce(m: MapState)
    requires !Refuses(m, 0)
    ensures !Refuses(Plus(m, 0, 1), 0) && GetOr0(Plus(m, 0, 1), 0) == U64(GetOr0(m, 0) as int + 1)
  {
  }
}
