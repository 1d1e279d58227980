/**
 * What a firing does, told from the runs of the attached probes alone: the probes of the tracepoint run in the order in
 * which they were attached, each on the maps the ones before it left, until one returns nonzero or aborts failing
 * closed.
 */
module Firing {
  import opened Words
  import opened Codec
  import opened Options
  import opened Maps
  import opened Machine
  import opened ProgramRuns
  import opened Vm
  import opened Probes
  import opened Readers
  import SmallPrograms

  /** How many of the first n attached probes are at the tracepoint. */
  function Before(ps: seq<Probe>, t: Tracepoint, n: nat): nat
    requires n <= |ps|
  {
    if n == 0 then 0 else Before(ps, t, n - 1) + if ps[n - 1].tracepoint == t then 1 else 0
  }

  /** The maps once the first n attached probes have had their turn. */
  ghost function Reached(ps: seq<Probe>, t: Tracepoint, ctx: seq<byte>, clock: nat -> nat -> int, store: Store, n: nat)
    : (after: Store)
    requires n <= |ps| && HeldIn(store.Keys, ps)
    ensures after.Keys == store.Keys
  {
    if n == 0 then store
    else
      var left := Reached(ps, t, ctx, clock, store, n - 1);
      if ps[n - 1].tracepoint == t then StoreAfter(ps[n - 1], ctx, clock(Before(ps, t, n - 1)), left) else left
  }

  /** Attached probe i, if the firing comes to it, refuses: it returns nonzero, or aborts and fails closed. */
  ghost predicate RefusesAt(ps: seq<Probe>, t: Tracepoint, ctx: seq<byte>, clock: nat -> nat -> int, store: Store,
                            i: nat)
    requires i < |ps| && HeldIn(store.Keys, ps)
  {
    ps[i].tracepoint == t &&
    match RunOf(ps[i], ctx, clock(Before(ps, t, i)), Reached(ps, t, ctx, clock, store, i))
    case Returned(r0, _) => r0 != 0
    case Aborted(_, _) => ps[i].failClosed
    case Next(_) => false
  }

  ghost predicate FirstToRefuse(ps: seq<Probe>, t: Tracepoint, ctx: seq<byte>, clock: nat -> nat -> int, store: Store,
                                i: nat)
    requires HeldIn(store.Keys, ps)
  {
    && i < |ps| && RefusesAt(ps, t, ctx, clock, store, i)
    && forall j :: 0 <= j < i ==> !RefusesAt(ps, t, ctx, clock, store, j)
  }

  /**
   * If no attached probe refuses, there is no veto and every probe of the tracepoint has run; if one does, the veto is
   * the first such probe's name, and the probes after it have not run.
   */
  ghost predicate Decides(ps: seq<Probe>, t: Tracepoint, ctx: seq<byte>, clock: nat -> nat -> int, store: Store,
                          f: Fired)
    requires HeldIn(store.Keys, ps)
  {
    && (f.veto.None? <==> forall i :: 0 <= i < |ps| ==> !RefusesAt(ps, t, ctx, clock, store, i))
    && (f.veto.None? ==> f.store == Reached(ps, t, ctx, clock, store, |ps|))
    && (forall i: nat :: FirstToRefuse(ps, t, ctx, clock, store, i) ==>
          f == Fired(Some(ps[i].name), Reached(ps, t, ctx, clock, store, i + 1)))
  }

  lemma FireExactly(ps: seq<Probe>, t: Tracepoint, ctx: seq<byte>, clock: nat -> nat -> int, store: Store)
    requires HeldIn(store.Keys, ps)
    ensures Decides(ps, t, ctx, clock, store, FireAll(Matching(ps, t), ctx, clock, 0, store))
  {
    hide FireAll, Matching, RefusesAt, HeldIn, Decides;
    assert ps[0..] == ps;
    FireFrom(ps, t, ctx, clock, store, 0);
  }

  lemma MatchingFrom(ps: seq<Probe>, t: Tracepoint, n: nat)
    requires n < |ps|
    ensures Matching(ps[n..], t) == (if ps[n].tracepoint == t then [ps[n]] else []) + Matching(ps[n + 1..], t)
  {
    assert ps[n..][1..] == ps[n + 1..] && ps[n..][0] == ps[n];
  }

  /** From attached probe n on, none before it having refused. */
  lemma {:induction false} FireFrom(ps: seq<Probe>, t: Tracepoint, ctx: seq<byte>, clock: nat -> nat -> int,
                                    store: Store, n: nat)
    requires HeldIn(store.Keys, ps) && n <= |ps|
    requires forall i :: 0 <= i < n ==> !RefusesAt(ps, t, ctx, clock, store, i)
    ensures HeldIn(store.Keys, Matching(ps[n..], t))
    ensures Decides(ps, t, ctx, clock, store,
                    FireAll(Matching(ps[n..], t), ctx, clock, Before(ps, t, n), Reached(ps, t, ctx, clock, store, n)))
    decreases |ps| - n
  {
    hide FireAll, StoreAfter, RunOf, RefusesAt, Matching, Decides, HeldIn;
    var from, left := Before(ps, t, n), Reached(ps, t, ctx, clock, store, n);
    assert HeldIn(store.Keys, Matching(ps[n..], t)) by { HeldFrom(store.Keys, ps, t, n); }
    if n == |ps| {
      AllRan(ps, t, ctx, clock, store);
    } else {
      MatchingFrom(ps, t, n);
      var rest := Matching(ps[n + 1..], t);
      if ps[n].tracepoint != t {
        ElsewhereNeverRefuses(ps, t, ctx, clock, store, n);
        assert [] + rest == rest;
        FireFrom(ps, t, ctx, clock, store, n + 1);
      } else {
        assert ([ps[n]] + rest)[1..] == rest;
        FireUnfolds([ps[n]] + rest, ctx, clock, from, left);
        OneTurn(ps, t, ctx, clock, store, n);
        if RefusesAt(ps, t, ctx, clock, store, n) {
          StopsAt(ps, t, ctx, clock, store, n);
        } else {
          FireFrom(ps, t, ctx, clock, store, n + 1);
        }
      }
    }
  }

  lemma HeldFrom(maps: set<EbpfMap>, ps: seq<Probe>, t: Tracepoint, n: nat)
    requires HeldIn(maps, ps) && n <= |ps|
    ensures HeldIn(maps, Matching(ps[n..], t))
  {
  }

  lemma AllRan(ps: seq<Probe>, t: Tracepoint, ctx: seq<byte>, clock: nat -> nat -> int, store: Store)
    requires HeldIn(store.Keys, ps)
    requires forall i :: 0 <= i < |ps| ==> !RefusesAt(ps, t, ctx, clock, store, i)
    ensures Decides(ps, t, ctx, clock, store,
                    FireAll(Matching(ps[|ps|..], t), ctx, clock, Before(ps, t, |ps|),
                            Reached(ps, t, ctx, clock, store, |ps|)))
  {
    hide RefusesAt, Reached;
  }

  lemma StopsAt(ps: seq<Probe>, t: Tracepoint, ctx: seq<byte>, clock: nat -> nat -> int, store: Store, n: nat)
    requires n < |ps| && HeldIn(store.Keys, ps) && ps[n].tracepoint == t
    requires forall i :: 0 <= i < n ==> !RefusesAt(ps, t, ctx, clock, store, i)
    requires RefusesAt(ps, t, ctx, clock, store, n)
    ensures Decides(ps, t, ctx, clock, store,
                    Fired(Some(ps[n].name), StoreAfter(ps[n], ctx, clock(Before(ps, t, n)),
                                                       Reached(ps, t, ctx, clock, store, n))))
  {
    hide RefusesAt, StoreAfter;
    forall i: nat | FirstToRefuse(ps, t, ctx, clock, store, i)
      ensures i == n
    {
    }
  }

  lemma OneTurn(ps: seq<Probe>, t: Tracepoint, ctx: seq<byte>, clock: nat -> nat -> int, store: Store, n: nat)
    requires n < |ps| && HeldIn(store.Keys, ps) && ps[n].tracepoint == t
    ensures var r := RunOf(ps[n], ctx, clock(Before(ps, t, n)), Reached(ps, t, ctx, clock, store, n));
            !r.Next? && (RefusesAt(ps, t, ctx, clock, store, n) <==> Vetoes(OutcomeOf(r), ps[n].failClosed))
  {
    hide RunOf, Reached;
    RunKeepsMaps(ps[n], ctx, clock(Before(ps, t, n)), Reached(ps, t, ctx, clock, store, n));
  }

  lemma ElsewhereNeverRefuses(ps: seq<Probe>, t: Tracepoint, ctx: seq<byte>, clock: nat -> nat -> int, store: Store,
                              n: nat)
    requires n < |ps| && HeldIn(store.Keys, ps) && ps[n].tracepoint != t
    ensures !RefusesAt(ps, t, ctx, clock, store, n)
  {
  }

  // Single probes

  /** Of the attached probes, i is the only one at the tracepoint. */
  predicate OnlyAt(ps: seq<Probe>, t: Tracepoint, i: nat) {
    i < |ps| && forall j :: 0 <= j < |ps| ==> (ps[j].tracepoint == t <==> j == i)
  }

  lemma {:induction false} NothingBefore(ps: seq<Probe>, t: Tracepoint, ctx: seq<byte>, clock: nat -> nat -> int,
                                         store: Store, n: nat)
    requires n <= |ps| && HeldIn(store.Keys, ps) && forall j :: 0 <= j < n ==> ps[j].tracepoint != t
    ensures Before(ps, t, n) == 0 && Reached(ps, t, ctx, clock, store, n) == store
  {
    if n > 0 {
      NothingBefore(ps, t, ctx, clock, store, n - 1);
    }
  }

  lemma {:induction false} NothingBehind(ps: seq<Probe>, t: Tracepoint, ctx: seq<byte>, clock: nat -> nat -> int,
                                         store: Store, n: nat, m: nat)
    requires n <= m <= |ps| && HeldIn(store.Keys, ps) && forall j :: n <= j < m ==> ps[j].tracepoint != t
    ensures Reached(ps, t, ctx, clock, store, m) == Reached(ps, t, ctx, clock, store, n)
    decreases m - n
  {
    hide StoreAfter;
    if n < m {
      NothingBehind(ps, t, ctx, clock, store, n, m - 1);
    }
  }

  /** A firing that reaches one probe only is that probe's run. */
  lemma FireOnly(ps: seq<Probe>, t: Tracepoint, ctx: seq<byte>, clock: nat -> nat -> int, store: Store, i: nat)
    requires HeldIn(store.Keys, ps) && OnlyAt(ps, t, i)
    ensures var f, r := FireAll(Matching(ps, t), ctx, clock, 0, store), RunOf(ps[i], ctx, clock(0), store);
            && f.store == StoreAfter(ps[i], ctx, clock(0), store)
            && f.veto
               == if (r.Returned? && r.r0 != 0) || (r.Aborted? && ps[i].failClosed) then Some(ps[i].name) else None
  {
    hide FireAll, RunOf, StoreAfter;
    NothingBefore(ps, t, ctx, clock, store, i);
    RunKeepsMaps(ps[i], ctx, clock(0), store);
    FireExactly(ps, t, ctx, clock, store);
    NothingBehind(ps, t, ctx, clock, store, i + 1, |ps|);
    forall j | 0 <= j < |ps| && j != i
      ensures !RefusesAt(ps, t, ctx, clock, store, j)
    {
      ElsewhereNeverRefuses(ps, t, ctx, clock, store, j);
    }
    if RefusesAt(ps, t, ctx, clock, store, i) {
      assert FirstToRefuse(ps, t, ctx, clock, store, i);
    }
  }

  /** A gate: the firing is vetoed exactly when its field exceeds its limit, and the maps stay as they were. */
  lemma GateFires(ps: seq<Probe>, t: Tracepoint, fields: seq<int>, clock: nat -> nat -> int, store: Store, i: nat,
                  k: nat, limit: nat)
    requires HeldIn(store.Keys, ps) && OnlyAt(ps, t, i) && k < |fields| <= 16 && limit < 0x8000_0000
    requires ps[i].vm.insns == Gate(k, limit) && ps[i].vm.maxInstructions >= 5
    ensures FireAll(Matching(ps, t), Pack(fields), clock, 0, store).veto
         == if U64(fields[k]) > limit then Some(ps[i].name) else None
  {
    hide FireAll, Machine.Run, Pack, Start, StoreAfter;
    var p := ps[i];
    FireOnly(ps, t, Pack(fields), clock, store, i);
    GateRun(k, limit, Env(Pack(fields), Fds(p.maps), clock(0)), Host(Local(store, p.maps), [], 0), fields,
            p.vm.maxInstructions);
  }

  /** A keyed counter: one is added at the field's value in the map at its fd, every other map staying as it was. */
  lemma KeyedFires(ps: seq<Probe>, t: Tracepoint, fields: seq<int>, clock: nat -> nat -> int, store: Store, i: nat,
                   k: nat, fd: nat)
    requires HeldIn(store.Keys, ps) && OnlyAt(ps, t, i) && k < |fields| <= 16 && fd < 0x8000_0000
    requires ps[i].vm.insns == Keyed(k, fd) && ps[i].vm.maxInstructions >= 6 && fd < |ps[i].maps|
    ensures ps[i].maps[fd] in store
    ensures FireAll(Matching(ps, t), Pack(fields), clock, 0, store)
         == Fired(None, store[ps[i].maps[fd] := Plus(store[ps[i].maps[fd]], U64(fields[k]), 1)])
  {
    hide FireAll, Machine.Run, Pack, Start, Plus;
    var p := ps[i];
    assert p.maps[fd] in p.maps;
    FireOnly(ps, t, Pack(fields), clock, store, i);
    var e, host := Env(Pack(fields), Fds(p.maps), clock(0)), Host(Local(store, p.maps), [], 0);
    KeyedRun(k, fd, e, host, fields, p.vm.maxInstructions, FirstFd(p.maps, fd));
    RunKeepsMaps(p, Pack(fields), clock(0), store);
    var r := RunOf(p, Pack(fields), clock(0), store);
    MergedAt(store, p.maps, fd, Plus(store[p.maps[fd]], U64(fields[k]), 1), r.s.host);
  }

  lemma MergedAt(store: Store, maps: seq<EbpfMap>, fd: nat, value: MapState, host: Host)
    requires Holds(store, maps) && fd < |maps| && host.maps == Local(store, maps)[FirstFd(maps, fd) := value]
    ensures Merge(store, maps, host) == store[maps[fd] := value]
  {
    hide IndexOf;
    var after := Merge(store, maps, host);
    forall m | m in store
      ensures after[m] == if m == maps[fd] then value else store[m]
    {
      if m in maps {
        assert maps[FirstFd(maps, IndexOf(maps, m))] == m;
      }
    }
  }

  /** A program that reads beyond its context: it refuses exactly when it fails closed. */
  lemma CrashFires(ps: seq<Probe>, t: Tracepoint, ctx: seq<byte>, clock: nat -> nat -> int, store: Store, i: nat,
                   off: i16)
    requires HeldIn(store.Keys, ps) && OnlyAt(ps, t, i) && off > |ctx| - 8
    requires ps[i].vm.insns == SmallPrograms.WordAt(1, off) && ps[i].vm.maxInstructions >= 2
    ensures FireAll(Matching(ps, t), ctx, clock, 0, store).veto == if ps[i].failClosed then Some(ps[i].name) else None
  {
    hide FireAll, Machine.Run, Start, StoreAfter;
    var p := ps[i];
    FireOnly(ps, t, ctx, clock, store, i);
    SmallPrograms.ContextWord(off, Env(ctx, Fds(p.maps), clock(0)), Host(Local(store, p.maps), [], 0),
                              p.vm.maxInstructions);
  }
}
