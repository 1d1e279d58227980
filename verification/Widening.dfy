/**
 * A run of a sandbox is specified on the store of the maps its registry holds at that time. On any larger store it does
 * the same and leaves the other maps alone, so that runs under changing probes make one history on one store.
 */
module Widening {
  import opened Words
  import opened Policy
  import opened Maps
  import opened ProgramRuns
  import opened Probes
  import opened Sandboxing
  import opened Vm

  /** Both stores know the smaller one's maps, with the same values. */
  ghost predicate Within(small: Store, store: Store) {
    forall m :: m in small ==> m in store && store[m] == small[m]
  }

  lemma ProbeWidens(p: Probe, ctx: seq<byte>, clock: nat -> int, small: Store, store: Store)
    requires Holds(small, p.maps) && Within(small, store)
    ensures Holds(store, p.maps) && RunOf(p, ctx, clock, store) == RunOf(p, ctx, clock, small)
    ensures StoreAfter(p, ctx, clock, store) == store + StoreAfter(p, ctx, clock, small)
  {
    hide Machine.Run, FirstFd, IndexOf;
    assert Local(store, p.maps) == Local(small, p.maps);
    RunKeepsMaps(p, ctx, clock, small);
  }

  lemma {:induction false} FireWidens(ps: seq<Probe>, ctx: seq<byte>, clock: nat -> nat -> int, from: nat,
                                      small: Store, store: Store)
    requires HeldIn(small.Keys, ps) && Within(small, store)
    ensures HeldIn(store.Keys, ps)
    ensures var f := FireAll(ps, ctx, clock, from, small);
            FireAll(ps, ctx, clock, from, store) == Fired(f.veto, store + f.store)
    decreases |ps|
  {
    hide RunOf, StoreAfter, OutcomeOf, Vetoes, FireAll;
    FireUnfolds(ps, ctx, clock, from, small);
    FireUnfolds(ps, ctx, clock, from, store);
    if ps == [] {
      assert store + small == store;
    } else {
      ProbeWidens(ps[0], ctx, clock(from), small, store);
      var after, wide := StoreAfter(ps[0], ctx, clock(from), small), StoreAfter(ps[0], ctx, clock(from), store);
      FireWidens(ps[1..], ctx, clock, from + 1, after, wide);
      var f := FireAll(ps[1..], ctx, clock, from + 1, after);
      assert wide + f.store == store + f.store;
    }
  }

  lemma {:induction false} LogsWiden(ps: seq<Probe>, index: nat, logs: seq<string>, now: Moment, from: nat,
                                     small: Store, store: Store)
    requires HeldIn(small.Keys, ps) && HeldIn(store.Keys, ps) && Within(small, store)
    ensures AtLogs(ps, index, logs, now, from, store) == store + AtLogs(ps, index, logs, now, from, small)
    decreases |logs|
  {
    hide FireAll, Pack, Matching;
    if logs == [] {
      assert store + small == store;
    } else {
      var ctx, told := Pack([index, |logs[0]|]), Matching(ps, Log);
      FireWidens(told, ctx, now.clock(from), 0, small, store);
      var after, wide := FireAll(told, ctx, now.clock(from), 0, small).store,
                         FireAll(told, ctx, now.clock(from), 0, store).store;
      LogsWiden(ps, index, logs[1..], now, from + 1, after, wide);
      var final := AtLogs(ps, index, logs[1..], now, from + 1, after);
      assert wide + final == store + final;
    }
  }

  lemma StartWidens<S, A, V>(realm: Realm<S, A, V>, policy: SandboxPolicy, ps: seq<Probe>, small: Store, store: Store,
                             box: Box<S, A>, r: RunRequest<A>, now: Moment)
    requires HeldIn(small.Keys, ps) && HeldIn(store.Keys, ps) && Within(small, store)
    ensures var start := AtStart(realm, policy, ps, small, box, r, now);
            AtStart(realm, policy, ps, store, box, r, now) == start.(store := store + start.store)
  {
    hide FireAll, Pack, Matching, Starts;
    assert store + small == store;
    FireWidens(Matching(ps, RunStart), Pack(StartFields(realm, |box.log|, r, now)), now.clock(0), 0, small, store);
  }

  lemma EndWidens<V>(ps: seq<Probe>, index: nat, result: RunResult<V>, codeLength: nat, now: Moment, small: Store,
                     store: Store)
    requires HeldIn(small.Keys, ps) && HeldIn(store.Keys, ps) && Within(small, store)
    ensures AtEnd(ps, index, result, codeLength, now, store)
         == store + AtEnd(ps, index, result, codeLength, now, small)
  {
    hide FireAll, Pack, Matching;
    FireWidens(Matching(ps, RunEnd), Pack(EndFields(index, result, codeLength, now)), now.clock(1 + |result.logs|), 0,
               small, store);
  }

  lemma SnapshotWidens<S, A, V>(realm: Realm<S, A, V>, ps: seq<Probe>, box: Box<S, A>, firing: nat, now: Moment,
                                small: Store, store: Store)
    requires HeldIn(small.Keys, ps) && HeldIn(store.Keys, ps) && Within(small, store)
    ensures AtSnapshot(realm, ps, box, firing, now, store)
         == store + AtSnapshot(realm, ps, box, firing, now, small)
  {
    hide FireAll, Pack, Matching;
    FireWidens(Matching(ps, Snapshot), Pack([|box.log|, realm.stateBytes(box.state)]), now.clock(firing), 0, small,
               store);
  }

  lemma Overlay(store: Store, first: Store, second: Store)
    requires first.Keys == second.Keys
    ensures store + first + second == store + second && Within(first, store + first)
    ensures first.Keys <= store.Keys ==> (store + first).Keys == store.Keys
  {
  }

  /** One run: the same result, answer, state and log, and the larger store with the smaller one's maps updated. */
  lemma RunWidens<S, A, V>(realm: Realm<S, A, V>, policy: SandboxPolicy, ps: seq<Probe>, small: Store, store: Store,
                           box: Box<S, A>, r: RunRequest<A>, now: Moment)
    requires HeldIn(small.Keys, ps) && Within(small, store)
    ensures HeldIn(store.Keys, ps)
    ensures var seen := AfterRun(realm, policy, ps, small, box, r, now);
            AfterRun(realm, policy, ps, store, box, r, now) == seen.(store := store + seen.store)
  {
    hide AtStart, AtLogs, AtEnd, AtSnapshot, RunOnce, SnapshotDue, SnapshotSaves, VetoText, Within;
    assert HeldIn(store.Keys, ps) by { WiderHolds(ps, small, store); }
    StartWidens(realm, policy, ps, small, store, box, r, now);
    var start := AtStart(realm, policy, ps, small, box, r, now);
    var (result, after) := RunOnce(realm, policy, box, r, VetoText(start.veto));
    Overlay(store, start.store, start.store);
    LogsWiden(ps, |box.log|, result.logs, now, 1, start.store, store + start.store);
    var logged := AtLogs(ps, |box.log|, result.logs, now, 1, start.store);
    Overlay(store, start.store, logged);
    Overlay(store, logged, logged);
    EndWidens(ps, |box.log|, result, |r.code|, now, logged, store + logged);
    var ended := AtEnd(ps, |box.log|, result, |r.code|, now, logged);
    Overlay(store, logged, ended);
    Overlay(store, ended, ended);
    SnapshotWidens(realm, ps, after, 2 + |result.logs|, now, ended, store + ended);
    Overlay(store, ended, AtSnapshot(realm, ps, after, 2 + |result.logs|, now, ended));
  }

  lemma WiderHolds(ps: seq<Probe>, small: Store, store: Store)
    requires HeldIn(small.Keys, ps) && Within(small, store)
    ensures HeldIn(store.Keys, ps) && small.Keys <= store.Keys
  {
  }

  /**
   * So what `Run` promises of its registry's maps is the specification on every set of maps around them, of which it
   * leaves the others alone.
   */
  twostate lemma RunOnAllMaps<S, A, V>(box: Sandbox<S, A, V>, all: set<EbpfMap>, held: set<EbpfMap>, before: Box<S, A>,
                                       r: RunRequest<A>, now: Moment)
    requires held == box.registry.AllMaps() && held <= all && unchanged(all - held)
    requires forall m :: m in all ==> allocated(m)
    requires StoreOf(held)
          == AfterRun(box.realm, box.policy, box.registry.probes, old(StoreOf(held)), before, r, now).store
    ensures HeldIn(old(StoreOf(all)).Keys, box.registry.probes)
    ensures StoreOf(all)
         == AfterRun(box.realm, box.policy, box.registry.probes, old(StoreOf(all)), before, r, now).store
  {
    hide AfterRun;
    RunWidens(box.realm, box.policy, box.registry.probes, old(StoreOf(held)), old(StoreOf(all)), before, r, now);
  }
}
