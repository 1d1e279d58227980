/**
 * The run counter of the repository's README over histories of runs: what its map holds, and that it lets runs pass.
 */
module Metering {
  import opened Policy
  import opened Maps
  import opened ProgramRuns
  import opened Probes
  import opened Sandboxing
  import opened Replays

  /** Of a run's probes, the meter is the first at run:start, and nothing else that may fire is given its map. */
  ghost predicate MeteredOn(ps: seq<Probe>, m: EbpfMap) {
    var starting := Matching(ps, RunStart);
    && starting != [] && IsMeter(starting[0], m) && Unused(starting[1..], m)
    && Unused(Matching(ps, Log), m) && Unused(Matching(ps, RunEnd), m) && Unused(Matching(ps, Snapshot), m)
  }

  ghost predicate Metered<A>(asked: seq<Asked<A>>, m: EbpfMap) {
    forall i :: 0 <= i < |asked| ==> MeteredOn(asked[i].probes, m)
  }

  /** How many runs of the history reached run:start: they passed the code scan, and the state could be cloned. */
  ghost function Started<S, A, V>(realm: Realm<S, A, V>, policy: SandboxPolicy, store: Store, box: Box<S, A>,
                                  asked: seq<Asked<A>>): nat
    requires Known(asked, store.Keys)
    decreases |asked|
  {
    if asked == [] then 0
    else
      var first := AfterFirst(realm, policy, store, box, asked);
      (if Starts(realm, policy, box, asked[0].request) then 1 else 0)
      + Started(realm, policy, first.store, first.box, asked[1..])
  }

  lemma {:induction false} LogsKeep(ps: seq<Probe>, index: nat, logs: seq<string>, now: Moment, from: nat,
                                    store: Store, m: EbpfMap)
    requires HeldIn(store.Keys, ps) && Unused(Matching(ps, Log), m) && m in store
    ensures AtLogs(ps, index, logs, now, from, store)[m] == store[m]
    decreases |logs|
  {
    hide Pack, Unused, FireAll;
    if logs != [] {
      var ctx := Pack([index, |logs[0]|]);
      FireFrame(Matching(ps, Log), ctx, now.clock(from), 0, store, m);
      var next := FireAll(Matching(ps, Log), ctx, now.clock(from), 0, store).store;
      LogsKeep(ps, index, logs[1..], now, from + 1, next, m);
    }
  }

  lemma HeldMatching(maps: set<EbpfMap>, ps: seq<Probe>, t: Tracepoint)
    requires HeldIn(maps, ps)
    ensures HeldIn(maps, Matching(ps, t))
  {
  }

  lemma EndKeeps<V>(ps: seq<Probe>, index: nat, result: RunResult<V>, codeLength: nat, now: Moment, store: Store,
                    m: EbpfMap)
    requires HeldIn(store.Keys, ps) && Unused(Matching(ps, RunEnd), m) && m in store
    ensures AtEnd(ps, index, result, codeLength, now, store)[m] == store[m]
  {
    hide Pack, FireAll, HeldIn;
    HeldMatching(store.Keys, ps, RunEnd);
    var ctx := Pack(EndFields(index, result, codeLength, now));
    FireFrame(Matching(ps, RunEnd), ctx, now.clock(1 + |result.logs|), 0, store, m);
  }

  lemma SnapshotKeeps<S, A, V>(realm: Realm<S, A, V>, ps: seq<Probe>, box: Box<S, A>, firing: nat, now: Moment,
                               store: Store,
                               m: EbpfMap)
    requires HeldIn(store.Keys, ps) && Unused(Matching(ps, Snapshot), m) && m in store
    ensures AtSnapshot(realm, ps, box, firing, now, store)[m] == store[m]
  {
    hide Pack, FireAll, HeldIn;
    HeldMatching(store.Keys, ps, Snapshot);
    var ctx := Pack([|box.log|, realm.stateBytes(box.state)]);
    FireFrame(Matching(ps, Snapshot), ctx, now.clock(firing), 0, store, m);
  }

  lemma StartCounts<S, A, V>(realm: Realm<S, A, V>, policy: SandboxPolicy, ps: seq<Probe>, store: Store, box: Box<S, A>,
                             r: RunRequest<A>, now: Moment, m: EbpfMap)
    requires HeldIn(store.Keys, ps) && MeteredOn(ps, m) && m in store
    ensures AtStart(realm, policy, ps, store, box, r, now).store[m]
         == if Starts(realm, policy, box, r) then Plus(store[m], 0, 1) else store[m]
  {
    hide Pack, FireAll, HeldIn, Plus, Starts;
    HeldMatching(store.Keys, ps, RunStart);
    if Starts(realm, policy, box, r) {
      MeterCounts(Matching(ps, RunStart), Pack(StartFields(realm, |box.log|, r, now)), now.clock(0), store, m);
    }
  }

  /** A run adds one to the meter's key if it starts, and else leaves its map alone, a snapshot after it included. */
  lemma RunIsMetered<S, A, V>(realm: Realm<S, A, V>, policy: SandboxPolicy, store: Store, box: Box<S, A>, a: Asked<A>,
                              m: EbpfMap)
    requires HeldIn(store.Keys, a.probes) && MeteredOn(a.probes, m) && m in store
    ensures AfterRun(realm, policy, a.probes, store, box, a.request, a.now).store[m]
         == if Starts(realm, policy, box, a.request) then Plus(store[m], 0, 1) else store[m]
  {
    hide AtStart, AtLogs, AtEnd, AtSnapshot, RunOnce, Plus, Starts, HeldIn, SnapshotDue, SnapshotSaves, Unused, IsMeter;
    var ps, r, now := a.probes, a.request, a.now;
    StartCounts(realm, policy, ps, store, box, r, now, m);
    var start := AtStart(realm, policy, ps, store, box, r, now);
    var (result, after) := RunOnce(realm, policy, box, r, VetoText(start.veto));
    LogsKeep(ps, |box.log|, result.logs, now, 1, start.store, m);
    var logged := AtLogs(ps, |box.log|, result.logs, now, 1, start.store);
    EndKeeps(ps, |box.log|, result, |r.code|, now, logged, m);
    var ended := AtEnd(ps, |box.log|, result, |r.code|, now, logged);
    SnapshotKeeps(realm, ps, after, 2 + |result.logs|, now, ended, m);
  }

  /** Over any history of runs, key 0 counts the runs that started, modulo 2^64, on top of what the map held. */
  lemma {:induction false} RunsAreMetered<S, A, V>(realm: Realm<S, A, V>, policy: SandboxPolicy, store: Store,
                                                   box: Box<S, A>, asked: seq<Asked<A>>, m: EbpfMap)
    requires Known(asked, store.Keys) && Metered(asked, m) && m in store && !Refuses(store[m], 0)
    ensures GetOr0(AfterRuns(realm, policy, store, box, asked).store[m], 0)
         == U64(GetOr0(store[m], 0) + Started(realm, policy, store, box, asked))
    decreases |asked|
  {
    hide AfterRun, Plus, Refuses, GetOr0, U64, Starts, MeteredOn, HeldIn;
    if asked != [] {
      var first := AfterFirst(realm, policy, store, box, asked);
      RunIsMetered(realm, policy, store, box, asked[0], m);
      CountedOnce(store[m]);
      RunsAreMetered(realm, policy, first.store, first.box, asked[1..], m);
      U64Adds(GetOr0(store[m], 0) as int + 1, Started(realm, policy, first.store, first.box, asked[1..]));
    } else {
      U64Small(GetOr0(store[m], 0));
    }
  }

  /** How many runs of the history passed the code scan. */
  function Scanned<S, A, V>(realm: Realm<S, A, V>, policy: SandboxPolicy, asked: seq<Asked<A>>): nat {
    if asked == [] then 0
    else
      (if realm.scan(asked[0].request.code, policy.maxGuestCodeLength).None? then 1 else 0)
      + Scanned(realm, policy, asked[1..])
  }

  /** A run of the history passed the scan with a state that could not be cloned. */
  ghost predicate CloneFails<S, A, V>(realm: Realm<S, A, V>, policy: SandboxPolicy, store: Store, box: Box<S, A>,
                                      asked: seq<Asked<A>>)
    requires Known(asked, store.Keys)
    decreases |asked|
  {
    asked != [] &&
    (var first := AfterFirst(realm, policy, store, box, asked);
     || (realm.scan(asked[0].request.code, policy.maxGuestCodeLength).None? && !realm.cloneable(box.state))
     || CloneFails(realm, policy, first.store, first.box, asked[1..]))
  }

  /** What the meter counts is the runs that passed the scan if and only if no state on the way could not be cloned. */
  lemma {:induction false} MeterCountsScannedExactly<S, A, V>(realm: Realm<S, A, V>, policy: SandboxPolicy,
                                                              store: Store,
                                                              box: Box<S, A>, asked: seq<Asked<A>>)
    requires Known(asked, store.Keys)
    ensures Started(realm, policy, store, box, asked) <= Scanned(realm, policy, asked)
    ensures Started(realm, policy, store, box, asked) == Scanned(realm, policy, asked)
            <==> !CloneFails(realm, policy, store, box, asked)
    decreases |asked|
  {
    hide AfterFirst;
    if asked != [] {
      var first := AfterFirst(realm, policy, store, box, asked);
      MeterCountsScannedExactly(realm, policy, first.store, first.box, asked[1..]);
    }
  }

  /** The only probe at run:start is a meter. */
  ghost predicate MeterAlone(ps: seq<Probe>) {
    var starting := Matching(ps, RunStart);
    |starting| == 1 && starting[0].maps != [] && IsMeter(starting[0], starting[0].maps[0])
  }

  lemma MeterRefusesNothing<S, A, V>(realm: Realm<S, A, V>, policy: SandboxPolicy, store: Store, box: Box<S, A>,
                                     a: Asked<A>)
    requires HeldIn(store.Keys, a.probes) && MeterAlone(a.probes)
    ensures !Refused(realm, policy, store, box, a)
  {
    hide Pack, RunOf, StoreAfter, Starts, NameText;
    var starting := Matching(a.probes, RunStart);
    var ctx, clock := Pack(StartFields(realm, |box.log|, a.request, a.now)), a.now.clock(0);
    MeterAddsOne(starting[0], ctx, clock(0), store, starting[0].maps[0]);
    FireUnfolds(starting, ctx, clock, 0, store);
    FireUnfolds([], ctx, clock, 1, StoreAfter(starting[0], ctx, clock(0), store));
  }

  /** A meter on its own at run:start refuses nothing, so the runs of a metered sandbox replay. */
  lemma {:induction false} MeteredRunsReplay<S, A, V>(realm: Realm<S, A, V>, policy: SandboxPolicy, store: Store,
                                                      box: Box<S, A>, asked: seq<Asked<A>>)
    requires Known(asked, store.Keys) && forall i :: 0 <= i < |asked| ==> MeterAlone(asked[i].probes)
    ensures NoneRefused(realm, policy, store, box, asked)
    decreases |asked|
  {
    hide AfterFirst, Refused, HeldIn, MeterAlone;
    if asked != [] {
      MeterRefusesNothing(realm, policy, store, box, asked[0]);
      var first := AfterFirst(realm, policy, store, box, asked);
      MeteredRunsReplay(realm, policy, first.store, first.box, asked[1..]);
    }
  }
}
