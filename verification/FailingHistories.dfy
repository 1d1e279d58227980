/** The shortest histories in which a meter, a caller and a replay are told different things. */
module FailingHistories {
  import opened Options
  import opened Policy
  import opened Maps
  import opened ProgramRuns
  import opened Probes
  import opened Retries
  import opened Sandboxing
  import opened Replays
  import Metering
  import Overlaps

  /** One run under some probes. */
  function Once(code: string, ps: seq<Probe>, now: Moment): Asked<int> {
    Asked(RunRequest(code, None, 0, 0), ps, now)
  }

  lemma OneRun(realm: Realm<int, int, int>, policy: SandboxPolicy, store: Store, a: Asked<int>)
    requires HeldIn(store.Keys, a.probes)
    ensures Known([a], store.Keys)
    ensures var seen := AfterRun(realm, policy, a.probes, store, Box(0, []), a.request, a.now);
            AfterRuns(realm, policy, store, Box(0, []), [a])
            == History([seen.result], [seen.told], seen.box, seen.store)
  {
    hide AfterRun;
    var first := AfterFirst(realm, policy, store, Box(0, []), [a]);
    assert [a][1..] == [] && AfterRuns(realm, policy, first.store, first.box, []).results == [];
  }

  /** What the counting guest makes of a new sandbox, if nothing refuses it. */
  lemma CountsOne(limit: int, policy: SandboxPolicy, r: RunRequest<int>)
    requires r.estimatedMemoryMB <= policy.memoryBudgetMB
    ensures Guest(Overlaps.Counting(limit), policy, Box(0, []), r) == Outcome(Some(0), "", 1, [])
  {
    var realm := Overlaps.Counting(limit);
    Overlaps.CountingFinish(limit, policy, r, NameOf(realm, policy, Box(0, []), r), 0);
  }

  /** Replay of one such run. */
  lemma ReplayCountsOne(requested: SandboxPolicy, r: RunRequest<int>, name: string, ok: bool)
    requires r.estimatedMemoryMB <= Normalize(requested).memoryBudgetMB
    ensures Replayed(Overlaps.Counting(Overlaps.NO_LIMIT), Normalize(requested), 0,
                     [RunRecord(name, r.code, r.args, r.estimatedMemoryMB, ok)])
         == Some(([RunResult(name, Some(0), "", [])], 1))
  {
    hide Normalize, Execute;
    NormalizeIsIdempotent(requested);
    var realm, q := Overlaps.Counting(Overlaps.NO_LIMIT), ForReplay(Normalize(requested));
    var record := RunRecord(name, r.code, r.args, r.estimatedMemoryMB, ok);
    Overlaps.CountingFinish(Overlaps.NO_LIMIT, q, r, name, 0);
    var again := [AsRequest(record)];
    assert Again([record]) == again && again[1..] == [];
    var (result, after) := RunOnce(realm, q, Box(0, []), AsRequest(record), None);
    assert result == RunResult(name, Some(0), "", []) && after.state == 1;
    var (none, final) := RunAll(realm, q, after, again[1..]);
    assert none == [] && final == after && [result] + none == [result];
    assert RunAll(realm, q, Box(0, []), again) == ([result] + none, final);
  }

  lemma BudgetIsPositive(requested: SandboxPolicy)
    ensures Normalize(requested).memoryBudgetMB > 0
  {
  }

  /** A snapshot after every run and a store that fails: `run` throws, and replay tells the result it kept. */
  lemma FailedSnapshotIsNotTold(requested: SandboxPolicy, code: string, now: Moment, store: Store)
    requires Normalize(requested).snapshotEveryNRuns == 1 && !now.saves
    ensures var realm, policy := Overlaps.Counting(Overlaps.NO_LIMIT), Normalize(requested);
            Known([Once(code, [], now)], store.Keys) &&
            var h := AfterRuns(realm, policy, store, Box(0, []), [Once(code, [], now)]);
            && h.told == [Rejected] && h.box.state == 1
            && Replayed(realm, policy, 0, h.box.log) == Some((h.results, 1)) && h.results[0].value == Some(0)
  {
    hide Normalize, Execute, Replayed, Pack;
    var realm, policy, a := Overlaps.Counting(Overlaps.NO_LIMIT), Normalize(requested), Once(code, [], now);
    BudgetIsPositive(requested);
    OneRun(realm, policy, store, a);
    Unprobed(realm, policy, store, Box(0, []), a.request, now);
    CountsOne(Overlaps.NO_LIMIT, policy, a.request);
    var name := NameOf(realm, policy, Box(0, []), a.request);
    ReplayCountsOne(requested, a.request, name, true);
    var record := RunRecord(name, code, 0, 0, true);
    assert [] + [record] == [record];
  }

  /** A probe that returns 1 refuses the run; replay, which has no probes, lets it succeed and moves the state. */
  lemma RefusedRunIsReplayed(requested: SandboxPolicy, code: string, ps: seq<Probe>, now: Moment, store: Store)
    requires HeldIn(store.Keys, ps)
    requires var starting := Matching(ps, RunStart);
             && starting != [] && starting[0].vm.insns == REFUSER && starting[0].vm.maxInstructions >= 2
             && starting[0].name != Given("")
    ensures var realm, policy := Overlaps.Counting(Overlaps.NO_LIMIT), Normalize(requested);
            Known([Once(code, ps, now)], store.Keys) &&
            var h := AfterRuns(realm, policy, store, Box(0, []), [Once(code, ps, now)]);
            && h.results[0].value == None && h.box.state == 0
            && Replayed(realm, policy, 0, h.box.log)
               == Some(([RunResult(h.results[0].name, Some(0), "", [])], 1))
  {
    hide Normalize, Execute, Replayed, Pack, Matching, Denial, NameText;
    var realm, policy, a := Overlaps.Counting(Overlaps.NO_LIMIT), Normalize(requested), Once(code, ps, now);
    BudgetIsPositive(requested);
    OneRun(realm, policy, store, a);
    EmptyNameRefusesNothing(realm, policy, store, Box(0, []), a);
    RefusedExactly(realm, policy, store, Box(0, []), a);
    var name := NameOf(realm, policy, Box(0, []), a.request);
    ReplayCountsOne(requested, a.request, name, false);
    var record := RunRecord(name, code, 0, 0, false);
    assert [] + [record] == [record];
  }

  /** Two runs pass the scan, and a meter counts one: the first leaves a state that cannot be cloned. */
  lemma UncloneableIsNotCounted(policy: SandboxPolicy, code: string, ps: seq<Probe>, now: Moment, store: Store,
                                m: EbpfMap)
    requires HeldIn(store.Keys, ps) && Metering.MeterAlone(ps) && Metering.MeteredOn(ps, m) && m in store
    requires !Refuses(store[m], 0) && 0 <= policy.memoryBudgetMB
    ensures var realm, a := Overlaps.Counting(1), Once(code, ps, now);
            && Known([a, a], store.Keys) && Metering.Scanned(realm, policy, [a, a]) == 2
            && GetOr0(AfterRuns(realm, policy, store, Box(0, []), [a, a]).store[m], 0)
               == U64(GetOr0(store[m], 0) as int + 1)
  {
    hide AfterRun, Metering.MeterAlone, Metering.MeteredOn, Matching, Refuses, GetOr0, U64, Execute, VetoOf;
    var realm, a := Overlaps.Counting(1), Once(code, ps, now);
    var both, box := [a, a], Box(0, []);
    assert both[1..] == [a] && [a][1..] == [];
    assert Metering.Scanned(realm, policy, [a]) == 1;
    Metering.MeterRefusesNothing(realm, policy, store, box, a);
    RefusedExactly(realm, policy, store, box, a);
    CountsOne(1, policy, a.request);
    var first := AfterFirst(realm, policy, store, box, both);
    assert first.box.state == 1;
    var second := AfterFirst(realm, policy, first.store, first.box, [a]);
    assert Metering.Started(realm, policy, second.store, second.box, []) == 0;
    assert Metering.Started(realm, policy, first.store, first.box, [a]) == 0;
    Metering.RunsAreMetered(realm, policy, store, box, both, m);
  }
}
