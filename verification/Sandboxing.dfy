/**
 * Sandboxes in inline mode: one run with the probes on its way, the run log, automatic snapshots, and replay. State is
 * committed only on success, every run is logged, and replay executes the log again without probes.
 */
module Sandboxing {
  import opened Options
  import opened Policy
  import opened Retries
  import opened ProgramRuns
  import opened Probes

  /**
   * What the host gives a sandbox: guests by their code, the code scan, which states can be cloned, how long a state's
   * JSON is, and the texts.
   */
  datatype Realm<!S, !A, !V> = Realm(
    guest: string -> (S, A) -> Attempt<S, V>,
    scan: (string, int) -> Option<string>,
    cloneable: S -> bool,
    given: A -> bool,
    stateBytes: S -> int,
    overBudget: (string, int, int) -> string,
    cloneError: string,
    numbered: (string, nat) -> string)

  /**
   * The surroundings of one run: the clock as it reads it, `clock(j)` being what the programs of its j-th firing read,
   * and whether the snapshot store would accept a snapshot.
   */
  datatype Moment = Moment(startedAt: int, durationUs: int, clock: nat -> nat -> nat -> int, saves: bool)

  datatype RunRequest<+A> = RunRequest(code: string, name: Option<string>, args: A, estimatedMemoryMB: int)

  datatype RunResult<+V> = RunResult(name: string, value: Option<V>, error: string, logs: seq<string>)

  /** What the caller of `run` is told: the result, unless the automatic snapshot after it failed and `run` throws. */
  datatype Told<+V> = Resolved(result: RunResult<V>) | Rejected

  datatype RunRecord<+A> = RunRecord(name: string, code: string, args: A, estimatedMemoryMB: int, ok: bool)

  datatype Box<+S, +A> = Box(state: S, log: seq<RunRecord<A>>)

  // One run, given the verdict of the run:start probes

  /** The empty string is falsy, so a veto by a probe of that name denies nothing. */
  predicate Denied(veto: Option<string>) {
    veto.Some? && veto.value != ""
  }

  /** The run gets as far as run:start. */
  predicate Starts<S, A, V>(realm: Realm<S, A, V>, policy: SandboxPolicy, box: Box<S, A>, r: RunRequest<A>) {
    realm.scan(r.code, policy.maxGuestCodeLength).None? && realm.cloneable(box.state)
  }

  function Execute<S, A, V>(realm: Realm<S, A, V>, policy: SandboxPolicy, code: string, name: string, args: A,
                            memory: int, state: S): Outcome<S, V> {
    if memory > policy.memoryBudgetMB
    then Outcome(None, realm.overBudget(name, memory, policy.memoryBudgetMB), state, [])
    else InlineOutcome(realm.guest(code), args, state, 1 + (if policy.retryCount > 0 then policy.retryCount else 0), [])
  }

  function NameOf<S, A, V>(realm: Realm<S, A, V>, policy: SandboxPolicy, box: Box<S, A>, r: RunRequest<A>): string {
    if r.name.Some? then r.name.value else realm.numbered(policy.entrypoint, |box.log| + 1)
  }

  function Denial(veto: string): string {
    "Run denied by probe \"" + veto + "\"."
  }

  function RunOnce<S, A, V>(realm: Realm<S, A, V>, policy: SandboxPolicy, box: Box<S, A>, r: RunRequest<A>,
                            veto: Option<string>)
    : (RunResult<V>, Box<S, A>)
  {
    var name := NameOf(realm, policy, box, r);
    var unsafe := realm.scan(r.code, policy.maxGuestCodeLength);
    if unsafe.Some? then Failing(box, r, name, unsafe.value)
    else if !realm.cloneable(box.state) then Failing(box, r, name, realm.cloneError)
    else if Denied(veto) then Failing(box, r, name, Denial(veto.value))
    else Concluded(box, r, name, Execute(realm, policy, r.code, name, r.args, r.estimatedMemoryMB, box.state))
  }

  function Concluded<S, A, V>(box: Box<S, A>, r: RunRequest<A>, name: string, o: Outcome<S, V>)
    : (RunResult<V>, Box<S, A>)
  {
    (RunResult(name, o.value, if o.value.Some? then "" else o.error, o.logs),
     Box(if o.value.Some? then o.state else box.state,
         box.log + [RunRecord(name, r.code, r.args, r.estimatedMemoryMB, o.value.Some?)]))
  }

  function Failing<S, A, V>(box: Box<S, A>, r: RunRequest<A>, name: string, error: string): (RunResult<V>, Box<S, A>) {
    (RunResult(name, None, error, []),
     box.(log := box.log + [RunRecord(name, r.code, r.args, r.estimatedMemoryMB, false)]))
  }

  /** Only these fields of a policy bear on a run whose name is given. */
  predicate SameGovernance(p: SandboxPolicy, q: SandboxPolicy) {
    p.retryCount == q.retryCount && p.memoryBudgetMB == q.memoryBudgetMB && p.maxGuestCodeLength == q.maxGuestCodeLength
  }

  // The probes on the way

  datatype Seen<!S, !A, !V> = Seen(result: RunResult<V>, told: Told<V>, box: Box<S, A>, store: Store)

  function StartFields<S, A, V>(realm: Realm<S, A, V>, index: nat, r: RunRequest<A>, now: Moment): seq<int> {
    [index, |r.code|, r.estimatedMemoryMB, if realm.given(r.args) then 1 else 0, now.startedAt]
  }

  function EndFields<V>(index: nat, result: RunResult<V>, codeLength: nat, now: Moment): seq<int> {
    [index, if result.value.Some? then 1 else 0, now.durationUs, |result.logs|, codeLength]
  }

  ghost function AtStart<S, A, V>(realm: Realm<S, A, V>, policy: SandboxPolicy, ps: seq<Probe>, store: Store,
                                  box: Box<S, A>, r: RunRequest<A>, now: Moment): (f: Fired)
    requires HeldIn(store.Keys, ps)
    ensures f.store.Keys == store.Keys
  {
    if Starts(realm, policy, box, r)
    then FireAll(Matching(ps, RunStart), Pack(StartFields(realm, |box.log|, r, now)), now.clock(0), 0, store)
    else Fired(None, store)
  }

  ghost function AtLogs(ps: seq<Probe>, index: nat, logs: seq<string>, now: Moment, from: nat, store: Store)
    : (after: Store)
    requires HeldIn(store.Keys, ps)
    ensures after.Keys == store.Keys
    decreases |logs|
  {
    if logs == [] then store
    else
      AtLogs(ps, index, logs[1..], now, from + 1,
             FireAll(Matching(ps, Log), Pack([index, |logs[0]|]), now.clock(from), 0, store).store)
  }

  ghost function AtEnd<V>(ps: seq<Probe>, index: nat, result: RunResult<V>, codeLength: nat, now: Moment, store: Store)
    : (after: Store)
    requires HeldIn(store.Keys, ps)
    ensures after.Keys == store.Keys
  {
    var ctx := Pack(EndFields(index, result, codeLength, now));
    FireAll(Matching(ps, RunEnd), ctx, now.clock(1 + |result.logs|), 0, store).store
  }

  function VetoText(veto: Option<Name>): Option<string> {
    if veto.Some? then Some(NameText(veto.value)) else None
  }

  /** `maybeAutoSnapshot` runs after every success, and counts all logged runs. */
  predicate SnapshotDue<S, A>(policy: SandboxPolicy, box: Box<S, A>, ok: bool) {
    ok && policy.snapshotEveryNRuns > 0 && |box.log| % policy.snapshotEveryNRuns == 0
  }

  /** Cloning the state and saving come before the firing, and either may throw. */
  predicate SnapshotSaves<S, A, V>(realm: Realm<S, A, V>, box: Box<S, A>, now: Moment) {
    realm.cloneable(box.state) && now.saves
  }

  ghost function AtSnapshot<S, A, V>(realm: Realm<S, A, V>, ps: seq<Probe>, box: Box<S, A>, firing: nat, now: Moment,
                                     store: Store): (after: Store)
    requires HeldIn(store.Keys, ps)
    ensures after.Keys == store.Keys
  {
    var ctx := Pack([|box.log|, realm.stateBytes(box.state)]);
    FireAll(Matching(ps, Snapshot), ctx, now.clock(firing), 0, store).store
  }

  /** `run`: run:start decides, the guest runs, its log messages and the end are fired, and a snapshot may be due. */
  ghost function AfterRun<S, A, V>(realm: Realm<S, A, V>, policy: SandboxPolicy, ps: seq<Probe>, store: Store,
                                   box: Box<S, A>, r: RunRequest<A>, now: Moment): (seen: Seen<S, A, V>)
    requires HeldIn(store.Keys, ps)
    ensures seen.store.Keys == store.Keys
  {
    var start := AtStart(realm, policy, ps, store, box, r, now);
    var (result, after) := RunOnce(realm, policy, box, r, VetoText(start.veto));
    var logged := AtLogs(ps, |box.log|, result.logs, now, 1, start.store);
    var ended := AtEnd(ps, |box.log|, result, |r.code|, now, logged);
    if !SnapshotDue(policy, after, result.value.Some?) then Seen(result, Resolved(result), after, ended)
    else if !SnapshotSaves(realm, after, now) then Seen(result, Rejected, after, ended)
    else
      Seen(result, Resolved(result), after, AtSnapshot(realm, ps, after, 2 + |result.logs|, now, ended))
  }

  class Sandbox<S, A, V> {
    const realm: Realm<S, A, V>
    const policy: SandboxPolicy
    const initialState: S
    const registry: ProbeRegistry
    var state: S
    var runLog: seq<RunRecord<A>>

    ghost predicate Valid()
      reads registry, registry.counter
    {
      registry.Valid() && realm.cloneable(initialState)
    }

    ghost function Current(): Box<S, A>
      reads this
    {
      Box(state, runLog)
    }

    constructor (realm: Realm<S, A, V>, policy: SandboxPolicy, initialState: S, counter: ProbeCounter)
      requires realm.cloneable(initialState)
      ensures this.realm == realm && this.policy == Normalize(policy) && this.initialState == initialState
      ensures Valid() && Current() == Box(initialState, [])
      ensures fresh(registry) && registry.probes == [] && registry.counter == counter
    {
      this.realm := realm;
      this.policy := Normalize(policy);
      this.initialState := initialState;
      state, runLog := initialState, [];
      registry := new ProbeRegistry(counter);
    }

    /** The source's constructor clones the initial state, and throws if that fails. */
    static method Create(realm: Realm<S, A, V>, policy: SandboxPolicy, initialState: S, counter: ProbeCounter)
      returns (box: Option<Sandbox<S, A, V>>)
      ensures box.Some? <==> realm.cloneable(initialState)
      ensures box.Some? ==> fresh(box.value) && fresh(box.value.registry) && box.value.Valid()
      ensures box.Some? ==> box.value.realm == realm && box.value.policy == Normalize(policy)
      ensures box.Some? ==> box.value.initialState == initialState && box.value.Current() == Box(initialState, [])
      ensures box.Some? ==> box.value.registry.probes == [] && box.value.registry.counter == counter
    {
      if !realm.cloneable(initialState) {
        return None;
      }
      var made := new Sandbox(realm, policy, initialState, counter);
      box := Some(made);
    }

    /** `finish`: log the run, fire run:end, and answer. */
    method Finish(r: RunRequest<A>, result: RunResult<V>, now: Moment)
      requires Valid()
      modifies `runLog, registry.AllMaps()
      ensures runLog == old(runLog) + [RunRecord(result.name, r.code, r.args, r.estimatedMemoryMB, result.value.Some?)]
      ensures StoreOf(registry.AllMaps())
           == AtEnd(registry.probes, |old(runLog)|, result, |r.code|, now, old(StoreOf(registry.AllMaps())))
    {
      hide FireAll, Pack;
      var index := |runLog|;
      runLog := runLog + [RunRecord(result.name, r.code, r.args, r.estimatedMemoryMB, result.value.Some?)];
      var _ := registry.Fire(RunEnd, EndFields(index, result, |r.code|, now), now.clock(1 + |result.logs|));
    }

    method FireLogs(logs: seq<string>, now: Moment)
      requires Valid()
      modifies registry.AllMaps()
      ensures StoreOf(registry.AllMaps())
           == AtLogs(registry.probes, |runLog|, logs, now, 1, old(StoreOf(registry.AllMaps())))
    {
      hide FireAll, Pack, StoreOf, Matching;
      ghost var all := registry.AllMaps();
      ghost var before := StoreOf(all);
      for i := 0 to |logs|
        invariant AtLogs(registry.probes, |runLog|, logs, now, 1, before)
               == AtLogs(registry.probes, |runLog|, logs[i..], now, 1 + i, StoreOf(all))
      {
        assert logs[i..][0] == logs[i] && logs[i..][1..] == logs[i + 1..];
        var _ := registry.Fire(Log, [|runLog|, |logs[i]|], now.clock(1 + i));
      }
    }

    /** `run` as far as the automatic snapshot: scan, clone, the verdict of run:start, the guest, the end. */
    method RunGuest(r: RunRequest<A>, now: Moment) returns (result: RunResult<V>)
      requires Valid()
      modifies this, registry.AllMaps()
      ensures var start := AtStart(realm, policy, registry.probes, old(StoreOf(registry.AllMaps())), old(Current()),
                                   r, now);
              && (result, Current()) == RunOnce(realm, policy, old(Current()), r, VetoText(start.veto))
              && StoreOf(registry.AllMaps())
                 == AtEnd(registry.probes, |old(runLog)|, result, |r.code|, now,
                          AtLogs(registry.probes, |old(runLog)|, result.logs, now, 1, start.store))
    {
      hide FireAll, Pack, StoreOf, Matching, AtEnd, Execute, Concluded, Denial, NameText;
      ghost var box, store := Current(), StoreOf(registry.AllMaps());
      var name := if r.name.Some? then r.name.value else realm.numbered(policy.entrypoint, |runLog| + 1);
      var unsafe := realm.scan(r.code, policy.maxGuestCodeLength);
      if unsafe.Some? {
        result := RunResult(name, None, unsafe.value, []);
        Finish(r, result, now);
        return;
      }
      if !realm.cloneable(state) {
        result := RunResult(name, None, realm.cloneError, []);
        Finish(r, result, now);
        return;
      }
      var veto := registry.Fire(RunStart, StartFields(realm, |runLog|, r, now), now.clock(0));
      assert Fired(veto, StoreOf(registry.AllMaps())) == AtStart(realm, policy, registry.probes, store, box, r, now);
      if Denied(VetoText(veto)) {
        result := RunResult(name, None, Denial(NameText(veto.value)), []);
        Finish(r, result, now);
        return;
      }
      result := RunAdmitted(r, name, now);
    }

    /** `maybeAutoSnapshot`: false if it throws. */
    method MaybeAutoSnapshot(ok: bool, firing: nat, now: Moment) returns (saved: bool)
      requires Valid()
      modifies registry.AllMaps()
      ensures saved == (SnapshotDue(policy, Current(), ok) ==> SnapshotSaves(realm, Current(), now))
      ensures StoreOf(registry.AllMaps())
           == if SnapshotDue(policy, Current(), ok) && saved
              then AtSnapshot(realm, registry.probes, Current(), firing, now, old(StoreOf(registry.AllMaps())))
              else old(StoreOf(registry.AllMaps()))
    {
      hide FireAll, Pack, StoreOf, Matching;
      if !ok || policy.snapshotEveryNRuns <= 0 || |runLog| % policy.snapshotEveryNRuns != 0 {
        return true;
      }
      if !realm.cloneable(state) || !now.saves {
        return false;
      }
      var _ := registry.Fire(Snapshot, [|runLog|, realm.stateBytes(state)], now.clock(firing));
      return true;
    }

    method Run(r: RunRequest<A>, now: Moment) returns (told: Told<V>)
      requires Valid()
      modifies this, registry.AllMaps()
      ensures var seen := AfterRun(realm, policy, registry.probes, old(StoreOf(registry.AllMaps())), old(Current()),
                                   r, now);
              told == seen.told && Current() == seen.box && StoreOf(registry.AllMaps()) == seen.store
    {
      hide FireAll, Pack, StoreOf, Matching, AtStart, AtLogs, AtEnd, AtSnapshot, RunOnce, SnapshotDue, SnapshotSaves;
      var result := RunGuest(r, now);
      var saved := MaybeAutoSnapshot(result.value.Some?, 2 + |result.logs|, now);
      told := if saved then Resolved(result) else Rejected;
    }

    /** State is committed only on success. */
    method Commit(r: RunRequest<A>, name: string, o: Outcome<S, V>) returns (result: RunResult<V>)
      modifies `state
      ensures result == Concluded(old(Current()), r, name, o).0
      ensures state == Concluded(old(Current()), r, name, o).1.state
    {
      if o.value.Some? {
        state := o.state;
        result := RunResult(name, o.value, "", o.logs);
      } else {
        result := RunResult(name, None, o.error, o.logs);
      }
    }

    /** The rest of `run`, for a run that no probe denied. */
    method RunAdmitted(r: RunRequest<A>, name: string, now: Moment) returns (result: RunResult<V>)
      requires Valid()
      modifies this, registry.AllMaps()
      ensures (result, Current())
           == Concluded(old(Current()), r, name,
                        Execute(realm, policy, r.code, name, r.args, r.estimatedMemoryMB, old(state)))
      ensures StoreOf(registry.AllMaps())
           == AtEnd(registry.probes, |old(runLog)|, result, |r.code|, now,
                    AtLogs(registry.probes, |old(runLog)|, result.logs, now, 1, old(StoreOf(registry.AllMaps()))))
    {
      hide FireAll, Pack, StoreOf, Matching, AtEnd, AtLogs, Execute, ProbeRegistry.Valid;
      ghost var all := registry.AllMaps();
      var o := ExecuteGuest(r, name);
      FireLogs(o.logs, now);
      ghost var logged := StoreOf(all);
      result := Commit(r, name, o);
      assert StoreOf(registry.AllMaps()) == logged;
      Finish(r, result, now);
    }

    /** The executor's budget check and retry loop. */
    method ExecuteGuest(r: RunRequest<A>, name: string) returns (o: Outcome<S, V>)
      ensures o == Execute(realm, policy, r.code, name, r.args, r.estimatedMemoryMB, state)
    {
      if r.estimatedMemoryMB > policy.memoryBudgetMB {
        o := Outcome(None, realm.overBudget(name, r.estimatedMemoryMB, policy.memoryBudgetMB), state, []);
      } else {
        o := ExecuteInline(realm.guest(r.code), r.args, state, policy.retryCount);
      }
    }

    /**
     * `replay`: the recorded runs again, from the initial state, in a fresh inline sandbox without probes or snapshots.
     * None: the final state cannot be cloned, and `getState` throws.
     */
    method Replay(moments: nat -> Moment) returns (outcome: Option<(seq<RunResult<V>>, S)>)
      requires Valid()
      ensures Current() == old(Current())
      ensures outcome == Replayed(realm, policy, initialState, runLog)
    {
      hide RunOnce, Normalize, AfterRun;
      var replayBox := new Sandbox(realm, ForReplay(policy), initialState, registry.counter);
      var results: seq<RunResult<V>> := [];
      for i := 0 to |runLog|
        invariant Current() == old(Current())
        invariant fresh(replayBox) && replayBox.realm == realm && replayBox.initialState == initialState
        invariant replayBox.Valid() && replayBox.registry.probes == []
        invariant replayBox.policy == Normalize(ForReplay(policy))
        invariant RunAll(realm, replayBox.policy, Box(initialState, []), Again(runLog[..i]))
               == (results, replayBox.Current())
      {
        var record := runLog[i];
        assert replayBox.registry.AllMaps() == {};
        Unprobed(realm, replayBox.policy, StoreOf({}), replayBox.Current(), AsRequest(record), moments(i));
        NoSnapshots(policy);
        var told := replayBox.Run(AsRequest(record), moments(i));
        assert runLog[..i + 1] == runLog[..i] + [record];
        AgainSnoc(runLog[..i], record);
        RunAllSnoc(realm, replayBox.policy, Box(initialState, []), Again(runLog[..i]), AsRequest(record));
        results := results + [told.result];
      }
      assert runLog[..|runLog|] == runLog;
      if !realm.cloneable(replayBox.state) {
        return None;
      }
      return Some((results, replayBox.state));
    }
  }

  /** The policy replay asks for. */
  function ForReplay(policy: SandboxPolicy): SandboxPolicy {
    policy.(coldStartMs := 0, snapshotEveryNRuns := 0)
  }

  lemma NoSnapshots(policy: SandboxPolicy)
    ensures Normalize(ForReplay(policy)).snapshotEveryNRuns == 0
  {
  }

  function Replayed<S, A, V>(realm: Realm<S, A, V>, policy: SandboxPolicy, initialState: S, log: seq<RunRecord<A>>)
    : Option<(seq<RunResult<V>>, S)>
  {
    var (results, box) := RunAll(realm, Normalize(ForReplay(policy)), Box(initialState, []), Again(log));
    if realm.cloneable(box.state) then Some((results, box.state)) else None
  }

  /** Without probes nothing is denied and no map changes; without a cadence the caller is told the result. */
  lemma Unprobed<S, A, V>(realm: Realm<S, A, V>, policy: SandboxPolicy, store: Store, box: Box<S, A>,
                          r: RunRequest<A>, now: Moment)
    ensures var (result, after) := RunOnce(realm, policy, box, r, None);
            var seen := AfterRun(realm, policy, [], store, box, r, now);
            && seen.result == result && seen.box == after && seen.store == store
            && (policy.snapshotEveryNRuns == 0 ==> seen.told == Resolved(result))
  {
    hide RunOnce, Pack;
    UnprobedLogs(|box.log|, RunOnce(realm, policy, box, r, None).0.logs, now, 1, store);
  }

  lemma {:induction false} UnprobedLogs(index: nat, logs: seq<string>, now: Moment, from: nat, store: Store)
    ensures AtLogs([], index, logs, now, from, store) == store
    decreases |logs|
  {
    if logs != [] {
      UnprobedLogs(index, logs[1..], now, from + 1, store);
    }
  }

  // Replaying the log

  function AsRequest<A>(record: RunRecord<A>): RunRequest<A> {
    RunRequest(record.code, Some(record.name), record.args, record.estimatedMemoryMB)
  }

  /** The log as the requests replay makes of it. */
  function Again<A>(log: seq<RunRecord<A>>): (requests: seq<RunRequest<A>>)
    ensures |requests| == |log|
  {
    if log == [] then [] else [AsRequest(log[0])] + Again(log[1..])
  }

  lemma {:induction false} AgainSnoc<A>(log: seq<RunRecord<A>>, last: RunRecord<A>)
    ensures Again(log + [last]) == Again(log) + [AsRequest(last)]
  {
    if log == [] {
      assert log + [last] == [last];
    } else {
      AgainSnoc(log[1..], last);
      assert (log + [last])[1..] == log[1..] + [last];
    }
  }

  /** Sequential runs without probes. */
  function RunAll<S, A, V>(realm: Realm<S, A, V>, policy: SandboxPolicy, box: Box<S, A>, requests: seq<RunRequest<A>>)
    : (r: (seq<RunResult<V>>, Box<S, A>))
    ensures |r.0| == |requests|
    decreases |requests|
  {
    if requests == [] then ([], box)
    else
      var (result, after) := RunOnce(realm, policy, box, requests[0], None);
      var (results, final) := RunAll(realm, policy, after, requests[1..]);
      ([result] + results, final)
  }

  lemma {:induction false} RunAllSnoc<S, A, V>(realm: Realm<S, A, V>, policy: SandboxPolicy, box: Box<S, A>,
                                              requests: seq<RunRequest<A>>, last: RunRequest<A>)
    ensures var (results, mid) := RunAll(realm, policy, box, requests);
            var (result, final) := RunOnce(realm, policy, mid, last, None);
            RunAll(realm, policy, box, requests + [last]) == (results + [result], final)
    decreases |requests|
  {
    hide RunOnce;
    if requests == [] {
      var (result, final) := RunOnce(realm, policy, box, last, None);
      assert (requests + [last])[0] == last && (requests + [last])[1..] == [];
      assert RunAll(realm, policy, final, []) == ([], final);
      assert [result] + [] == [] + [result];
    } else {
      var (result, after) := RunOnce(realm, policy, box, requests[0], None);
      RunAllSnoc(realm, policy, after, requests[1..], last);
      assert (requests + [last])[0] == requests[0] && (requests + [last])[1..] == requests[1..] + [last];
      var (results, mid) := RunAll(realm, policy, after, requests[1..]);
      var r := RunOnce(realm, policy, mid, last, None).0;
      assert [result] + (results + [r]) == ([result] + results) + [r];
    }
  }
}
