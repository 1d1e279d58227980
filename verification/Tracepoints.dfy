/**
 * The context struct of each tracepoint, as programs see it: which runs a gate at run:start refuses, by every field,
 * and what keyed counters at run:end, log and snapshot come to hold, over single runs and over histories.
 */
module Tracepoints {
  import opened Words
  import opened Codec
  import opened Policy
  import opened Maps
  import opened ProgramRuns
  import opened Probes
  import opened Retries
  import opened Sandboxing
  import opened Replays
  import opened Readers
  import opened Firing
  import Metering
  import SmallPrograms

  // run:start

  /** `runIndex`, `codeLength`, `estimatedMemoryMB`, `hasArgs`, `timestampMs` */
  predicate StartShows<S, A, V>(realm: Realm<S, A, V>, box: Box<S, A>, a: Asked<A>, k: nat, value: int) {
    match k
    case 0 => value == |box.log|
    case 1 => value == |a.request.code|
    case 2 => value == a.request.estimatedMemoryMB
    case 3 => value == if realm.given(a.request.args) then 1 else 0
    case 4 => value == a.now.startedAt
    case _ => false
  }

  /**
   * A gate on a field of run:start, as the only probe there: of the runs that start it refuses those whose field
   * exceeds its limit. A refused run leaves the state, is told of the probe, and is logged as failed; any other one
   * comes out as its guest does.
   */
  lemma GateRefusesExactly<S, A, V>(realm: Realm<S, A, V>, policy: SandboxPolicy, store: Store, box: Box<S, A>,
                                    a: Asked<A>, i: nat, k: nat, value: int, limit: nat)
    requires HeldIn(store.Keys, a.probes) && OnlyAt(a.probes, RunStart, i) && Starts(realm, policy, box, a.request)
    requires limit < 0x8000_0000 && k < 5 && StartShows(realm, box, a, k, value)
    requires var p := a.probes[i];
             p.vm.insns == Gate(k, limit) && p.vm.maxInstructions >= 5 && NameText(p.name) != ""
    ensures var seen := AfterRun(realm, policy, a.probes, store, box, a.request, a.now);
            if value % TWO64 > limit then RefusedBy(a.probes[i].name, box, seen)
            else RunsAs(Guest(realm, policy, box, a.request), box, seen)
  {
    hide Pack, FireAll, Matching, Execute, NameText, AtLogs, AtEnd, AtSnapshot;
    var fields := StartFields(realm, |box.log|, a.request, a.now);
    GateFires(a.probes, RunStart, fields, a.now.clock(0), store, i, k, limit);
    assert fields[k] == value;
  }

  ghost predicate RefusedBy<S, A, V>(name: Name, box: Box<S, A>, seen: Seen<S, A, V>) {
    && seen.result.value.None? && seen.result.logs == []
    && seen.result.error == "Run denied by probe \"" + NameText(name) + "\"."
    && seen.box.state == box.state
    && |seen.box.log| == |box.log| + 1 && !seen.box.log[|box.log|].ok
  }

  ghost predicate RunsAs<S, A, V>(o: Outcome<S, V>, box: Box<S, A>, seen: Seen<S, A, V>) {
    && seen.result.value == o.value && seen.result.logs == o.logs && (o.value.None? ==> seen.result.error == o.error)
    && seen.box.state == (if o.value.Some? then o.state else box.state)
    && |seen.box.log| == |box.log| + 1 && (seen.box.log[|box.log|].ok <==> o.value.Some?)
  }

  /** A program that reads beyond the context, as the only probe there: it refuses exactly when it fails closed. */
  lemma CrashRefusesExactly<S, A, V>(realm: Realm<S, A, V>, policy: SandboxPolicy, store: Store, box: Box<S, A>,
                                     a: Asked<A>, i: nat, off: i16)
    requires HeldIn(store.Keys, a.probes) && OnlyAt(a.probes, RunStart, i) && Starts(realm, policy, box, a.request)
    requires off > 32
    requires var p := a.probes[i];
             p.vm.insns == SmallPrograms.WordAt(1, off) && p.vm.maxInstructions >= 2 && NameText(p.name) != ""
    ensures var seen := AfterRun(realm, policy, a.probes, store, box, a.request, a.now);
            if a.probes[i].failClosed then RefusedBy(a.probes[i].name, box, seen)
            else RunsAs(Guest(realm, policy, box, a.request), box, seen)
  {
    hide Pack, FireAll, Matching, Execute, NameText, AtLogs, AtEnd, AtSnapshot;
    var ctx := Pack(StartFields(realm, |box.log|, a.request, a.now));
    CrashFires(a.probes, RunStart, ctx, a.now.clock(0), store, i, off);
  }

  // Keyed counters at the other tracepoints

  /** Attached probe i counts in map m by field k, no other probe at its tracepoint. */
  ghost predicate CountsBy(ps: seq<Probe>, t: Tracepoint, i: nat, k: nat, fd: nat, m: EbpfMap) {
    && OnlyAt(ps, t, i) && k <= 15 && fd < 0x8000_0000
    && ps[i].vm.insns == Keyed(k, fd) && ps[i].vm.maxInstructions >= 6 && fd < |ps[i].maps| && ps[i].maps[fd] == m
  }

  /** `runIndex`, `ok`, `durationUs`, `logCount`, `codeLength` */
  predicate EndShows<V>(index: nat, result: RunResult<V>, codeLength: nat, now: Moment, k: nat, value: int) {
    match k
    case 0 => value == index
    case 1 => value == if result.value.Some? then 1 else 0
    case 2 => value == now.durationUs
    case 3 => value == |result.logs|
    case 4 => value == codeLength
    case _ => false
  }

  lemma EndCounts<V>(ps: seq<Probe>, index: nat, result: RunResult<V>, codeLength: nat, now: Moment, store: Store,
                     i: nat, k: nat, fd: nat, m: EbpfMap, value: int)
    requires HeldIn(store.Keys, ps) && CountsBy(ps, RunEnd, i, k, fd, m)
    requires EndShows(index, result, codeLength, now, k, value)
    ensures m in store
    ensures AtEnd(ps, index, result, codeLength, now, store) == store[m := Plus(store[m], value % TWO64, 1)]
  {
    hide Pack, FireAll, Matching, Plus;
    var fields := EndFields(index, result, codeLength, now);
    KeyedFires(ps, RunEnd, fields, now.clock(1 + |result.logs|), store, i, k, fd);
    assert fields[k] == value;
  }

  /** `runIndex`, `messageLength` */
  function MessageKeys(index: nat, logs: seq<string>, k: nat): seq<u64> {
    if logs == [] then [] else [(if k == 0 then index else |logs[0]|) % TWO64] + MessageKeys(index, logs[1..], k)
  }

  lemma {:induction false} LogsCount(ps: seq<Probe>, index: nat, logs: seq<string>, now: Moment, from: nat,
                                     store: Store, i: nat, k: nat, fd: nat, m: EbpfMap)
    requires HeldIn(store.Keys, ps) && CountsBy(ps, Log, i, k, fd, m) && k < 2
    ensures m in store
    ensures AtLogs(ps, index, logs, now, from, store) == store[m := Tally(store[m], MessageKeys(index, logs, k))]
    decreases |logs|
  {
    hide Pack, FireAll, Matching, Plus;
    assert ps[i].maps[fd] in ps[i].maps;
    if logs == [] {
      assert store == store[m := store[m]];
    } else {
      var fields := [index, |logs[0]|];
      KeyedFires(ps, Log, fields, now.clock(from), store, i, k, fd);
      var next := store[m := Plus(store[m], U64(fields[k]), 1)];
      LogsCount(ps, index, logs[1..], now, from + 1, next, i, k, fd, m);
    }
  }

  /** `runCount`, `stateBytes` */
  lemma SnapshotCounts<S, A, V>(realm: Realm<S, A, V>, ps: seq<Probe>, box: Box<S, A>, firing: nat, now: Moment,
                                store: Store, i: nat, k: nat, fd: nat, m: EbpfMap)
    requires HeldIn(store.Keys, ps) && CountsBy(ps, Snapshot, i, k, fd, m) && k < 2
    ensures m in store
    ensures AtSnapshot(realm, ps, box, firing, now, store)
         == store[m := Plus(store[m], (if k == 0 then |box.log| else realm.stateBytes(box.state)) % TWO64, 1)]
  {
    hide Pack, FireAll, Matching, Plus;
    var fields := [|box.log|, realm.stateBytes(box.state)];
    KeyedFires(ps, Snapshot, fields, now.clock(firing), store, i, k, fd);
  }

  // Over whole runs

  /** No probe at the tracepoint is given the map. */
  ghost predicate SparesAt(ps: seq<Probe>, t: Tracepoint, m: EbpfMap) {
    Unused(Matching(ps, t), m)
  }

  lemma StartKeeps<S, A, V>(realm: Realm<S, A, V>, policy: SandboxPolicy, ps: seq<Probe>, store: Store, box: Box<S, A>,
                            r: RunRequest<A>, now: Moment, m: EbpfMap)
    requires HeldIn(store.Keys, ps) && SparesAt(ps, RunStart, m) && m in store
    ensures AtStart(realm, policy, ps, store, box, r, now).store[m] == store[m]
  {
    hide Pack, FireAll, HeldIn, Starts;
    Metering.HeldMatching(store.Keys, ps, RunStart);
    var ctx := Pack(StartFields(realm, |box.log|, r, now));
    FireFrame(Matching(ps, RunStart), ctx, now.clock(0), 0, store, m);
  }

  /** What a run leaves in a map that one keyed counter has, at run:end. */
  lemma RunCountsEnd<S, A, V>(realm: Realm<S, A, V>, policy: SandboxPolicy, store: Store, box: Box<S, A>, a: Asked<A>,
                              i: nat, k: nat, fd: nat, m: EbpfMap, value: int)
    requires HeldIn(store.Keys, a.probes) && m in store && CountsBy(a.probes, RunEnd, i, k, fd, m)
    requires SparesAt(a.probes, RunStart, m) && SparesAt(a.probes, Log, m) && SparesAt(a.probes, Snapshot, m)
    requires var seen := AfterRun(realm, policy, a.probes, store, box, a.request, a.now);
             EndShows(|box.log|, seen.result, |a.request.code|, a.now, k, value)
    ensures AfterRun(realm, policy, a.probes, store, box, a.request, a.now).store[m]
         == Plus(store[m], value % TWO64, 1)
  {
    hide AtStart, AtLogs, AtEnd, AtSnapshot, RunOnce, Plus, HeldIn, SnapshotDue, SnapshotSaves, Unused, Matching;
    var ps, r, now := a.probes, a.request, a.now;
    StartKeeps(realm, policy, ps, store, box, r, now, m);
    var start := AtStart(realm, policy, ps, store, box, r, now);
    var (result, after) := RunOnce(realm, policy, box, r, VetoText(start.veto));
    Metering.LogsKeep(ps, |box.log|, result.logs, now, 1, start.store, m);
    var logged := AtLogs(ps, |box.log|, result.logs, now, 1, start.store);
    EndCounts(ps, |box.log|, result, |r.code|, now, logged, i, k, fd, m, value);
    var ended := AtEnd(ps, |box.log|, result, |r.code|, now, logged);
    Metering.SnapshotKeeps(realm, ps, after, 2 + |result.logs|, now, ended, m);
  }

  /** At log: one per message, in order. */
  lemma RunCountsMessages<S, A, V>(realm: Realm<S, A, V>, policy: SandboxPolicy, store: Store, box: Box<S, A>,
                                   a: Asked<A>, i: nat, k: nat, fd: nat, m: EbpfMap)
    requires HeldIn(store.Keys, a.probes) && m in store && CountsBy(a.probes, Log, i, k, fd, m) && k < 2
    requires SparesAt(a.probes, RunStart, m) && SparesAt(a.probes, RunEnd, m) && SparesAt(a.probes, Snapshot, m)
    ensures var seen := AfterRun(realm, policy, a.probes, store, box, a.request, a.now);
            seen.store[m] == Tally(store[m], MessageKeys(|box.log|, seen.result.logs, k))
  {
    hide AtStart, AtLogs, AtEnd, AtSnapshot, RunOnce, Tally, HeldIn, SnapshotDue, SnapshotSaves, Unused, Matching;
    var ps, r, now := a.probes, a.request, a.now;
    StartKeeps(realm, policy, ps, store, box, r, now, m);
    var start := AtStart(realm, policy, ps, store, box, r, now);
    var (result, after) := RunOnce(realm, policy, box, r, VetoText(start.veto));
    LogsCount(ps, |box.log|, result.logs, now, 1, start.store, i, k, fd, m);
    var logged := AtLogs(ps, |box.log|, result.logs, now, 1, start.store);
    Metering.EndKeeps(ps, |box.log|, result, |r.code|, now, logged, m);
    var ended := AtEnd(ps, |box.log|, result, |r.code|, now, logged);
    Metering.SnapshotKeeps(realm, ps, after, 2 + |result.logs|, now, ended, m);
  }

  /**
   * At snapshot: one, if the run succeeded as one of every `snapshotEveryNRuns` logged ones and its state could be
   * cloned and saved, else none.
   */
  lemma RunCountsSnapshot<S, A, V>(realm: Realm<S, A, V>, policy: SandboxPolicy, store: Store, box: Box<S, A>,
                                   a: Asked<A>, i: nat, k: nat, fd: nat, m: EbpfMap)
    requires HeldIn(store.Keys, a.probes) && m in store && CountsBy(a.probes, Snapshot, i, k, fd, m) && k < 2
    requires SparesAt(a.probes, RunStart, m) && SparesAt(a.probes, Log, m) && SparesAt(a.probes, RunEnd, m)
    ensures var seen := AfterRun(realm, policy, a.probes, store, box, a.request, a.now);
            var runs, every := |box.log| + 1, policy.snapshotEveryNRuns;
            seen.store[m]
            == if && seen.result.value.Some? && every > 0 && runs % every == 0
                  && realm.cloneable(seen.box.state) && a.now.saves
               then Plus(store[m], (if k == 0 then runs else realm.stateBytes(seen.box.state)) % TWO64, 1)
               else store[m]
  {
    hide AtStart, AtLogs, AtEnd, AtSnapshot, Execute, Plus, HeldIn, Unused, Matching, Denial;
    var ps, r, now := a.probes, a.request, a.now;
    StartKeeps(realm, policy, ps, store, box, r, now, m);
    var start := AtStart(realm, policy, ps, store, box, r, now);
    var (result, after) := RunOnce(realm, policy, box, r, VetoText(start.veto));
    Metering.LogsKeep(ps, |box.log|, result.logs, now, 1, start.store, m);
    var logged := AtLogs(ps, |box.log|, result.logs, now, 1, start.store);
    Metering.EndKeeps(ps, |box.log|, result, |r.code|, now, logged, m);
    var ended := AtEnd(ps, |box.log|, result, |r.code|, now, logged);
    SnapshotCounts(realm, ps, after, 2 + |result.logs|, now, ended, i, k, fd, m);
  }

  // The order of a run's firings, as counters see it that share a map with room for one key

  lemma FullKeepsKeys(m: MapState, key: u64)
    requires |m.entries| >= m.maxEntries
    ensures Plus(m, key, 1).entries.Keys == m.entries.Keys && Plus(m, key, 1).maxEntries == m.maxEntries
  {
  }

  lemma {:induction false} FullTallyKeepsKeys(m: MapState, history: seq<u64>)
    requires |m.entries| >= m.maxEntries
    ensures var t := Tally(m, history);
            t.entries.Keys == m.entries.Keys && t.maxEntries == m.maxEntries && |t.entries| == |m.entries|
    decreases |history|
  {
    hide Plus;
    if history != [] {
      FullKeepsKeys(m, history[0]);
      SameSize(Plus(m, history[0], 1).entries, m.entries);
      FullTallyKeepsKeys(Plus(m, history[0], 1), history[1..]);
    }
  }

  lemma SameSize(a: map<u64, u64>, b: map<u64, u64>)
    requires a.Keys == b.Keys
    ensures |a| == |b|
  {
    assert |a| == |a.Keys| && |b| == |b.Keys|;
  }

  /** The first key to come is the one that stays. */
  predicate HoldsOnly(m: MapState, key: u64) {
    m.entries.Keys == {key} && |m.entries| == 1 && m.maxEntries == 1
  }

  lemma FirstStays(m: MapState, key: u64, history: seq<u64>)
    requires m == MapState(map[], 1)
    ensures HoldsOnly(Tally(Plus(m, key, 1), history), key)
  {
    var one := Plus(m, key, 1);
    assert one.entries == map[key := 1];
    FullTallyKeepsKeys(one, history);
  }

  lemma StaysOnPlus(m: MapState, key: u64, other: u64)
    requires HoldsOnly(m, key)
    ensures HoldsOnly(Plus(m, other, 1), key)
  {
    FullKeepsKeys(m, other);
    SameSize(Plus(m, other, 1).entries, m.entries);
  }

  /** Counters by message length at log, by `ok` at run:end and by state size at snapshot, all on map m. */
  ghost predicate Racing(ps: seq<Probe>, m: EbpfMap) {
    && (exists i: nat, fd: nat :: CountsBy(ps, Log, i, 1, fd, m))
    && (exists i: nat, fd: nat :: CountsBy(ps, RunEnd, i, 1, fd, m))
    && (exists i: nat, fd: nat :: CountsBy(ps, Snapshot, i, 1, fd, m))
  }

  /** The firings from the messages on leave a map that is full with its key. */
  lemma RestKeeps<S, A, V>(realm: Realm<S, A, V>, ps: seq<Probe>, m: EbpfMap, result: RunResult<V>, box: Box<S, A>,
                           after: Box<S, A>, codeLength: nat, now: Moment, logged: Store, key: u64)
    requires HeldIn(logged.Keys, ps) && Racing(ps, m) && m in logged && HoldsOnly(logged[m], key)
    ensures var ended := AtEnd(ps, |box.log|, result, codeLength, now, logged);
            HoldsOnly(ended[m], key) && HoldsOnly(AtSnapshot(realm, ps, after, 2 + |result.logs|, now, ended)[m], key)
  {
    hide AtEnd, AtSnapshot, Plus, CountsBy, HoldsOnly;
    var i: nat, fd: nat :| CountsBy(ps, RunEnd, i, 1, fd, m);
    var ok := if result.value.Some? then 1 else 0;
    EndCounts(ps, |box.log|, result, codeLength, now, logged, i, 1, fd, m, ok);
    StaysOnPlus(logged[m], key, ok % TWO64);
    var ended := AtEnd(ps, |box.log|, result, codeLength, now, logged);
    var j: nat, fe: nat :| CountsBy(ps, Snapshot, j, 1, fe, m);
    SnapshotCounts(realm, ps, after, 2 + |result.logs|, now, ended, j, 1, fe, m);
    StaysOnPlus(ended[m], key, realm.stateBytes(after.state) % TWO64);
  }

  /**
   * Messages are fired before the end, in order, and the end before a snapshot: of three counters on a map with room
   * for one key, the first message's has it, or if there is none, that of the end.
   */
  lemma FiringsInOrder<S, A, V>(realm: Realm<S, A, V>, policy: SandboxPolicy, store: Store, box: Box<S, A>,
                                a: Asked<A>, m: EbpfMap)
    requires HeldIn(store.Keys, a.probes) && m in store && store[m] == MapState(map[], 1)
    requires Racing(a.probes, m) && SparesAt(a.probes, RunStart, m)
    ensures var seen := AfterRun(realm, policy, a.probes, store, box, a.request, a.now);
            HoldsOnly(seen.store[m], if seen.result.logs != [] then |seen.result.logs[0]| % TWO64
                                  else if seen.result.value.Some? then 1 else 0)
  {
    hide AtStart, AtLogs, AtEnd, AtSnapshot, RunOnce, Plus, SnapshotDue, SnapshotSaves, CountsBy, HoldsOnly, SparesAt;
    var ps, r, now := a.probes, a.request, a.now;
    StartKeeps(realm, policy, ps, store, box, r, now, m);
    var start := AtStart(realm, policy, ps, store, box, r, now);
    var (result, after) := RunOnce(realm, policy, box, r, VetoText(start.veto));
    var i: nat, fd: nat :| CountsBy(ps, Log, i, 1, fd, m);
    LogsCount(ps, |box.log|, result.logs, now, 1, start.store, i, 1, fd, m);
    var logged := AtLogs(ps, |box.log|, result.logs, now, 1, start.store);
    if result.logs != [] {
      var first := |result.logs[0]| % TWO64;
      FirstStays(store[m], first, MessageKeys(|box.log|, result.logs[1..], 1));
      FirstMessage(|box.log|, result.logs);
      RestKeeps(realm, ps, m, result, box, after, |r.code|, now, logged, first);
    } else {
      var ok := if result.value.Some? then 1 else 0;
      var j: nat, fe: nat :| CountsBy(ps, RunEnd, j, 1, fe, m);
      EndCounts(ps, |box.log|, result, |r.code|, now, logged, j, 1, fe, m, ok);
      FirstStays(store[m], ok, []);
      var ended := AtEnd(ps, |box.log|, result, |r.code|, now, logged);
      var l: nat, fs: nat :| CountsBy(ps, Snapshot, l, 1, fs, m);
      SnapshotCounts(realm, ps, after, 2 + |result.logs|, now, ended, l, 1, fs, m);
      StaysOnPlus(ended[m], ok, realm.stateBytes(after.state) % TWO64);
    }
  }

  /** And run:start is fired before any of them: a counter by code length there takes the room of a run that starts. */
  lemma StartComesFirst<S, A, V>(realm: Realm<S, A, V>, policy: SandboxPolicy, store: Store, box: Box<S, A>,
                                 a: Asked<A>, m: EbpfMap, h: nat, fh: nat)
    requires HeldIn(store.Keys, a.probes) && m in store && store[m] == MapState(map[], 1)
    requires Racing(a.probes, m) && CountsBy(a.probes, RunStart, h, 1, fh, m) && Starts(realm, policy, box, a.request)
    ensures HoldsOnly(AfterRun(realm, policy, a.probes, store, box, a.request, a.now).store[m],
                      |a.request.code| % TWO64)
  {
    hide AtLogs, AtEnd, AtSnapshot, RunOnce, Plus, SnapshotDue, SnapshotSaves, HoldsOnly, FireAll, Pack, Matching,
         Tally;
    var ps, r, now := a.probes, a.request, a.now;
    KeyedFires(ps, RunStart, StartFields(realm, |box.log|, r, now), now.clock(0), store, h, 1, fh);
    var start := AtStart(realm, policy, ps, store, box, r, now);
    var key := |r.code| % TWO64;
    assert start.store[m] == Plus(store[m], key, 1);
    var (result, after) := RunOnce(realm, policy, box, r, VetoText(start.veto));
    var i: nat, fd: nat :| CountsBy(ps, Log, i, 1, fd, m);
    LogsCount(ps, |box.log|, result.logs, now, 1, start.store, i, 1, fd, m);
    var logged := AtLogs(ps, |box.log|, result.logs, now, 1, start.store);
    FirstStays(store[m], key, MessageKeys(|box.log|, result.logs, 1));
    RestKeeps(realm, ps, m, result, box, after, |r.code|, now, logged, key);
  }

  lemma FirstMessage(index: nat, logs: seq<string>)
    requires logs != []
    ensures var keys := MessageKeys(index, logs, 1);
            keys != [] && keys[0] == |logs[0]| % TWO64 && keys[1..] == MessageKeys(index, logs[1..], 1)
  {
  }

  // Over histories

  /** The counter of outcomes: keyed by `ok`, at run:end, on a map of its own. */
  ghost predicate Buckets(ps: seq<Probe>, m: EbpfMap) {
    && (exists i: nat, fd: nat :: CountsBy(ps, RunEnd, i, 1, fd, m))
    && SparesAt(ps, RunStart, m) && SparesAt(ps, Log, m) && SparesAt(ps, Snapshot, m)
  }

  function OkKeys<V>(results: seq<RunResult<V>>): seq<u64> {
    if results == [] then [] else [if results[0].value.Some? then 1 else 0] + OkKeys(results[1..])
  }

  /** How many of the results are ok, or are not. */
  function Outcomes<V>(results: seq<RunResult<V>>, ok: bool): nat {
    if results == [] then 0 else (if results[0].value.Some? == ok then 1 else 0) + Outcomes(results[1..], ok)
  }

  lemma {:induction false} OutcomesTallied<S, A, V>(realm: Realm<S, A, V>, policy: SandboxPolicy, store: Store,
                                                    box: Box<S, A>, asked: seq<Asked<A>>, m: EbpfMap)
    requires Known(asked, store.Keys) && m in store && forall j :: 0 <= j < |asked| ==> Buckets(asked[j].probes, m)
    ensures var h := AfterRuns(realm, policy, store, box, asked);
            h.store[m] == Tally(store[m], OkKeys(h.results))
    decreases |asked|
  {
    hide AfterRun, Plus, CountsBy, SparesAt, HeldIn;
    if asked != [] {
      var a, first := asked[0], AfterFirst(realm, policy, store, box, asked);
      var i: nat, fd: nat :| CountsBy(a.probes, RunEnd, i, 1, fd, m);
      RunCountsEnd(realm, policy, store, box, a, i, 1, fd, m, if first.result.value.Some? then 1 else 0);
      OutcomesTallied(realm, policy, first.store, first.box, asked[1..], m);
      var rest := AfterRuns(realm, policy, first.store, first.box, asked[1..]).results;
      assert ([first.result] + rest)[1..] == rest;
    }
  }

  lemma {:induction false} CountsOutcomes<V>(results: seq<RunResult<V>>)
    ensures Count(OkKeys(results), 1) == Outcomes(results, true)
    ensures Count(OkKeys(results), 0) == Outcomes(results, false)
  {
    if results != [] {
      CountsOutcomes(results[1..]);
      var rest := OkKeys(results[1..]);
      assert OkKeys(results)[1..] == rest;
    }
  }

  lemma {:induction false} OkKeysAreTwo<V>(results: seq<RunResult<V>>)
    ensures forall k :: k in OkKeys(results) ==> k in {0, 1}
  {
    if results != [] {
      OkKeysAreTwo(results[1..]);
    }
  }

  /** A map with room for more than two keys never turns one of two away. */
  lemma {:induction false} TwoKeysFit(m: MapState, history: seq<u64>)
    requires m.maxEntries == 1024 && m.entries.Keys <= {0, 1} && forall k :: k in history ==> k in {0, 1}
    ensures var t := Tally(m, history);
            t.maxEntries == 1024 && t.entries.Keys <= {0, 1}
    decreases |history|
  {
    if history != [] {
      assert history[0] in history;
      assert forall k :: k in history[1..] ==> k in history;
      TwoKeysFit(Plus(m, history[0], 1), history[1..]);
    }
  }

  lemma {:induction false} NotCounted(history: seq<u64>, key: u64)
    requires key !in history
    ensures Count(history, key) == 0
  {
    if history != [] {
      NotCounted(history[1..], key);
    }
  }

  lemma TwoKeysTallied(m: MapState, history: seq<u64>, key: u64)
    requires m == MapState(map[], 1024) && key in {0, 1} && forall k :: k in history ==> k in {0, 1}
    ensures GetOr0(Tally(m, history), key) == Count(history, key) % TWO64
  {
    hide Tally, Count;
    var t := Tally(m, history);
    TallyCounts(m, history, key);
    TwoKeysFit(m, history);
    Smaller(t.entries.Keys);
    if key !in history {
      NotCounted(history, key);
    }
  }

  lemma Smaller(keys: set<u64>)
    requires keys <= {0, 1}
    ensures |keys| <= 2
  {
    assert keys == keys * {0} + keys * {1};
    assert keys * {0} == {0} || keys * {0} == {};
    assert keys * {1} == {1} || keys * {1} == {};
  }

  /** Over any history a fresh map holds the successful runs at 1 and the failed ones at 0, modulo 2^64. */
  lemma OutcomesCounted<S, A, V>(realm: Realm<S, A, V>, policy: SandboxPolicy, store: Store, box: Box<S, A>,
                                 asked: seq<Asked<A>>, m: EbpfMap)
    requires Known(asked, store.Keys) && m in store && store[m] == MapState(map[], 1024)
    requires forall j :: 0 <= j < |asked| ==> Buckets(asked[j].probes, m)
    ensures var h := AfterRuns(realm, policy, store, box, asked);
            && GetOr0(h.store[m], 1) == Outcomes(h.results, true) % TWO64
            && GetOr0(h.store[m], 0) == Outcomes(h.results, false) % TWO64
  {
    hide AfterRuns, Tally, Buckets;
    var h := AfterRuns(realm, policy, store, box, asked);
    OutcomesTallied(realm, policy, store, box, asked, m);
    CountsOutcomes(h.results);
    OkKeysAreTwo(h.results);
    TwoKeysTallied(store[m], OkKeys(h.results), 1);
    TwoKeysTallied(store[m], OkKeys(h.results), 0);
  }
}
