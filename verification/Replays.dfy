/**
 * Replay over histories of sequential runs, each under the probes attached at its time: when it reproduces them, and
 * when a probe's veto or a failed snapshot comes between.
 */
module Replays {
  import opened Options
  import opened Policy
  import opened Retries
  import opened Maps
  import opened ProgramRuns
  import opened Probes
  import opened Sandboxing

  datatype Asked<!A> = Asked(request: RunRequest<A>, probes: seq<Probe>, now: Moment)

  /** Every probe's maps are among those of the store. */
  ghost predicate Known<A>(asked: seq<Asked<A>>, maps: set<EbpfMap>) {
    forall i :: 0 <= i < |asked| ==> HeldIn(maps, asked[i].probes)
  }

  datatype History<!S, !A, !V> = History(results: seq<RunResult<V>>, told: seq<Told<V>>, box: Box<S, A>, store: Store)

  ghost function AfterRuns<S, A, V>(realm: Realm<S, A, V>, policy: SandboxPolicy, store: Store, box: Box<S, A>,
                                    asked: seq<Asked<A>>): (h: History<S, A, V>)
    requires Known(asked, store.Keys)
    ensures h.store.Keys == store.Keys && |h.results| == |h.told| == |asked|
    decreases |asked|
  {
    if asked == [] then History([], [], box, store)
    else
      var first := AfterFirst(realm, policy, store, box, asked);
      var rest := AfterRuns(realm, policy, first.store, first.box, asked[1..]);
      History([first.result] + rest.results, [first.told] + rest.told, rest.box, rest.store)
  }

  ghost function AfterFirst<S, A, V>(realm: Realm<S, A, V>, policy: SandboxPolicy, store: Store, box: Box<S, A>,
                                     asked: seq<Asked<A>>): (seen: Seen<S, A, V>)
    requires asked != [] && Known(asked, store.Keys)
    ensures seen.store.Keys == store.Keys
  {
    AfterRun(realm, policy, asked[0].probes, store, box, asked[0].request, asked[0].now)
  }

  // The verdict of the run:start probes

  /** The first probe of those at run:start that vetoes this run. */
  ghost function Vetoing<S, A, V>(realm: Realm<S, A, V>, store: Store, box: Box<S, A>, a: Asked<A>): (v: Option<nat>)
    requires HeldIn(store.Keys, a.probes)
    ensures v.Some? ==> v.value < |Matching(a.probes, RunStart)|
  {
    var ctx := Pack(StartFields(realm, |box.log|, a.request, a.now));
    FirstVeto(Matching(a.probes, RunStart), ctx, a.now.clock(0), 0, store)
  }

  ghost function VetoOf<S, A, V>(realm: Realm<S, A, V>, policy: SandboxPolicy, store: Store, box: Box<S, A>,
                                 a: Asked<A>)
    : Option<string>
    requires HeldIn(store.Keys, a.probes)
  {
    VetoText(AtStart(realm, policy, a.probes, store, box, a.request, a.now).veto)
  }

  /** A probe refuses the run: it starts, and the veto counts. */
  ghost predicate Refused<S, A, V>(realm: Realm<S, A, V>, policy: SandboxPolicy, store: Store, box: Box<S, A>,
                                   a: Asked<A>)
    requires HeldIn(store.Keys, a.probes)
  {
    Starts(realm, policy, box, a.request) && Denied(VetoOf(realm, policy, store, box, a))
  }

  function Guest<S, A, V>(realm: Realm<S, A, V>, policy: SandboxPolicy, box: Box<S, A>, r: RunRequest<A>)
    : Outcome<S, V>
  {
    Execute(realm, policy, r.code, NameOf(realm, policy, box, r), r.args, r.estimatedMemoryMB, box.state)
  }

  /**
   * Admission control, exactly: of the runs that start, those are refused whose first vetoing probe has a name that is
   * not empty; any other run comes out as its guest does, a veto under the empty name notwithstanding.
   */
  lemma RefusedExactly<S, A, V>(realm: Realm<S, A, V>, policy: SandboxPolicy, store: Store, box: Box<S, A>, a: Asked<A>)
    requires HeldIn(store.Keys, a.probes) && Starts(realm, policy, box, a.request)
    ensures var v := Vetoing(realm, store, box, a);
            var name := if v.Some? then NameText(Matching(a.probes, RunStart)[v.value].name) else "";
            var seen := AfterRun(realm, policy, a.probes, store, box, a.request, a.now);
            && (Refused(realm, policy, store, box, a) <==> v.Some? && name != "")
            && (seen.result, seen.box)
               == if Refused(realm, policy, store, box, a)
                  then Failing(box, a.request, NameOf(realm, policy, box, a.request), Denial(name))
                  else Concluded(box, a.request, NameOf(realm, policy, box, a.request),
                                 Guest(realm, policy, box, a.request))
  {
    hide Pack, FireAll, FirstVeto, NameText, Execute, Concluded, Failing;
    var ctx := Pack(StartFields(realm, |box.log|, a.request, a.now));
    FireNamesFirstVeto(Matching(a.probes, RunStart), ctx, a.now.clock(0), 0, store);
  }

  /**
   * So a probe at run:start that returns 1 every time refuses every run that starts, unless it was attached under the
   * empty name: then every run goes ahead.
   */
  lemma EmptyNameRefusesNothing<S, A, V>(realm: Realm<S, A, V>, policy: SandboxPolicy, store: Store, box: Box<S, A>,
                                         a: Asked<A>)
    requires HeldIn(store.Keys, a.probes) && Starts(realm, policy, box, a.request)
    requires var starting := Matching(a.probes, RunStart);
             starting != [] && starting[0].vm.insns == REFUSER && starting[0].vm.maxInstructions >= 2
    ensures Vetoing(realm, store, box, a) == Some(0)
    ensures Refused(realm, policy, store, box, a) <==> Matching(a.probes, RunStart)[0].name != Given("")
  {
    hide Pack, FireAll, FirstVeto, Starts;
    var starting := Matching(a.probes, RunStart);
    RefuserVetoes(starting, Pack(StartFields(realm, |box.log|, a.request, a.now)), a.now.clock(0), store);
    RefusedExactly(realm, policy, store, box, a);
  }

  // Replay

  /** The guest would itself have failed, with the words of the denial and nothing logged. */
  predicate Echoes<V, S>(o: Outcome<S, V>, veto: string) {
    o.value.None? && o.error == Denial(veto) && o.logs == []
  }

  /**
   * One run and its replay, which knows no probes: the same result, and with it the same state, unless a probe refused
   * the run and the guest does not echo the refusal.
   */
  lemma OneRunReplays<S, A, V>(realm: Realm<S, A, V>, p: SandboxPolicy, q: SandboxPolicy, box: Box<S, A>,
                               again: Box<S, A>,
                               r: RunRequest<A>, veto: Option<string>)
    requires SameGovernance(p, q) && box.state == again.state
    ensures var (result, after) := RunOnce(realm, p, box, r, veto);
            && |after.log| == |box.log| + 1 && after.log[..|box.log|] == box.log
            && var (result', after') := RunOnce(realm, q, again, AsRequest(after.log[|box.log|]), None);
               && (result' == result ==> after'.state == after.state)
               && (result' == result
                   <==> (Starts(realm, p, box, r) && Denied(veto) ==> Echoes(Guest(realm, p, box, r), veto.value)))
  {
  }

  /** At every refused run of the history the guest echoes the refusal. */
  ghost predicate RefusalsEchoed<S, A, V>(realm: Realm<S, A, V>, policy: SandboxPolicy, store: Store, box: Box<S, A>,
                                          asked: seq<Asked<A>>)
    requires Known(asked, store.Keys)
    decreases |asked|
  {
    asked == [] ||
    (var first := AfterFirst(realm, policy, store, box, asked);
     && (Refused(realm, policy, store, box, asked[0]) ==>
           Echoes(Guest(realm, policy, box, asked[0].request), VetoOf(realm, policy, store, box, asked[0]).value))
     && RefusalsEchoed(realm, policy, first.store, first.box, asked[1..]))
  }

  lemma FirstReplays<S, A, V>(realm: Realm<S, A, V>, p: SandboxPolicy, q: SandboxPolicy, store: Store, box: Box<S, A>,
                              again: Box<S, A>, asked: seq<Asked<A>>)
    requires SameGovernance(p, q) && box.state == again.state && asked != [] && Known(asked, store.Keys)
    ensures var first := AfterFirst(realm, p, store, box, asked);
            && |first.box.log| == |box.log| + 1 && first.box.log[..|box.log|] == box.log
            && var (result, after) := RunOnce(realm, q, again, AsRequest(first.box.log[|box.log|]), None);
               && (result == first.result ==> after.state == first.box.state)
               && (result == first.result
                   <==> (Refused(realm, p, store, box, asked[0]) ==>
                           Echoes(Guest(realm, p, box, asked[0].request),
                                  VetoOf(realm, p, store, box, asked[0]).value)))
  {
    hide RunOnce, AtStart, AtLogs, AtEnd, AtSnapshot, Starts, Echoes, Guest, Denied, SnapshotDue, SnapshotSaves;
    OneRunReplays(realm, p, q, box, again, asked[0].request, VetoOf(realm, p, store, box, asked[0]));
  }

  /** Every run adds one record to the log, and leaves the records before it. */
  lemma {:induction false} LogGrows<S, A, V>(realm: Realm<S, A, V>, p: SandboxPolicy, store: Store, box: Box<S, A>,
                                             asked: seq<Asked<A>>)
    requires Known(asked, store.Keys)
    ensures var log := AfterRuns(realm, p, store, box, asked).box.log;
            |log| == |box.log| + |asked| && log[..|box.log|] == box.log
    decreases |asked|
  {
    hide AfterFirst;
    if asked != [] {
      FirstReplays(realm, p, p, store, box, box, asked);
      var first := AfterFirst(realm, p, store, box, asked);
      LogGrows(realm, p, first.store, first.box, asked[1..]);
      var log := AfterRuns(realm, p, store, box, asked).box.log;
      assert log[..|box.log|] == log[..|first.box.log|][..|box.log|];
    }
  }

  /** What is new in the log is the first run's record and then what the other runs add. */
  lemma NewRecords<S, A, V>(realm: Realm<S, A, V>, p: SandboxPolicy, store: Store, box: Box<S, A>, asked: seq<Asked<A>>)
    requires asked != [] && Known(asked, store.Keys)
    ensures var first := AfterFirst(realm, p, store, box, asked);
            var log := AfterRuns(realm, p, store, box, asked).box.log;
            && |box.log| + 1 == |first.box.log| <= |log|
            && log[|box.log|..] == [first.box.log[|box.log|]] + log[|first.box.log|..]
  {
    hide AfterFirst, Refused, Echoes, Guest, VetoOf, AsRequest, RunOnce, HeldIn;
    FirstReplays(realm, p, p, store, box, box, asked);
    var first := AfterFirst(realm, p, store, box, asked);
    LogGrows(realm, p, first.store, first.box, asked[1..]);
    var log := AfterRuns(realm, p, store, box, asked).box.log;
    assert log[|box.log|] == log[..|first.box.log|][|box.log|];
  }

  /**
   * A history and the replay of its log give the same results, run by run, if and only if every refusal is echoed; and
   * then they end in the same state.
   */
  lemma {:induction false} RunsReplayExactly<S, A, V>(realm: Realm<S, A, V>, p: SandboxPolicy, q: SandboxPolicy,
                                                      store: Store, box: Box<S, A>, again: Box<S, A>,
                                                      asked: seq<Asked<A>>)
    requires SameGovernance(p, q) && box.state == again.state && Known(asked, store.Keys)
    ensures var h := AfterRuns(realm, p, store, box, asked);
            && |h.box.log| >= |box.log|
            && var (results, final) := RunAll(realm, q, again, Again(h.box.log[|box.log|..]));
               && (results == h.results ==> final.state == h.box.state)
               && (results == h.results <==> RefusalsEchoed(realm, p, store, box, asked))
    decreases |asked|
  {
    hide RunOnce, AsRequest, AfterFirst, SameGovernance, Refused, Echoes, Guest, VetoOf;
    LogGrows(realm, p, store, box, asked);
    if asked != [] {
      NewRecords(realm, p, store, box, asked);
      FirstReplays(realm, p, q, store, box, again, asked);
      var first := AfterFirst(realm, p, store, box, asked);
      var h, rest := AfterRuns(realm, p, store, box, asked), AfterRuns(realm, p, first.store, first.box, asked[1..]);
      var (result, after) := RunOnce(realm, q, again, AsRequest(first.box.log[|box.log|]), None);
      var (others, final) := RunAll(realm, q, after, Again(h.box.log[|first.box.log|..]));
      assert h.results == [first.result] + rest.results;
      if result == first.result {
        RunsReplayExactly(realm, p, q, first.store, first.box, after, asked[1..]);
        assert ([result] + others)[1..] == others && h.results[1..] == rest.results;
      } else {
        assert ([result] + others)[0] != h.results[0];
      }
    }
  }

  // What the caller of replay gets

  /** Every caller was told its run's result: no automatic snapshot failed. */
  predicate AllTold<V(==)>(told: seq<Told<V>>, results: seq<RunResult<V>>) {
    |told| == |results| && forall i :: 0 <= i < |told| ==> told[i] == Resolved(results[i])
  }

  /** An automatic snapshot fails in this history. */
  ghost predicate SnapshotFails<S, A, V>(realm: Realm<S, A, V>, policy: SandboxPolicy, store: Store, box: Box<S, A>,
                                         asked: seq<Asked<A>>)
    requires Known(asked, store.Keys)
    decreases |asked|
  {
    asked != [] &&
    (var first := AfterFirst(realm, policy, store, box, asked);
     || (SnapshotDue(policy, first.box, first.result.value.Some?) && !SnapshotSaves(realm, first.box, asked[0].now))
     || SnapshotFails(realm, policy, first.store, first.box, asked[1..]))
  }

  lemma {:induction false} ToldExactly<S, A, V>(realm: Realm<S, A, V>, p: SandboxPolicy, store: Store, box: Box<S, A>,
                                                asked: seq<Asked<A>>)
    requires Known(asked, store.Keys)
    ensures var h := AfterRuns(realm, p, store, box, asked);
            AllTold(h.told, h.results) <==> !SnapshotFails(realm, p, store, box, asked)
    decreases |asked|
  {
    hide AfterFirst, SnapshotDue, SnapshotSaves;
    if asked != [] {
      var first := AfterFirst(realm, p, store, box, asked);
      FirstTold(realm, p, store, box, asked);
      ToldExactly(realm, p, first.store, first.box, asked[1..]);
      var h, rest := AfterRuns(realm, p, store, box, asked), AfterRuns(realm, p, first.store, first.box, asked[1..]);
      assert h.told == [first.told] + rest.told && h.results == [first.result] + rest.results;
      AllToldCons(first.told, rest.told, first.result, rest.results);
    }
  }

  lemma AllToldCons<V>(t: Told<V>, told: seq<Told<V>>, r: RunResult<V>, results: seq<RunResult<V>>)
    requires |told| == |results|
    ensures AllTold([t] + told, [r] + results) <==> t == Resolved(r) && AllTold(told, results)
  {
    var ts, rs := [t] + told, [r] + results;
    if AllTold(ts, rs) {
      assert ts[0] == Resolved(rs[0]);
      forall i | 0 <= i < |told|
        ensures told[i] == Resolved(results[i])
      {
        assert ts[i + 1] == Resolved(rs[i + 1]);
      }
    }
  }

  lemma FirstTold<S, A, V>(realm: Realm<S, A, V>, p: SandboxPolicy, store: Store, box: Box<S, A>, asked: seq<Asked<A>>)
    requires asked != [] && Known(asked, store.Keys)
    ensures var first := AfterFirst(realm, p, store, box, asked);
            first.told == Resolved(first.result)
            <==> !(SnapshotDue(p, first.box, first.result.value.Some?)
                   && !SnapshotSaves(realm, first.box, asked[0].now))
  {
    hide AtStart, AtLogs, AtEnd, AtSnapshot, RunOnce, SnapshotDue, SnapshotSaves;
  }

  /**
   * Replay reproduces history, exactly: for every sequence of runs of a new sandbox, under any probes and any snapshot
   * cadence, replay returns the results of the runs and the sandbox's state if and only if every refusal is echoed and
   * that state can be cloned.
   */
  lemma ReplayReproducesExactly<S, A, V>(realm: Realm<S, A, V>, requested: SandboxPolicy, initialState: S, store: Store,
                                         asked: seq<Asked<A>>)
    requires Known(asked, store.Keys)
    ensures var policy, box := Normalize(requested), Box(initialState, []);
            var h := AfterRuns(realm, policy, store, box, asked);
            Replayed(realm, policy, initialState, h.box.log) == Some((h.results, h.box.state))
            <==> RefusalsEchoed(realm, policy, store, box, asked) && realm.cloneable(h.box.state)
  {
    hide Normalize, AfterRuns, RefusalsEchoed, RunAll;
    NormalizeIsIdempotent(requested);
    var policy, box := Normalize(requested), Box(initialState, []);
    RunsReplayExactly(realm, policy, ForReplay(policy), store, box, box, asked);
    var final := AfterRuns(realm, policy, store, box, asked).box;
    assert final.log[0..] == final.log;
  }

  /** No run of the history is refused by a probe. */
  ghost predicate NoneRefused<S, A, V>(realm: Realm<S, A, V>, policy: SandboxPolicy, store: Store, box: Box<S, A>,
                                       asked: seq<Asked<A>>)
    requires Known(asked, store.Keys)
    decreases |asked|
  {
    asked == [] ||
    (var first := AfterFirst(realm, policy, store, box, asked);
     !Refused(realm, policy, store, box, asked[0]) && NoneRefused(realm, policy, first.store, first.box, asked[1..]))
  }

  lemma {:induction false} NothingToEcho<S, A, V>(realm: Realm<S, A, V>, policy: SandboxPolicy, store: Store,
                                                  box: Box<S, A>, asked: seq<Asked<A>>)
    requires Known(asked, store.Keys) && NoneRefused(realm, policy, store, box, asked)
    ensures RefusalsEchoed(realm, policy, store, box, asked)
    decreases |asked|
  {
    hide AfterFirst, Refused, Echoes, Guest, VetoOf;
    if asked != [] {
      var first := AfterFirst(realm, policy, store, box, asked);
      NothingToEcho(realm, policy, first.store, first.box, asked[1..]);
    }
  }

  /**
   * So without refusals, snapshot failures or an uncloneable state, replay tells what the callers of the runs were
   * told, and ends in the sandbox's own state.
   */
  lemma ReplayReproduces<S, A, V>(realm: Realm<S, A, V>, requested: SandboxPolicy, initialState: S, store: Store,
                                  asked: seq<Asked<A>>)
    requires Known(asked, store.Keys)
    requires NoneRefused(realm, Normalize(requested), store, Box(initialState, []), asked)
    requires !SnapshotFails(realm, Normalize(requested), store, Box(initialState, []), asked)
    ensures var policy, box := Normalize(requested), Box(initialState, []);
            var h := AfterRuns(realm, policy, store, box, asked);
            realm.cloneable(h.box.state) ==>
              && Replayed(realm, policy, initialState, h.box.log) == Some((h.results, h.box.state))
              && AllTold(h.told, h.results)
  {
    hide Normalize, AfterRuns, NoneRefused, RefusalsEchoed, SnapshotFails, Replayed, AllTold;
    var policy, box := Normalize(requested), Box(initialState, []);
    NothingToEcho(realm, policy, store, box, asked);
    ToldExactly(realm, policy, store, box, asked);
    ReplayReproducesExactly(realm, requested, initialState, store, asked);
  }
}
