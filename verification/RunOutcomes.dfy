/** What one run of a sandbox comes to, case by case, told from its request, the state, the policy and the probes. */
module RunOutcomes {
  import opened Words
  import opened Options
  import opened Policy
  import opened ProgramRuns
  import opened Probes
  import opened Retries
  import opened Sandboxing
  import opened Replays
  import opened Firing
  import opened Tracepoints

  /** The run failed with that error before its guest was called. */
  ghost predicate FailedWith<S, A, V>(error: string, box: Box<S, A>, seen: Seen<S, A, V>) {
    seen.result.value.None? && seen.result.error == error && seen.result.logs == [] && seen.box.state == box.state
  }

  /** What run:start shows its probes. */
  function StartContext<S, A, V>(realm: Realm<S, A, V>, box: Box<S, A>, a: Asked<A>): seq<byte> {
    Pack([|box.log|, |a.request.code|, a.request.estimatedMemoryMB, if realm.given(a.request.args) then 1 else 0,
          a.now.startedAt])
  }

  /** Attached probe i is the first at run:start to refuse. */
  ghost predicate Refuser<S, A, V>(realm: Realm<S, A, V>, store: Store, box: Box<S, A>, a: Asked<A>, i: nat)
    requires HeldIn(store.Keys, a.probes)
  {
    i < |a.probes| && FirstToRefuse(a.probes, RunStart, StartContext(realm, box, a), a.now.clock(0), store, i)
  }

  /**
   * The cases in order: the scan, the clone, a refusal under a name that is not empty, the budget; and then the guest,
   * with as many attempts as the policy allows, the state being committed if one returns.
   */
  ghost predicate ComesTo<S(!new), A, V(!new)>(realm: Realm<S, A, V>, policy: SandboxPolicy, store: Store,
                                               box: Box<S, A>, a: Asked<A>, seen: Seen<S, A, V>)
    requires HeldIn(store.Keys, a.probes)
  {
    var r := a.request;
    var unsafe := realm.scan(r.code, policy.maxGuestCodeLength);
    if unsafe.Some? then FailedWith(unsafe.value, box, seen)
    else if !realm.cloneable(box.state) then FailedWith(realm.cloneError, box, seen)
    else if exists i: nat :: Refuser(realm, store, box, a, i) && NameText(a.probes[i].name) != ""
    then exists i: nat :: Refuser(realm, store, box, a, i)
                       && FailedWith("Run denied by probe \"" + NameText(a.probes[i].name) + "\".", box, seen)
    else if r.estimatedMemoryMB > policy.memoryBudgetMB
    then FailedWith(realm.overBudget(seen.result.name, r.estimatedMemoryMB, policy.memoryBudgetMB), box, seen)
    else
      exists o :: ChainDecided(realm.guest(r.code), r.args, box.state,
                               1 + (if policy.retryCount > 0 then policy.retryCount else 0), o)
               && RunsAs(o, box, seen)
  }

  lemma RunComesTo<S(!new), A, V(!new)>(realm: Realm<S, A, V>, policy: SandboxPolicy, store: Store, box: Box<S, A>,
                                        a: Asked<A>)
    requires HeldIn(store.Keys, a.probes)
    ensures ComesTo(realm, policy, store, box, a, AfterRun(realm, policy, a.probes, store, box, a.request, a.now))
  {
    hide FireAll, Matching, NameText, AtStart, AtLogs, AtEnd, AtSnapshot, InlineOutcome, ChainDecided, FirstToRefuse,
         Execute, StartContext;
    var r := a.request;
    if Starts(realm, policy, box, r) {
      var seen := AfterRun(realm, policy, a.probes, store, box, r, a.now);
      var veto := AtStart(realm, policy, a.probes, store, box, r, a.now).veto;
      StartVeto(realm, policy, store, box, a);
      GuestDecides(realm, policy, box, r);
      if Denied(VetoText(veto)) {
        var i: nat :| Refuser(realm, store, box, a, i) && veto == Some(a.probes[i].name);
        assert NameText(a.probes[i].name) != "";
        assert FailedWith(Denial(NameText(a.probes[i].name)), box, seen);
      } else {
        forall i: nat | Refuser(realm, store, box, a, i)
          ensures NameText(a.probes[i].name) == ""
        {
        }
        assert r.estimatedMemoryMB <= policy.memoryBudgetMB ==> RunsAs(Guest(realm, policy, box, r), box, seen);
      }
    }
  }

  /** The verdict of run:start: the first refuser's name, or none. */
  lemma StartVeto<S, A, V>(realm: Realm<S, A, V>, policy: SandboxPolicy, store: Store, box: Box<S, A>, a: Asked<A>)
    requires HeldIn(store.Keys, a.probes) && Starts(realm, policy, box, a.request)
    ensures var veto := AtStart(realm, policy, a.probes, store, box, a.request, a.now).veto;
            && (veto.None? ==> forall i: nat :: !Refuser(realm, store, box, a, i))
            && (veto.Some? ==> exists i: nat :: Refuser(realm, store, box, a, i) && veto == Some(a.probes[i].name))
            && (forall i: nat :: Refuser(realm, store, box, a, i) ==> veto == Some(a.probes[i].name))
  {
    hide Pack, FireAll, Matching, RefusesAt, Reached;
    var ps, ctx, clock := a.probes, StartContext(realm, box, a), a.now.clock(0);
    assert ctx == Pack(StartFields(realm, |box.log|, a.request, a.now));
    FireExactly(ps, RunStart, ctx, clock, store);
    if i :| 0 <= i < |ps| && RefusesAt(ps, RunStart, ctx, clock, store, i) {
      var k := FirstFrom(ps, RunStart, ctx, clock, store, 0, i);
      assert Refuser(realm, store, box, a, k);
    }
  }

  lemma {:induction false} FirstFrom(ps: seq<Probe>, t: Tracepoint, ctx: seq<byte>, clock: nat -> nat -> int,
                                     store: Store, n: nat, i: nat) returns (k: nat)
    requires HeldIn(store.Keys, ps) && n <= i < |ps| && RefusesAt(ps, t, ctx, clock, store, i)
    requires forall j :: 0 <= j < n ==> !RefusesAt(ps, t, ctx, clock, store, j)
    ensures FirstToRefuse(ps, t, ctx, clock, store, k)
    decreases i - n
  {
    hide RefusesAt;
    k := n;
    if !RefusesAt(ps, t, ctx, clock, store, n) {
      k := FirstFrom(ps, t, ctx, clock, store, n + 1, i);
    }
  }

  lemma GuestDecides<S, A, V>(realm: Realm<S, A, V>, policy: SandboxPolicy, box: Box<S, A>, r: RunRequest<A>)
    ensures var o := Guest(realm, policy, box, r);
            if r.estimatedMemoryMB > policy.memoryBudgetMB
            then o == Outcome(None, realm.overBudget(NameOf(realm, policy, box, r), r.estimatedMemoryMB,
                                                     policy.memoryBudgetMB), box.state, [])
            else ChainDecided(realm.guest(r.code), r.args, box.state,
                              1 + (if policy.retryCount > 0 then policy.retryCount else 0), o)
  {
    hide InlineOutcome, ChainDecided;
    var guest, attempts := realm.guest(r.code), 1 + (if policy.retryCount > 0 then policy.retryCount else 0);
    ChainStarts(guest, r.args, box.state);
    InlineIsAChain(guest, r.args, box.state, attempts, 0);
  }

  /**
   * Every run adds one record: the name asked for, or the one made of the entrypoint and the number of the run, and the
   * request as it was, with whether it succeeded.
   */
  lemma RunIsRecorded<S, A, V>(realm: Realm<S, A, V>, policy: SandboxPolicy, store: Store, box: Box<S, A>, a: Asked<A>)
    requires HeldIn(store.Keys, a.probes)
    ensures var r, seen := a.request, AfterRun(realm, policy, a.probes, store, box, a.request, a.now);
            && seen.result.name
               == (if r.name.Some? then r.name.value else realm.numbered(policy.entrypoint, |box.log| + 1))
            && seen.box.log
               == box.log + [RunRecord(seen.result.name, r.code, r.args, r.estimatedMemoryMB, seen.result.value.Some?)]
  {
    hide Pack, FireAll, Matching, NameText, AtLogs, AtEnd, AtSnapshot, Execute;
  }

  /** The caller is told the result, unless a snapshot is due that cannot be taken: then `run` throws. */
  lemma RunIsTold<S, A, V>(realm: Realm<S, A, V>, policy: SandboxPolicy, store: Store, box: Box<S, A>, a: Asked<A>)
    requires HeldIn(store.Keys, a.probes)
    ensures var seen := AfterRun(realm, policy, a.probes, store, box, a.request, a.now);
            seen.told
            == if && seen.result.value.Some?
                  && policy.snapshotEveryNRuns > 0 && (|box.log| + 1) % policy.snapshotEveryNRuns == 0
                  && !(realm.cloneable(seen.box.state) && a.now.saves)
               then Rejected else Resolved(seen.result)
  {
    hide Pack, FireAll, Matching, NameText, AtLogs, AtEnd, AtSnapshot, Execute;
  }
}
