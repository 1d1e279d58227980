/**
 * Runs that overlap on one sandbox: `run` awaits the guest between cloning the state and committing it, so that other
 * runs may begin and finish in between. A schedule says in which order they do.
 */
module Overlaps {
  import opened Options
  import opened Policy
  import opened Retries
  import opened Sandboxing

  datatype Event<+A> = Begin(id: nat, request: RunRequest<A>) | Finish(id: nat)

  /** A run whose guest is under way: its name was made up, and the state cloned for it, when it began. */
  datatype Running<+S, +A> = Running(request: RunRequest<A>, name: string, working: S)

  /** What a schedule comes to: results and records in the order of finishing, the states committed, the final state. */
  datatype Trace<+S, +A, +V> = Trace(results: seq<RunResult<V>>, records: seq<RunRecord<A>>, commits: seq<S>, state: S)

  function After<S, A, V>(result: RunResult<V>, record: RunRecord<A>, commits: seq<S>, rest: Trace<S, A, V>)
    : Trace<S, A, V>
  {
    Trace([result] + rest.results, [record] + rest.records, commits + rest.commits, rest.state)
  }

  function Record<A>(r: RunRequest<A>, name: string, ok: bool): RunRecord<A> {
    RunRecord(name, r.code, r.args, r.estimatedMemoryMB, ok)
  }

  /** A run that no probe refuses; one that does not get to its guest begins and finishes at once. */
  function Overlapped<S, A, V>(realm: Realm<S, A, V>, policy: SandboxPolicy, box: Box<S, A>,
                               running: map<nat, Running<S, A>>, events: seq<Event<A>>): Trace<S, A, V>
    decreases |events|
  {
    if events == [] then Trace([], [], [], box.state)
    else
      match events[0]
      case Begin(id, r) =>
        var name := NameOf(realm, policy, box, r);
        if Starts(realm, policy, box, r) then
          Overlapped(realm, policy, box, running[id := Running(r, name, box.state)], events[1..])
        else
          var (result, after) := RunOnce(realm, policy, box, r, None);
          After(result, Record(r, name, false), [], Overlapped(realm, policy, after, running, events[1..]))
      case Finish(id) =>
        if id !in running then Overlapped(realm, policy, box, running, events[1..])
        else
          var (r, name) := (running[id].request, running[id].name);
          var o := Execute(realm, policy, r.code, name, r.args, r.estimatedMemoryMB, running[id].working);
          var (result, after) := Concluded(box, r, name, o);
          After(result, Record(r, name, o.value.Some?), if o.value.Some? then [o.state] else [],
                Overlapped(realm, policy, after, running - {id}, events[1..]))
  }

  /** The final state is the one the last successful finisher made, of the state it began with. */
  lemma {:induction false} LastSuccessWins<S, A, V>(realm: Realm<S, A, V>, policy: SandboxPolicy, box: Box<S, A>,
                                                    running: map<nat, Running<S, A>>, events: seq<Event<A>>)
    ensures var t := Overlapped(realm, policy, box, running, events);
            t.state == if t.commits == [] then box.state else t.commits[|t.commits| - 1]
    decreases |events|
  {
    hide Execute, NameOf, RunOnce, Starts;
    if events != [] {
      match events[0] {
        case Begin(id, r) =>
          if Starts(realm, policy, box, r) {
            var begun := running[id := Running(r, NameOf(realm, policy, box, r), box.state)];
            LastSuccessWins(realm, policy, box, begun, events[1..]);
          } else {
            FailedBeginReplays(realm, policy, policy, box, box, r);
            LastSuccessWins(realm, policy, RunOnce(realm, policy, box, r, None).1, running, events[1..]);
          }
        case Finish(id) =>
          if id !in running {
            LastSuccessWins(realm, policy, box, running, events[1..]);
          } else {
            var r, name := running[id].request, running[id].name;
            var o := Execute(realm, policy, r.code, name, r.args, r.estimatedMemoryMB, running[id].working);
            LastSuccessWins(realm, policy, Concluded(box, r, name, o).1, running - {id}, events[1..]);
          }
      }
    }
  }

  // Which schedules replay

  /** Only ids that are not under way begin, and only ids under way finish. */
  predicate Proper<A>(events: seq<Event<A>>, begun: set<nat>)
    decreases |events|
  {
    events == [] ||
    match events[0]
    case Begin(id, _) => id !in begun && Proper(events[1..], begun + {id})
    case Finish(id) => id in begun && Proper(events[1..], begun - {id})
  }

  /** The ids of runs above the memory budget, which fail without reaching their guest. */
  function Heavier<A>(heavy: set<nat>, id: nat, r: RunRequest<A>, budget: int): set<nat> {
    if r.estimatedMemoryMB > budget then heavy + {id} else heavy - {id}
  }

  /** The recent runs after one of them has finished: a heavy one commits nothing, and so leaves the others recent. */
  function StillRecent(recent: set<nat>, heavy: set<nat>, id: nat): set<nat> {
    if id in heavy then recent - {id} else {}
  }

  /**
   * No run finishes that has seen another one, within the budget, finish since it began; `recent` holds those that have
   * not, `heavy` those above the budget.
   */
  predicate Serial<A>(events: seq<Event<A>>, recent: set<nat>, heavy: set<nat>, budget: int)
    decreases |events|
  {
    events == [] ||
    match events[0]
    case Begin(id, r) => Serial(events[1..], recent + {id}, Heavier(heavy, id, r, budget), budget)
    case Finish(id) => id in recent && Serial(events[1..], StillRecent(recent, heavy, id), heavy, budget)
  }

  /** The runs under way started properly, and the recent ones on the present state. */
  ghost predicate UpToDate<S, A, V>(realm: Realm<S, A, V>, policy: SandboxPolicy, state: S,
                                    running: map<nat, Running<S, A>>, recent: set<nat>, heavy: set<nat>) {
    && (forall id :: id in running ==>
          realm.scan(running[id].request.code, policy.maxGuestCodeLength).None? && realm.cloneable(running[id].working))
    && (forall id :: id in running ==> (id in heavy <==> running[id].request.estimatedMemoryMB > policy.memoryBudgetMB))
    && (forall id :: id in running && id in recent ==> running[id].working == state)
  }

  function Replay<S, A, V>(realm: Realm<S, A, V>, policy: SandboxPolicy, again: Box<S, A>, t: Trace<S, A, V>)
    : (seq<RunResult<V>>, Box<S, A>)
  {
    RunAll(realm, policy, again, Again(t.records))
  }

  lemma ReplayCons<S, A, V>(realm: Realm<S, A, V>, q: SandboxPolicy, again: Box<S, A>, result: RunResult<V>,
                            record: RunRecord<A>, commits: seq<S>, rest: Trace<S, A, V>)
    ensures var (first, next) := RunOnce(realm, q, again, AsRequest(record), None);
            var (results, final) := Replay(realm, q, next, rest);
            Replay(realm, q, again, After(result, record, commits, rest)) == ([first] + results, final)
  {
    hide RunOnce;
    assert ([record] + rest.records)[1..] == rest.records;
    assert Again([record] + rest.records) == [AsRequest(record)] + Again(rest.records);
  }

  /** A finish on the present state is what replay does with its record. */
  lemma FinishReplays<S, A, V>(realm: Realm<S, A, V>, p: SandboxPolicy, q: SandboxPolicy, box: Box<S, A>,
                               again: Box<S, A>,
                               r: RunRequest<A>, name: string)
    requires SameGovernance(p, q) && box.state == again.state
    requires realm.scan(r.code, p.maxGuestCodeLength).None? && realm.cloneable(box.state)
    ensures var o := Execute(realm, p, r.code, name, r.args, r.estimatedMemoryMB, box.state);
            var (result, after) := Concluded(box, r, name, o);
            var (result', after') := RunOnce(realm, q, again, AsRequest(Record(r, name, o.value.Some?)), None);
            result' == result && after'.state == after.state
  {
  }

  lemma FailedBeginReplays<S, A, V>(realm: Realm<S, A, V>, p: SandboxPolicy, q: SandboxPolicy, box: Box<S, A>,
                                    again: Box<S, A>, r: RunRequest<A>)
    requires SameGovernance(p, q) && box.state == again.state && !Starts(realm, p, box, r)
    ensures var (result, after) := RunOnce(realm, p, box, r, None);
            var record := Record(r, NameOf(realm, p, box, r), false);
            var (result', after') := RunOnce(realm, q, again, AsRequest(record), None);
            result' == result && after.state == box.state == after'.state
  {
  }

  /** Serial schedules replay, whatever the guests. */
  lemma {:induction false} SerialReplays<S, A, V>(realm: Realm<S, A, V>, p: SandboxPolicy, q: SandboxPolicy,
                                                  box: Box<S, A>, again: Box<S, A>, running: map<nat, Running<S, A>>,
                                                  recent: set<nat>, heavy: set<nat>, begun: set<nat>,
                                                  events: seq<Event<A>>)
    requires SameGovernance(p, q) && box.state == again.state && UpToDate(realm, p, box.state, running, recent, heavy)
    requires Serial(events, recent, heavy, p.memoryBudgetMB) && running.Keys <= begun && Proper(events, begun)
    ensures var t := Overlapped(realm, p, box, running, events);
            var (results, final) := Replay(realm, q, again, t);
            results == t.results && final.state == t.state
    decreases |events|
  {
    hide Execute, RunOnce, Concluded, NameOf, Replay, SameGovernance;
    if events == [] {
      NothingToReplay(realm, p, q, box, again, running);
    } else {
      match events[0] {
        case Begin(id, r) =>
          var name, heavier := NameOf(realm, p, box, r), Heavier(heavy, id, r, p.memoryBudgetMB);
          if Starts(realm, p, box, r) {
            SerialReplays(realm, p, q, box, again, running[id := Running(r, name, box.state)], recent + {id}, heavier,
                          begun + {id}, events[1..]);
          } else {
            var (result, after) := RunOnce(realm, p, box, r, None);
            var next := RunOnce(realm, q, again, AsRequest(Record(r, name, false)), None).1;
            FailedBeginReplays(realm, p, q, box, again, r);
            SerialReplays(realm, p, q, after, next, running, recent + {id}, heavier, begun + {id}, events[1..]);
            ReplayCons(realm, q, again, result, Record(r, name, false), [],
                       Overlapped(realm, p, after, running, events[1..]));
          }
        case Finish(id) =>
          var left := StillRecent(recent, heavy, id);
          if id !in running {
            SerialReplays(realm, p, q, box, again, running, left, heavy, begun - {id}, events[1..]);
          } else {
            var r, name := running[id].request, running[id].name;
            var o := Execute(realm, p, r.code, name, r.args, r.estimatedMemoryMB, running[id].working);
            var (result, after) := Concluded(box, r, name, o);
            var record := Record(r, name, o.value.Some?);
            var next := RunOnce(realm, q, again, AsRequest(record), None).1;
            FinishReplays(realm, p, q, box, again, r, name);
            HeavyChangesNothing(realm, p, box, r, name, running[id].working);
            SerialReplays(realm, p, q, after, next, running - {id}, left, heavy, begun - {id}, events[1..]);
            ReplayCons(realm, q, again, result, record, if o.value.Some? then [o.state] else [],
                       Overlapped(realm, p, after, running - {id}, events[1..]));
          }
      }
    }
  }

  lemma HeavyChangesNothing<S, A, V>(realm: Realm<S, A, V>, p: SandboxPolicy, box: Box<S, A>, r: RunRequest<A>,
                                     name: string, working: S)
    ensures r.estimatedMemoryMB > p.memoryBudgetMB ==>
              Concluded(box, r, name, Execute(realm, p, r.code, name, r.args, r.estimatedMemoryMB, working)).1.state
              == box.state
  {
  }

  lemma NothingToReplay<S, A, V>(realm: Realm<S, A, V>, p: SandboxPolicy, q: SandboxPolicy, box: Box<S, A>,
                                 again: Box<S, A>,
                                 running: map<nat, Running<S, A>>)
    requires box.state == again.state
    ensures var t := Overlapped(realm, p, box, running, []);
            var (results, final) := Replay(realm, q, again, t);
            results == t.results && final.state == t.state
  {
  }

  // A host that tells

  /** Every guest returns the state it was given and counts it up; the state `limit` cannot be cloned. */
  function Counting(limit: int): Realm<int, int, int> {
    Realm(_ => (n, _) => Returns(n, n + 1, []), (_, _) => None, n => n != limit, _ => true, _ => 0,
          (_, _, _) => "!", "", (_, _) => "")
  }

  const NO_LIMIT := -1

  /**
   * The state at which counting is to stop, so that the first finish that is not on the present state tells. `count` is
   * the number of finishes within the budget, `at` what it was when each run began. If that run is within the budget it
   * tells by its number; if not, it tells once the state can no longer be cloned, which is the first one it has missed.
   */
  function Limit<A>(events: seq<Event<A>>, recent: set<nat>, heavy: set<nat>, budget: int, count: nat,
                    at: map<nat, nat>): int
    decreases |events|
  {
    if events == [] then NO_LIMIT
    else
      match events[0]
      case Begin(id, r) =>
        Limit(events[1..], recent + {id}, Heavier(heavy, id, r, budget), budget, count, at[id := count])
      case Finish(id) =>
        if id in recent then
          Limit(events[1..], StillRecent(recent, heavy, id), heavy, budget,
                if id in heavy then count else count + 1, at)
        else if id in heavy && id in at then at[id] + 1
        else NO_LIMIT
  }

  predicate Reached(limit: int, count: nat) {
    limit != NO_LIMIT && limit <= count
  }

  /** The state is the count until the limit is reached; runs are under way that began before that. */
  ghost predicate CountedUp(p: SandboxPolicy, limit: int, state: int, running: map<nat, Running<int, int>>,
                            recent: set<nat>, heavy: set<nat>, begun: set<nat>, count: nat, at: map<nat, nat>) {
    && state == (if Reached(limit, count) then limit else count)
    && (forall id :: id in running <==> id in begun && id in at && !Reached(limit, at[id]))
    && (forall id :: id in running ==> running[id].working == at[id])
    && (forall id :: id in running ==> (id in heavy <==> running[id].request.estimatedMemoryMB > p.memoryBudgetMB))
    && (forall id :: id in begun ==> id in at && at[id] <= count && (id in recent <==> at[id] == count))
  }

  lemma CountingFinish(limit: int, p: SandboxPolicy, r: RunRequest<int>, name: string, working: int)
    ensures Execute(Counting(limit), p, r.code, name, r.args, r.estimatedMemoryMB, working)
         == if r.estimatedMemoryMB > p.memoryBudgetMB then Outcome(None, "!", working, [])
            else Outcome(Some(working), "", working + 1, [])
  {
  }

  lemma {:induction false} LimitIsPositive<A>(events: seq<Event<A>>, recent: set<nat>, heavy: set<nat>, budget: int,
                                              count: nat, at: map<nat, nat>)
    ensures var limit := Limit(events, recent, heavy, budget, count, at);
            limit == NO_LIMIT || limit > 0
    decreases |events|
  {
    if events != [] {
      match events[0] {
        case Begin(id, r) =>
          LimitIsPositive(events[1..], recent + {id}, Heavier(heavy, id, r, budget), budget, count, at[id := count]);
        case Finish(id) =>
          var counted := if id in heavy then count else count + 1;
          LimitIsPositive(events[1..], StillRecent(recent, heavy, id), heavy, budget, counted, at);
      }
    }
  }

  lemma BeginCounts(p: SandboxPolicy, limit: int, state: int, running: map<nat, Running<int, int>>, recent: set<nat>,
                    heavy: set<nat>, begun: set<nat>, count: nat, at: map<nat, nat>, id: nat, r: RunRequest<int>,
                    name: string)
    requires CountedUp(p, limit, state, running, recent, heavy, begun, count, at) && id !in begun
    ensures CountedUp(p, limit, state, if state == limit then running else running[id := Running(r, name, state)],
                      recent + {id}, Heavier(heavy, id, r, p.memoryBudgetMB), begun + {id}, count, at[id := count])
  {
  }

  lemma FinishCounts(p: SandboxPolicy, limit: int, state: int, running: map<nat, Running<int, int>>, recent: set<nat>,
                     heavy: set<nat>, begun: set<nat>, count: nat, at: map<nat, nat>, id: nat)
    requires CountedUp(p, limit, state, running, recent, heavy, begun, count, at) && id in begun && id in recent
    ensures CountedUp(p, limit, if id in heavy || id !in running then state else state + 1, running - {id},
                      StillRecent(recent, heavy, id), heavy, begun - {id}, if id in heavy then count else count + 1, at)
  {
  }

  /** A finish that is ignored is of a recent run. */
  lemma IgnoredIsRecent(p: SandboxPolicy, limit: int, state: int, running: map<nat, Running<int, int>>,
                        recent: set<nat>, heavy: set<nat>, begun: set<nat>, count: nat, at: map<nat, nat>, id: nat)
    requires CountedUp(p, limit, state, running, recent, heavy, begun, count, at) && id in begun && id !in running
    requires id !in recent ==> limit == if id in heavy && id in at then at[id] + 1 else NO_LIMIT
    ensures id in recent && running - {id} == running
  {
  }

  /** In the first finish that is not on the present state it returns too small a number, or fails with another text. */
  lemma {:induction false} OthersDoNot(limit: int, p: SandboxPolicy, q: SandboxPolicy, box: Box<int, int>,
                                       again: Box<int, int>, running: map<nat, Running<int, int>>, recent: set<nat>,
                                       heavy: set<nat>, begun: set<nat>, count: nat, at: map<nat, nat>,
                                       events: seq<Event<int>>)
    requires SameGovernance(p, q) && box.state == again.state
    requires limit == Limit(events, recent, heavy, p.memoryBudgetMB, count, at)
    requires CountedUp(p, limit, box.state, running, recent, heavy, begun, count, at)
    requires Proper(events, begun) && !Serial(events, recent, heavy, p.memoryBudgetMB)
    ensures var t := Overlapped(Counting(limit), p, box, running, events);
            Replay(Counting(limit), q, again, t).0 != t.results
    decreases |events|
  {
    hide Execute, RunOnce, NameOf, Replay, SameGovernance, Concluded, CountedUp, Heavier, StillRecent;
    var realm := Counting(limit);
    match events[0] {
      case Begin(id, r) =>
        var name, heavier := NameOf(realm, p, box, r), Heavier(heavy, id, r, p.memoryBudgetMB);
        BeginCounts(p, limit, box.state, running, recent, heavy, begun, count, at, id, r, name);
        if box.state != limit {
          OthersDoNot(limit, p, q, box, again, running[id := Running(r, name, box.state)], recent + {id}, heavier,
                      begun + {id}, count, at[id := count], events[1..]);
        } else {
          var (result, after) := RunOnce(realm, p, box, r, None);
          var (result', next) := RunOnce(realm, q, again, AsRequest(Record(r, name, false)), None);
          FailedBeginReplays(realm, p, q, box, again, r);
          var rest := Overlapped(realm, p, after, running, events[1..]);
          OthersDoNot(limit, p, q, after, next, running, recent + {id}, heavier, begun + {id}, count, at[id := count],
                      events[1..]);
          ReplayCons(realm, q, again, result, Record(r, name, false), [], rest);
          OtherTails(result', result, Replay(realm, q, next, rest).0, rest.results);
        }
      case Finish(id) =>
        var left, counted := StillRecent(recent, heavy, id), if id in heavy then count else count + 1;
        if id in recent {
          FinishCounts(p, limit, box.state, running, recent, heavy, begun, count, at, id);
        }
        if id !in running {
          IgnoredIsRecent(p, limit, box.state, running, recent, heavy, begun, count, at, id);
          OthersDoNot(limit, p, q, box, again, running, left, heavy, begun - {id}, counted, at, events[1..]);
        } else {
          FinishTells(limit, p, q, box, again, running, recent, heavy, begun, count, at, id);
          var r, name := running[id].request, running[id].name;
          var o := Execute(realm, p, r.code, name, r.args, r.estimatedMemoryMB, running[id].working);
          var (result, after) := Concluded(box, r, name, o);
          var record := Record(r, name, o.value.Some?);
          var (result', next) := RunOnce(realm, q, again, AsRequest(record), None);
          var rest := Overlapped(realm, p, after, running - {id}, events[1..]);
          ReplayCons(realm, q, again, result, record, if o.value.Some? then [o.state] else [], rest);
          if id in recent {
            OthersDoNot(limit, p, q, after, next, running - {id}, left, heavy, begun - {id}, counted, at, events[1..]);
            OtherTails(result', result, Replay(realm, q, next, rest).0, rest.results);
          } else {
            assert ([result'] + Replay(realm, q, next, rest).0)[0] != ([result] + rest.results)[0];
          }
        }
    }
  }

  lemma OtherTails<T>(x: T, y: T, others: seq<T>, rest: seq<T>)
    requires others != rest
    ensures [x] + others != [y] + rest
  {
    assert ([x] + others)[1..] == others && ([y] + rest)[1..] == rest;
  }

  /** A recent run ends alike in replay; one that is not tells. */
  lemma FinishTells(limit: int, p: SandboxPolicy, q: SandboxPolicy, box: Box<int, int>, again: Box<int, int>,
                    running: map<nat, Running<int, int>>, recent: set<nat>, heavy: set<nat>, begun: set<nat>,
                    count: nat, at: map<nat, nat>, id: nat)
    requires SameGovernance(p, q) && box.state == again.state && id in running
    requires CountedUp(p, limit, box.state, running, recent, heavy, begun, count, at)
    requires id !in recent ==> limit == if id in heavy && id in at then at[id] + 1 else NO_LIMIT
    ensures var realm, r, name := Counting(limit), running[id].request, running[id].name;
            var o := Execute(realm, p, r.code, name, r.args, r.estimatedMemoryMB, running[id].working);
            var (result, after) := Concluded(box, r, name, o);
            var (result', next) := RunOnce(realm, q, again, AsRequest(Record(r, name, o.value.Some?)), None);
            if id in recent then
              && result' == result && after.state == next.state
              && after.state == (if id in heavy then box.state else box.state + 1)
            else result' != result
  {
    hide Execute;
    var r, name := running[id].request, running[id].name;
    CountingFinish(limit, p, r, name, running[id].working);
    CountingFinish(limit, q, r, name, box.state);
  }

  /**
   * Overlapping runs replay, exactly: of the schedules that start from a new sandbox, those replay for all guests and
   * hosts in which no run finishes after another one, within the budget, finished since it began.
   */
  lemma OverlapsReplayExactly(requested: SandboxPolicy, events: seq<Event<int>>)
    requires Proper(events, {})
    ensures (forall realm: Realm<int, int, int>, state: int :: ReplaysFrom(realm, requested, state, events))
            <==> Serial(events, {}, {}, Normalize(requested).memoryBudgetMB)
  {
    hide Normalize, Overlapped, Replay;
    NormalizeIsIdempotent(requested);
    var p := Normalize(requested);
    if Serial(events, {}, {}, p.memoryBudgetMB) {
      forall realm: Realm<int, int, int>, state: int
        ensures ReplaysFrom(realm, requested, state, events)
      {
        SerialReplays(realm, p, Normalize(ForReplay(p)), Box(state, []), Box(state, []), map[], {}, {}, {}, events);
      }
    } else {
      LimitIsPositive(events, {}, {}, p.memoryBudgetMB, 0, map[]);
      var limit := Limit(events, {}, {}, p.memoryBudgetMB, 0, map[]);
      OthersDoNot(limit, p, Normalize(ForReplay(p)), Box(0, []), Box(0, []), map[], {}, {}, {}, 0, map[], events);
      assert !ReplaysFrom(Counting(limit), requested, 0, events);
    }
  }

  predicate ReplaysFrom(realm: Realm<int, int, int>, requested: SandboxPolicy, state: int, events: seq<Event<int>>) {
    var p := Normalize(requested);
    var t := Overlapped(realm, p, Box(state, []), map[], events);
    var (results, final) := Replay(realm, Normalize(ForReplay(p)), Box(state, []), t);
    results == t.results && final.state == t.state
  }
}
