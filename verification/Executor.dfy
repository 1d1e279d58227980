/**
 * The worker executor's protocol: calls with a pending resolver and a hard-limit timer, replies that may come late or
 * from a terminated worker, a reset that terminates the worker and answers everyone, and dispose. Each event is one
 * uninterrupted turn of the host's event loop; any enabled event may come next.
 */
module Executor {
  import opened Options

  datatype Outcome<+Response> =
    | Reply(response: Response)    // the worker's result message
    | PostFailed                   // posting threw
    | HardLimit                    // this call's own timer fired
    | Terminated                   // another call's timer terminated the worker
    | Rejected                     // no transport could be made

  /** `armed`: the timer is set and has neither fired nor been cleared. */
  datatype Call<+Response> = Call(deadline: int, armed: bool, outcome: Option<Outcome<Response>>)

  datatype State<+Response> = State(
    now: int,
    live: bool,                         // a transport exists
    lastId: nat,                        // the last id handed out
    pending: set<nat>,                  // ids with a registered resolver
    posting: set<nat>,                  // ids whose post has not returned yet
    calls: map<nat, Call<Response>>)

  datatype Event<+Response> =
    | Execute(spawns: bool)             // spawns: a new transport could be made if one is needed
    | PostReturns(id: nat, threw: bool)
    | Message(id: nat, response: Response)
    | TimerFires(id: nat)
    | Tick(now: int)
    | Dispose

  function HardLimitMs(timeoutMs: int): int {
    (if timeoutMs > 100 then timeoutMs else 100) + 1_000
  }

  function Initial<Response>(now: int): State<Response> {
    State(now, false, 0, {}, {}, map[])
  }

  /** A resolver, timer or catch block runs its body only for a call that has not settled; settling clears the timer. */
  function Settle<Response>(calls: map<nat, Call<Response>>, id: nat, o: Outcome<Response>): map<nat, Call<Response>> {
    if id in calls && calls[id].outcome.None? then calls[id := Call(calls[id].deadline, false, Some(o))] else calls
  }

  /** `hardReset` on the calls: every registered resolver is given the termination response. */
  function TerminateAll<Response>(calls: map<nat, Call<Response>>, pending: set<nat>): map<nat, Call<Response>> {
    map id | id in calls ::
      if id in pending && calls[id].outcome.None? then Call(calls[id].deadline, false, Some(Terminated)) else calls[id]
  }

  /** Time does not pass the deadline of a timer that is still armed. */
  ghost predicate Enabled<Response>(s: State<Response>, ev: Event<Response>) {
    match ev
    case PostReturns(id, _) => id in s.posting
    case TimerFires(id) => id in s.calls && s.calls[id].armed && s.now >= s.calls[id].deadline
    case Tick(now) => now >= s.now && forall id :: id in s.calls && s.calls[id].armed ==> now <= s.calls[id].deadline
    case _ => true
  }

  function Apply<Response>(s: State<Response>, ev: Event<Response>, limit: int): State<Response> {
    match ev
    case Execute(spawns) =>
      var id := s.lastId + 1;
      if !s.live && !spawns then s.(lastId := id, calls := s.calls[id := Call(s.now + limit, false, Some(Rejected))])
      else
        State(s.now, true, id, s.pending + {id}, s.posting + {id}, s.calls[id := Call(s.now + limit, true, None)])
    case PostReturns(id, threw) =>
      var t := s.(posting := s.posting - {id});
      if threw && id in s.calls && s.calls[id].outcome.None?
      then t.(pending := s.pending - {id}, calls := Settle(s.calls, id, PostFailed)) else t
    case Message(id, response) =>
      if id in s.pending then s.(pending := s.pending - {id}, calls := Settle(s.calls, id, Reply(response))) else s
    case TimerFires(id) =>
      if id in s.calls && s.calls[id].outcome.None?
      then s.(live := false, pending := {},
              calls := TerminateAll(Settle(s.calls, id, HardLimit), s.pending - {id}))
      else s
    case Tick(now) => s.(now := now)
    case Dispose => s.(live := false, pending := {})
  }

  class WorkerExecutor<Response> {
    const limit: int
    var now: int
    var live: bool
    var lastId: nat
    var pending: set<nat>
    var posting: set<nat>
    var calls: map<nat, Call<Response>>

    ghost function Current(): State<Response>
      reads this
    {
      State(now, live, lastId, pending, posting, calls)
    }

    constructor (timeoutMs: int, now: int)
      ensures limit == HardLimitMs(timeoutMs) && Current() == Initial(now)
    {
      limit := HardLimitMs(timeoutMs);
      this.now, live, lastId, pending, posting, calls := now, false, 0, {}, {}, map[];
    }

    /** `execute` up to the post: take an id, make sure of a transport, arm the timer, register the resolver. */
    method Begin(spawns: bool) returns (id: nat)
      modifies this
      ensures id == old(lastId) + 1 && Current() == Apply(old(Current()), Execute(spawns), limit)
    {
      lastId := lastId + 1;
      id := lastId;
      if !live {
        if !spawns {
          calls := calls[id := Call(now + limit, false, Some(Rejected))];
          return;
        }
        live := true;
      }
      calls := calls[id := Call(now + limit, true, None)];
      pending := pending + {id};
      posting := posting + {id};
    }

    method Resolve(id: nat, o: Outcome<Response>)
      modifies `calls
      ensures calls == Settle(old(calls), id, o)
    {
      if id in calls && calls[id].outcome.None? {
        calls := calls[id := Call(calls[id].deadline, false, Some(o))];
      }
    }

    /** The end of `execute`: the post came back, or threw into the catch block. */
    method AfterPost(id: nat, threw: bool)
      requires id in posting
      modifies this
      ensures Current() == Apply(old(Current()), PostReturns(id, threw), limit)
    {
      posting := posting - {id};
      if threw && id in calls && calls[id].outcome.None? {
        Resolve(id, PostFailed);
        pending := pending - {id};
      }
    }

    /** The message handler every transport shares. */
    method OnResult(id: nat, response: Response)
      modifies this
      ensures Current() == Apply(old(Current()), Message(id, response), limit)
    {
      if id in pending {
        pending := pending - {id};
        Resolve(id, Reply(response));
      }
    }

    /** `hardReset`: drop the transport and call every pending resolver in turn. */
    method HardReset()
      modifies this
      ensures Current()
           == old(Current()).(live := false, pending := {}, calls := TerminateAll(old(calls), old(pending)))
    {
      live := false;
      var rest := pending;
      while rest != {}
        invariant rest <= pending == old(pending)
        invariant Current() == old(Current()).(live := false, calls := TerminateAll(old(calls), pending - rest))
        decreases rest
      {
        var id :| id in rest;
        Resolve(id, Terminated);
        rest := rest - {id};
      }
      assert pending - {} == pending;
      pending := {};
    }

    method OnTimer(id: nat)
      requires id in calls
      modifies this
      ensures Current() == Apply(old(Current()), TimerFires(id), limit)
    {
      if calls[id].outcome.Some? {
        return;
      }
      Resolve(id, HardLimit);
      pending := pending - {id};
      HardReset();
    }

    method DisposeExecutor()
      modifies this
      ensures Current() == Apply(old(Current()), Event.Dispose, limit)
    {
      live := false;
      pending := {};
    }
  }

  // Every reachable state

  /** A call is settled or its timer is armed and not overdue; resolvers are registered for unsettled calls only. */
  ghost predicate Consistent<Response>(s: State<Response>) {
    && (forall id :: id in s.calls ==> 1 <= id <= s.lastId)
    && (forall id :: id in s.calls ==> (s.calls[id].armed <==> s.calls[id].outcome.None?))
    && (forall id :: id in s.calls && s.calls[id].armed ==> s.now <= s.calls[id].deadline)
    && (forall id :: id in s.pending ==> id in s.calls && s.calls[id].outcome.None?)
    && (forall id :: id in s.posting ==> id in s.calls)
  }

  lemma InitialIsConsistent<Response>(now: int)
    ensures Consistent<Response>(Initial(now))
  {
  }

  lemma EventKeepsConsistent<Response>(s: State<Response>, ev: Event<Response>, limit: int)
    requires Consistent(s) && Enabled(s, ev) && limit >= 0
    ensures Consistent(Apply(s, ev, limit))
  {
  }

  /** An outcome, once there, stays; ids and deadlines stay too. */
  lemma EventKeepsOutcomes<Response>(s: State<Response>, ev: Event<Response>, limit: int, id: nat)
    requires Consistent(s) && Enabled(s, ev) && id in s.calls
    ensures var t := Apply(s, ev, limit);
            && id in t.calls && t.calls[id].deadline == s.calls[id].deadline
            && (s.calls[id].outcome.Some? ==> t.calls[id].outcome == s.calls[id].outcome)
  {
  }

  /** What can settle a call: which event, in which state. */
  ghost predicate Causes<Response>(s: State<Response>, ev: Event<Response>, id: nat, o: Outcome<Response>) {
    match o
    case Reply(response) => ev == Message(id, response) && id in s.pending
    case PostFailed => ev == PostReturns(id, true) && id in s.posting
    case HardLimit => ev == TimerFires(id) && id in s.calls && s.now == s.calls[id].deadline
    case Terminated =>
      ev.TimerFires? && ev.id != id && ev.id in s.calls && s.now == s.calls[ev.id].deadline && id in s.pending
    case Rejected => ev == Execute(false) && id == s.lastId + 1 && !s.live
  }

  lemma SettlingHasCause<Response>(s: State<Response>, ev: Event<Response>, limit: int, id: nat)
    requires Consistent(s) && Enabled(s, ev)
    requires id in s.calls ==> s.calls[id].outcome.None?
    requires id in Apply(s, ev, limit).calls && Apply(s, ev, limit).calls[id].outcome.Some?
    ensures Causes(s, ev, id, Apply(s, ev, limit).calls[id].outcome.value)
  {
  }

  /** And each cause settles: an event leaves an unsettled call with an outcome exactly if it causes that outcome. */
  lemma SettlesExactly<Response>(s: State<Response>, ev: Event<Response>, limit: int, id: nat, o: Outcome<Response>)
    requires Consistent(s) && Enabled(s, ev)
    requires id in s.calls ==> s.calls[id].outcome.None?
    ensures var t := Apply(s, ev, limit);
            id in t.calls && t.calls[id].outcome == Some(o) <==> Causes(s, ev, id, o)
  {
    var t := Apply(s, ev, limit);
    if id in t.calls && t.calls[id].outcome == Some(o) {
      SettlingHasCause(s, ev, limit, id);
    }
  }

  // Histories

  function Final<Response>(s: State<Response>, events: seq<Event<Response>>, limit: int): State<Response>
    decreases |events|
  {
    if events == [] then s else Final(Apply(s, events[0], limit), events[1..], limit)
  }

  ghost predicate Possible<Response>(s: State<Response>, events: seq<Event<Response>>, limit: int)
    decreases |events|
  {
    events == [] || (Enabled(s, events[0]) && Possible(Apply(s, events[0], limit), events[1..], limit))
  }

  lemma {:induction false} HistoryKeepsConsistent<Response>(s: State<Response>, events: seq<Event<Response>>,
                                                            limit: int)
    requires Consistent(s) && Possible(s, events, limit) && limit >= 0
    ensures Consistent(Final(s, events, limit))
    decreases |events|
  {
    hide Consistent, Enabled, Apply;
    if events != [] {
      EventKeepsConsistent(s, events[0], limit);
      HistoryKeepsConsistent(Apply(s, events[0], limit), events[1..], limit);
    }
  }

  /** A call settles at most once: whatever happens afterwards, its outcome is the one it had. */
  lemma {:induction false} SettlesAtMostOnce<Response>(s: State<Response>, events: seq<Event<Response>>, limit: int,
                                                       id: nat)
    requires Consistent(s) && Possible(s, events, limit) && limit >= 0 && id in s.calls
    ensures var t := Final(s, events, limit);
            && id in t.calls && t.calls[id].deadline == s.calls[id].deadline
            && (s.calls[id].outcome.Some? ==> t.calls[id].outcome == s.calls[id].outcome)
    decreases |events|
  {
    hide Consistent, Enabled, Apply;
    if events != [] {
      EventKeepsOutcomes(s, events[0], limit, id);
      EventKeepsConsistent(s, events[0], limit);
      SettlesAtMostOnce(Apply(s, events[0], limit), events[1..], limit, id);
    }
  }

  /** And it settles by its hard limit: in no reachable state is an unsettled call past started-plus-limit. */
  lemma SettlesByHardLimit<Response>(s: State<Response>, spawns: bool, events: seq<Event<Response>>, limit: int)
    requires Consistent(s) && limit >= 0
    requires Possible(Apply(s, Execute(spawns), limit), events, limit)
    ensures var id := s.lastId + 1;
            var t := Final(Apply(s, Execute(spawns), limit), events, limit);
            id in t.calls && (t.now > s.now + limit ==> t.calls[id].outcome.Some?)
  {
    var started := Apply(s, Execute(spawns), limit);
    EventKeepsConsistent(s, Execute(spawns), limit);
    HistoryKeepsConsistent(started, events, limit);
    SettlesAtMostOnce(started, events, limit, s.lastId + 1);
  }

  /** Every outcome in a history has its cause in the history: a reply settles only the call that posted its id. */
  lemma {:induction false} OutcomesHaveCauses<Response>(s: State<Response>, events: seq<Event<Response>>, limit: int,
                                                        id: nat)
    requires Consistent(s) && Possible(s, events, limit) && limit >= 0
    requires id in s.calls ==> s.calls[id].outcome.None?
    requires id in Final(s, events, limit).calls && Final(s, events, limit).calls[id].outcome.Some?
    ensures exists k :: 0 <= k < |events|
                     && Causes(Final(s, events[..k], limit), events[k], id,
                               Final(s, events, limit).calls[id].outcome.value)
    decreases |events|
  {
    hide Consistent, Enabled, Causes, Apply;
    var o := Final(s, events, limit).calls[id].outcome.value;
    var t := Apply(s, events[0], limit);
    EventKeepsConsistent(s, events[0], limit);
    if id in t.calls && t.calls[id].outcome.Some? {
      SettlingHasCause(s, events[0], limit, id);
      SettlesAtMostOnce(t, events[1..], limit, id);
      assert events[..0] == [];
      assert Causes(Final(s, events[..0], limit), events[0], id, o);
    } else {
      OutcomesHaveCauses(t, events[1..], limit, id);
      var k :| 0 <= k < |events[1..]| && Causes(Final(t, events[1..][..k], limit), events[1..][k], id, o);
      assert events[..k + 1][1..] == events[1..][..k];
      assert Causes(Final(s, events[..k + 1], limit), events[k + 1], id, o);
    }
  }

  /** The first event to cause an outcome of the call does so. */
  ghost predicate FirstCause<Response(!new)>(s: State<Response>, events: seq<Event<Response>>, limit: int, id: nat,
                                             k: nat, o: Outcome<Response>) {
    && k < |events| && Causes(Final(s, events[..k], limit), events[k], id, o)
    && forall j, p :: 0 <= j < k ==> !Causes(Final(s, events[..j], limit), events[j], id, p)
  }

  /** Over any history the outcome of a call is that of its first cause. */
  lemma {:induction false} FirstCauseIsOutcome<Response(!new)>(s: State<Response>, events: seq<Event<Response>>,
                                                               limit: int, id: nat, k: nat, o: Outcome<Response>)
    requires Consistent(s) && Possible(s, events, limit) && limit >= 0
    requires id in s.calls ==> s.calls[id].outcome.None?
    requires FirstCause(s, events, limit, id, k, o)
    ensures var t := Final(s, events, limit);
            id in t.calls && t.calls[id].outcome == Some(o)
    decreases k
  {
    hide Consistent, Enabled, Apply, Causes;
    var t := Apply(s, events[0], limit);
    EventKeepsConsistent(s, events[0], limit);
    assert events[..0] == [];
    if k == 0 {
      SettlesExactly(s, events[0], limit, id, o);
      SettlesAtMostOnce(t, events[1..], limit, id);
    } else {
      forall p
        ensures !(id in t.calls && t.calls[id].outcome == Some(p))
      {
        SettlesExactly(s, events[0], limit, id, p);
        assert !Causes(Final(s, events[..0], limit), events[0], id, p);
      }
      forall j | 0 <= j < k
        ensures Final(t, events[1..][..j], limit) == Final(s, events[..j + 1], limit)
      {
        assert events[..j + 1][1..] == events[1..][..j];
      }
      assert forall j, p :: 0 <= j < k - 1 ==> !Causes(Final(t, events[1..][..j], limit), events[1..][j], id, p);
      FirstCauseIsOutcome(t, events[1..], limit, id, k - 1, o);
    }
  }

  // The fate of a call, told from the events alone

  /** What comes of an unsettled call; `waiting`: its resolver is registered. */
  function Fate<Response>(events: seq<Event<Response>>, id: nat, waiting: bool): Option<Outcome<Response>> {
    if events == [] then None
    else
      match events[0]
      case Message(i, response) =>
        if i == id && waiting then Some(Reply(response)) else Fate(events[1..], id, waiting)
      case PostReturns(i, threw) => if i == id && threw then Some(PostFailed) else Fate(events[1..], id, waiting)
      case TimerFires(i) =>
        if i == id then Some(HardLimit) else if waiting then Some(Terminated) else Fate(events[1..], id, waiting)
      case Dispose => Fate(events[1..], id, false)
      case Execute(_) => Fate(events[1..], id, waiting)
      case Tick(_) => Fate(events[1..], id, waiting)
  }

  lemma {:induction false} OutcomeIsFate<Response>(s: State<Response>, events: seq<Event<Response>>, limit: int,
                                                   id: nat)
    requires Consistent(s) && Possible(s, events, limit) && limit >= 0
    requires id in s.calls && s.calls[id].outcome.None?
    ensures var t := Final(s, events, limit);
            id in t.calls && t.calls[id].outcome == Fate(events, id, id in s.pending)
    decreases |events|
  {
    hide Consistent, Apply;
    if events != [] {
      var t := Apply(s, events[0], limit);
      EventKeepsConsistent(s, events[0], limit);
      FateStep(s, events[0], limit, id);
      if t.calls[id].outcome.None? {
        OutcomeIsFate(t, events[1..], limit, id);
      } else {
        SettlesAtMostOnce(t, events[1..], limit, id);
      }
    }
  }

  lemma FateStep<Response>(s: State<Response>, ev: Event<Response>, limit: int, id: nat)
    requires Consistent(s) && Enabled(s, ev)
    requires id in s.calls && s.calls[id].outcome.None?
    ensures var t, waiting := Apply(s, ev, limit), id in s.pending;
            && id in t.calls && t.calls[id].outcome == Fate([ev], id, waiting)
            && (t.calls[id].outcome.None? ==> (id in t.pending <==> waiting && ev != Event.Dispose))
  {
    assert [ev][1..] == [];
  }

  /**
   * A call from its beginning: rejected at once if there is no transport and none can be made, else it comes to what
   * the first of the events that concern it says.
   */
  lemma CallComesTo<Response>(s: State<Response>, spawns: bool, events: seq<Event<Response>>, limit: int)
    requires Consistent(s) && limit >= 0
    requires Possible(Apply(s, Execute(spawns), limit), events, limit)
    ensures var id := s.lastId + 1;
            var t := Final(Apply(s, Execute(spawns), limit), events, limit);
            id in t.calls
            && t.calls[id].outcome == if !s.live && !spawns then Some(Rejected) else Fate(events, id, true)
  {
    hide Final, Possible;
    var started := Apply(s, Execute(spawns), limit);
    EventKeepsConsistent(s, Execute(spawns), limit);
    if !s.live && !spawns {
      SettlesAtMostOnce(started, events, limit, s.lastId + 1);
    } else {
      OutcomeIsFate(started, events, limit, s.lastId + 1);
    }
  }

  /** A reply that is not late: it is the outcome. */
  lemma ReplySettles<Response>(s: State<Response>, events: seq<Event<Response>>, limit: int, id: nat, k: nat)
    requires Consistent(s) && Possible(s, events, limit) && limit >= 0
    requires id in s.calls && s.calls[id].outcome.None? && id in s.pending
    requires k < |events| && events[k].Message? && events[k].id == id
    requires forall j :: 0 <= j < k ==> !events[j].TimerFires? && !events[j].Dispose?
    requires forall j :: 0 <= j < k ==> !(events[j].Message? && events[j].id == id)
    requires forall j :: 0 <= j < k ==> events[j] != PostReturns(id, true)
    ensures var t := Final(s, events, limit);
            id in t.calls && t.calls[id].outcome == Some(Reply(events[k].response))
  {
    OutcomeIsFate(s, events, limit, id);
    FateOfReply(events, id, k);
  }

  lemma {:induction false} FateOfReply<Response>(events: seq<Event<Response>>, id: nat, k: nat)
    requires k < |events| && events[k].Message? && events[k].id == id
    requires forall j :: 0 <= j < k ==> !events[j].TimerFires? && !events[j].Dispose?
    requires forall j :: 0 <= j < k ==> !(events[j].Message? && events[j].id == id)
    requires forall j :: 0 <= j < k ==> events[j] != PostReturns(id, true)
    ensures Fate(events, id, true) == Some(Reply(events[k].response))
    decreases k
  {
    if k > 0 {
      assert events[0] != PostReturns(id, true);
      forall j | 0 <= j < k - 1
        ensures events[1..][j] != PostReturns(id, true)
      {
        assert events[1..][j] == events[j + 1];
      }
      FateOfReply(events[1..], id, k - 1);
    }
  }

  /** When a timer ends a call, the clock stands at the call's start plus max(100, timeout) plus 1,000. */
  lemma TimesOutExactly<Response>(s: State<Response>, spawns: bool, events: seq<Event<Response>>, timeoutMs: int,
                                  k: nat)
    requires var limit := HardLimitMs(timeoutMs);
             Consistent(s) && Possible(Apply(s, Execute(spawns), limit), events, limit)
    requires k < |events| && events[k] == TimerFires(s.lastId + 1)
    ensures Final(Apply(s, Execute(spawns), HardLimitMs(timeoutMs)), events[..k], HardLimitMs(timeoutMs)).now
         == s.now + 1_000 + if timeoutMs > 100 then timeoutMs else 100
  {
    hide Final, Possible;
    var limit, id := HardLimitMs(timeoutMs), s.lastId + 1;
    var started := Apply(s, Execute(spawns), limit);
    EventKeepsConsistent(s, Execute(spawns), limit);
    PossibleAppends(started, events, k, limit);
    HistoryKeepsConsistent(started, events[..k], limit);
    SettlesAtMostOnce(started, events[..k], limit, id);
    EnabledFirst(Final(started, events[..k], limit), events[k..], limit);
  }

  lemma EnabledFirst<Response>(s: State<Response>, events: seq<Event<Response>>, limit: int)
    requires events != [] && Possible(s, events, limit)
    ensures Enabled(s, events[0])
  {
  }

  /** A transport exists if and only if one was made after the last reset and the last dispose. */
  lemma {:induction false} LiveExactly<Response>(s: State<Response>, events: seq<Event<Response>>, limit: int)
    requires Consistent(s) && Possible(s, events, limit) && limit >= 0
    ensures Final(s, events, limit).live <==> Transport(s.live, events)
    decreases |events|
  {
    hide Consistent;
    if events != [] {
      EventKeepsConsistent(s, events[0], limit);
      LiveStep(s, events[0], limit);
      LiveExactly(Apply(s, events[0], limit), events[1..], limit);
    }
  }

  predicate Transport<Response>(before: bool, events: seq<Event<Response>>)
    decreases |events|
  {
    if events == [] then before
    else
      Transport((before || events[0] == Execute(true)) && !events[0].TimerFires? && !events[0].Dispose?, events[1..])
  }

  lemma LiveStep<Response>(s: State<Response>, ev: Event<Response>, limit: int)
    requires Consistent(s) && Enabled(s, ev)
    ensures Apply(s, ev, limit).live <==> (s.live || ev == Execute(true)) && !ev.TimerFires? && !ev.Dispose?
  {
  }

  /** A call that dispose stranded settles in no other way than by its own timer, or by its own post failing. */
  lemma {:induction false} StrandedCallsTimeOut<Response>(s: State<Response>, events: seq<Event<Response>>,
                                                          limit: int, id: nat)
    requires Consistent(s) && Possible(s, events, limit) && limit >= 0
    requires id in s.calls && s.calls[id].outcome.None? && id !in s.pending
    ensures id in Final(s, events, limit).calls
    ensures Final(s, events, limit).calls[id].outcome in {None, Some(HardLimit), Some(PostFailed)}
    decreases |events|
  {
    if events != [] {
      var t := Apply(s, events[0], limit);
      EventKeepsConsistent(s, events[0], limit);
      StrandedStep(s, events[0], limit, id);
      if t.calls[id].outcome.None? {
        StrandedCallsTimeOut(t, events[1..], limit, id);
      } else {
        SettlesAtMostOnce(t, events[1..], limit, id);
      }
    }
  }

  lemma StrandedStep<Response>(s: State<Response>, ev: Event<Response>, limit: int, id: nat)
    requires Consistent(s) && Enabled(s, ev)
    requires id in s.calls && s.calls[id].outcome.None? && id !in s.pending
    ensures var t := Apply(s, ev, limit);
            && id in t.calls && t.calls[id].outcome in {None, Some(HardLimit), Some(PostFailed)}
            && (t.calls[id].outcome.None? ==> id !in t.pending)
  {
  }

  // From a new executor

  lemma {:induction false} FinalAppends<Response>(s: State<Response>, events: seq<Event<Response>>, k: nat, limit: int)
    requires k <= |events|
    ensures Final(s, events, limit) == Final(Final(s, events[..k], limit), events[k..], limit)
    decreases |events|
  {
    hide Apply;
    if k == 0 {
      assert events[..0] == [] && events[0..] == events;
    } else {
      FinalAppends(Apply(s, events[0], limit), events[1..], k - 1, limit);
      assert events[..k][1..] == events[1..][..k - 1] && events[1..][k - 1..] == events[k..];
    }
  }

  lemma {:induction false} PossibleAppends<Response>(s: State<Response>, events: seq<Event<Response>>, k: nat,
                                                     limit: int)
    requires k <= |events| && Possible(s, events, limit)
    ensures Possible(s, events[..k], limit) && Possible(Final(s, events[..k], limit), events[k..], limit)
    decreases |events|
  {
    hide Apply, Enabled;
    if k == 0 {
      assert events[..0] == [] && events[0..] == events;
    } else {
      PossibleAppends(Apply(s, events[0], limit), events[1..], k - 1, limit);
      assert events[..k][1..] == events[1..][..k - 1] && events[1..][k - 1..] == events[k..];
    }
  }

  /**
   * Everything that may ever happen to a new executor: a call that has an outcome at some point has the same one at the
   * end; every outcome has its cause in the history; a call that dispose stranded ends by its own timer or failed post;
   * and nobody waits beyond the hard limit.
   */
  lemma ExactlyOnce<Response>(now: int, events: seq<Event<Response>>, limit: int, id: nat, k: nat)
    requires limit >= 0 && Possible(Initial(now), events, limit) && k <= |events|
    ensures var s := Initial(now);
            var mid, end := Final(s, events[..k], limit), Final(s, events, limit);
            && (id in mid.calls ==> id in end.calls && end.calls[id].deadline == mid.calls[id].deadline)
            && (id in mid.calls && mid.calls[id].outcome.Some? ==> end.calls[id].outcome == mid.calls[id].outcome)
            && (id in mid.calls && mid.calls[id].outcome.None? && id !in mid.pending ==>
                  end.calls[id].outcome in {None, Some(HardLimit), Some(PostFailed)})
            && (id in end.calls && end.now > end.calls[id].deadline ==> end.calls[id].outcome.Some?)
            && (id in end.calls && end.calls[id].outcome.Some? ==>
                  exists j :: 0 <= j < |events|
                           && Causes(Final(s, events[..j], limit), events[j], id, end.calls[id].outcome.value))
  {
    hide Final, Possible, Apply, Causes;
    var s := Initial<Response>(now);
    InitialIsConsistent<Response>(now);
    HistoryKeepsConsistent(s, events, limit);
    PossibleAppends(s, events, k, limit);
    FinalAppends(s, events, k, limit);
    HistoryKeepsConsistent(s, events[..k], limit);
    var mid := Final(s, events[..k], limit);
    if id in mid.calls {
      SettlesAtMostOnce(mid, events[k..], limit, id);
      if mid.calls[id].outcome.None? && id !in mid.pending {
        StrandedCallsTimeOut(mid, events[k..], limit, id);
      }
    }
    if id in Final(s, events, limit).calls && Final(s, events, limit).calls[id].outcome.Some? {
      OutcomesHaveCauses(s, events, limit, id);
    }
  }
}
