/**
 * The retry loops of the two execution modes. A guest is a function of the state and arguments it is given; an attempt
 * either returns or throws, and leaves its state mutated either way.
 */
module Retries {
  import opened Options

  datatype Attempt<+S, +V> =
    | Returns(value: V, state: S, logs: seq<string>)
    | Throws(message: string, isError: bool, state: S, logs: seq<string>)

  datatype Outcome<+S, +V> = Outcome(value: Option<V>, error: string, state: S, logs: seq<string>)

  predicate Ok<S, V>(o: Outcome<S, V>) { o.value.Some? }

  // The inline loop: every attempt continues on the state the previous one left

  /** GuestInvoker rethrows errors and replaces anything else that was thrown. */
  function ThrownInline(message: string, isError: bool): string {
    if isError then message else "Sandbox invocation failed."
  }

  function InlineOutcome<S, A, V>(guest: (S, A) -> Attempt<S, V>, args: A, state: S, attempts: nat, logs: seq<string>)
    : Outcome<S, V>
    requires attempts > 0
    decreases attempts
  {
    match guest(state, args)
    case Returns(value, after, written) => Outcome(Some(value), "", after, logs + written)
    case Throws(message, isError, after, written) =>
      if attempts == 1 then Outcome(None, ThrownInline(message, isError), after, logs + written)
      else InlineOutcome(guest, args, after, attempts - 1, logs + written)
  }

  /** `InlineExecutor.execute` with `GuestInvoker.invoke`, for a run within the memory budget. */
  method ExecuteInline<S, A, V>(guest: (S, A) -> Attempt<S, V>, args: A, state: S, retryCount: int)
    returns (o: Outcome<S, V>)
    ensures o == InlineOutcome(guest, args, state, 1 + (if retryCount > 0 then retryCount else 0), [])
  {
    var retries: nat := if retryCount > 0 then retryCount else 0;
    var ctxState := state;
    var logs: seq<string> := [];
    var lastError := "";
    for attempt := 0 to retries + 1
      invariant attempt <= retries ==>
                  InlineOutcome(guest, args, state, retries + 1, [])
                  == InlineOutcome(guest, args, ctxState, retries + 1 - attempt, logs)
      invariant attempt == retries + 1 ==>
                  InlineOutcome(guest, args, state, retries + 1, []) == Outcome(None, lastError, ctxState, logs)
    {
      match guest(ctxState, args)
      case Returns(value, after, written) =>
        return Outcome(Some(value), "", after, logs + written);
      case Throws(message, isError, after, written) =>
        ctxState, logs, lastError := after, logs + written, ThrownInline(message, isError);
    }
    return Outcome(None, lastError, ctxState, logs);
  }

  /** The state attempt k starts from: what the k attempts before it made of the first. */
  function StateBefore<S, A, V>(guest: (S, A) -> Attempt<S, V>, args: A, state: S, k: nat): S {
    if k == 0 then state else guest(StateBefore(guest, args, state, k - 1), args).state
  }

  /** What the first n attempts logged, in order. */
  function ChainLogs<S, A, V>(guest: (S, A) -> Attempt<S, V>, args: A, state: S, n: nat): seq<string> {
    if n == 0 then []
    else ChainLogs(guest, args, state, n - 1) + guest(StateBefore(guest, args, state, n - 1), args).logs
  }

  /** Attempt k, the first of the chain to return or else the last allowed, decided the outcome. */
  ghost predicate ChainDecidedBy<S, A, V>(guest: (S, A) -> Attempt<S, V>, args: A, state: S, attempts: nat,
                                          o: Outcome<S, V>, k: nat) {
    && k < attempts
    && (forall i :: 0 <= i < k ==> guest(StateBefore(guest, args, state, i), args).Throws?)
    && o.state == StateBefore(guest, args, state, k + 1)
    && o.logs == ChainLogs(guest, args, state, k + 1)
    && match guest(StateBefore(guest, args, state, k), args)
       case Returns(value, _, _) => o.value == Some(value)
       case Throws(message, isError, _, _) =>
         k == attempts - 1 && o.value.None? && o.error == ThrownInline(message, isError)
  }

  ghost predicate ChainDecided<S, A, V>(guest: (S, A) -> Attempt<S, V>, args: A, state: S, attempts: nat,
                                        o: Outcome<S, V>) {
    exists k: nat :: ChainDecidedBy(guest, args, state, attempts, o, k)
  }

  /**
   * What the inline loop does: at most the allowed attempts, each on the state the one before it left; the first to
   * return decides the value, the last one the error, and the state is the chain's in either case.
   */
  lemma {:induction false} InlineIsAChain<S, A, V>(guest: (S, A) -> Attempt<S, V>, args: A, state: S, attempts: nat,
                                                  from: nat)
    requires from < attempts
    requires forall i :: 0 <= i < from ==> guest(StateBefore(guest, args, state, i), args).Throws?
    ensures var here, logs := StateBefore(guest, args, state, from), ChainLogs(guest, args, state, from);
            ChainDecided(guest, args, state, attempts, InlineOutcome(guest, args, here, attempts - from, logs))
    decreases attempts - from
  {
    var here := StateBefore(guest, args, state, from);
    var o := InlineOutcome(guest, args, here, attempts - from, ChainLogs(guest, args, state, from));
    if guest(here, args).Returns? || from == attempts - 1 {
      assert ChainDecidedBy(guest, args, state, attempts, o, from);
    } else {
      InlineIsAChain(guest, args, state, attempts, from + 1);
    }
  }

  // The worker's loop: every attempt starts from a clone of the original state. Here attempts may differ, so that
  // guest(i) is the behaviour of attempt i.

  function WorkerOutcome<S, A, V>(guest: nat -> (S, A) -> Attempt<S, V>, args: A, original: S, attempt: nat,
                                  last: nat, logs: seq<string>): Outcome<S, V>
    requires attempt <= last
    decreases last - attempt
  {
    match guest(attempt)(original, args)
    case Returns(value, after, written) => Outcome(Some(value), "", after, logs + written)
    case Throws(message, _, _, written) =>
      if attempt == last then Outcome(None, message, original, logs + written)
      else WorkerOutcome(guest, args, original, attempt + 1, last, logs + written)
  }

  /**
   * `runGuestRequest`: the code scan and the budget are checked again, and then the attempts run. None: the state could
   * not be cloned, which throws past the loop's catch block.
   */
  method RunGuestRequest<S, A, V>(guest: nat -> (S, A) -> Attempt<S, V>, args: A, originalState: S, retryCount: int,
                                  unsafe: Option<string>, overBudget: Option<string>, cloneable: bool)
    returns (o: Option<Outcome<S, V>>)
    ensures o == if unsafe.Some? then Some(Outcome(None, unsafe.value, originalState, []))
                 else if overBudget.Some? then Some(Outcome(None, overBudget.value, originalState, []))
                 else if !cloneable then None
                 else Some(WorkerOutcome(guest, args, originalState, 0, if retryCount > 0 then retryCount else 0, []))
  {
    if unsafe.Some? {
      return Some(Outcome(None, unsafe.value, originalState, []));
    }
    if overBudget.Some? {
      return Some(Outcome(None, overBudget.value, originalState, []));
    }
    var retries: nat := if retryCount > 0 then retryCount else 0;
    var logs: seq<string> := [];
    var lastError := "";
    for attempt := 0 to retries + 1
      invariant attempt > 0 ==> cloneable
      invariant attempt <= retries ==>
                  WorkerOutcome(guest, args, originalState, 0, retries, [])
                  == WorkerOutcome(guest, args, originalState, attempt, retries, logs)
      invariant attempt == retries + 1 ==>
                  WorkerOutcome(guest, args, originalState, 0, retries, [])
                  == Outcome(None, lastError, originalState, logs)
    {
      if !cloneable {
        return None;
      }
      var workingState := originalState;
      match guest(attempt)(workingState, args)
      case Returns(value, after, written) =>
        return Some(Outcome(Some(value), "", after, logs + written));
      case Throws(message, _, _, written) =>
        logs, lastError := logs + written, message;
    }
    return Some(Outcome(None, lastError, originalState, logs));
  }

  /** The logs of attempts from..end-1, in order. */
  function AttemptLogs<S, A, V>(guest: nat -> (S, A) -> Attempt<S, V>, args: A, original: S, from: nat,
                                end: nat): seq<string>
    requires from <= end
    decreases end - from
  {
    if from == end then [] else guest(from)(original, args).logs + AttemptLogs(guest, args, original, from + 1, end)
  }

  /** Attempt k, the first in attempt..last to return or else the last, decided the outcome. */
  ghost predicate DecidedBy<S, A, V>(guest: nat -> (S, A) -> Attempt<S, V>, args: A, original: S, attempt: nat,
                                     last: nat,
                                     logs: seq<string>, o: Outcome<S, V>, k: nat) {
    && attempt <= k <= last
    && (forall i :: attempt <= i < k ==> guest(i)(original, args).Throws?)
    && o.logs == logs + AttemptLogs(guest, args, original, attempt, k + 1)
    && match guest(k)(original, args)
       case Returns(value, after, _) => o.value == Some(value) && o.state == after
       case Throws(message, _, _, _) => k == last && o.value.None? && o.error == message && o.state == original
  }

  /**
   * Atomicity of retries: success is the first returning attempt's value and state, computed from the original state
   * alone; failure hands the original state back. Logs are those of all attempts made, in order.
   */
  lemma {:induction false} RetriesAreAtomic<S, A, V>(guest: nat -> (S, A) -> Attempt<S, V>, args: A, original: S,
                                                    attempt: nat, last: nat, logs: seq<string>)
    requires attempt <= last
    ensures exists k: nat :: DecidedBy(guest, args, original, attempt, last, logs,
                                  WorkerOutcome(guest, args, original, attempt, last, logs), k)
    decreases last - attempt
  {
    var o := WorkerOutcome(guest, args, original, attempt, last, logs);
    var a := guest(attempt)(original, args);
    if a.Returns? || attempt == last {
      assert AttemptLogs(guest, args, original, attempt, attempt + 1) == a.logs + [];
      assert DecidedBy(guest, args, original, attempt, last, logs, o, attempt);
    } else {
      RetriesAreAtomic(guest, args, original, attempt + 1, last, logs + a.logs);
      var k: nat :| DecidedBy(guest, args, original, attempt + 1, last, logs + a.logs, o, k);
      assert logs + a.logs + AttemptLogs(guest, args, original, attempt + 1, k + 1)
          == logs + AttemptLogs(guest, args, original, attempt, k + 1);
      assert DecidedBy(guest, args, original, attempt, last, logs, o, k);
    }
  }

  // The boundary a worker stands behind

  /**
   * What structured cloning makes of states, arguments and values, None for what it refuses; the text with which it
   * refuses; and the text of a call that never got its reply.
   */
  datatype Boundary<!S, !A, !V> =
    Boundary(state: S -> Option<S>, args: A -> Option<A>, value: V -> Option<V>, refusal: string, hardLimit: string)

  /** A reply with a part that cannot be cloned is never delivered, and the call ends at its hard limit without logs. */
  function Delivered<S, A, V>(b: Boundary<S, A, V>, sent: S, reply: Outcome<S, V>): Outcome<S, V> {
    var value := if reply.value.Some? then b.value(reply.value.value) else None;
    if b.state(reply.state).None? || (reply.value.Some? && value.None?) then Outcome(None, b.hardLimit, sent, [])
    else reply.(value := value, state := b.state(reply.state).value)
  }

  /** A call through the boundary: a request that cannot be cloned makes the post throw. */
  function WorkerCall<S, A, V>(b: Boundary<S, A, V>, guest: nat -> (S, A) -> Attempt<S, V>, args: A, state: S,
                               retries: nat): Outcome<S, V> {
    if b.state(state).None? || b.args(args).None? then Outcome(None, b.refusal, state, [])
    else
      var there := b.state(state).value;
      if b.state(there).None? then Outcome(None, b.hardLimit, state, [])
      else Delivered(b, state, WorkerOutcome(guest, b.args(args).value, there, 0, retries, []))
  }

  /**
   * `WorkerExecutor.execute` over a transport, when no other event ends the call and the worker's scan and budget pass
   * as the host's did. A clone of a clone is taken to equal it.
   */
  method ExecuteInWorker<S, A, V>(b: Boundary<S, A, V>, guest: nat -> (S, A) -> Attempt<S, V>, args: A, state: S,
                                  retryCount: int)
    returns (o: Outcome<S, V>)
    ensures o == WorkerCall(b, guest, args, state, if retryCount > 0 then retryCount else 0)
  {
    var sentState, sentArgs := b.state(state), b.args(args);
    if sentState.None? || sentArgs.None? {
      return Outcome(None, b.refusal, state, []);
    }
    var reply :=
      RunGuestRequest(guest, sentArgs.value, sentState.value, retryCount, None, None, b.state(sentState.value).Some?);
    if reply.None? {
      return Outcome(None, b.hardLimit, state, []);
    }
    o := Delivered(b, state, reply.value);
  }

  // Where the modes differ, and so where replay, which is always inline, can differ from a worker sandbox

  /** A guest that does the same in every attempt on the same state. */
  function Deterministic<S, A, V>(guest: (S, A) -> Attempt<S, V>): nat -> (S, A) -> Attempt<S, V> {
    _ => guest
  }

  /** Same value, error and logs, and the same state committed: on success the outcome's, else the one from before. */
  ghost predicate SameForCaller<S, V>(state: S, o: Outcome<S, V>, q: Outcome<S, V>) {
    && o.value == q.value && o.error == q.error && o.logs == q.logs
    && (if Ok(o) then o.state else state) == (if Ok(q) then q.state else state)
  }

  ghost predicate ModesAlike<S, A, V>(b: Boundary<S, A, V>, guest: (S, A) -> Attempt<S, V>, args: A, state: S,
                                      retries: nat) {
    SameForCaller(state, InlineOutcome(guest, args, state, retries + 1, []),
                  WorkerCall(b, Deterministic(guest), args, state, retries))
  }

  /** Cloning gives back the state and the arguments themselves. */
  ghost predicate Posts<S, A, V>(b: Boundary<S, A, V>, args: A, state: S) {
    b.state(state) == Some(state) && b.args(args) == Some(args)
  }

  /** The attempt ends with a value and a state that cloning gives back, or throws what reads alike in both modes. */
  ghost predicate Crosses<S, A, V>(b: Boundary<S, A, V>, a: Attempt<S, V>) {
    match a
    case Returns(value, after, _) => b.value(value) == Some(value) && b.state(after) == Some(after)
    case Throws(message, isError, _, _) => ThrownInline(message, isError) == message
  }

  function Repeated(logs: seq<string>, n: nat): seq<string> {
    if n == 0 then [] else logs + Repeated(logs, n - 1)
  }

  predicate ThrowsAt<S, A, V>(guest: (S, A) -> Attempt<S, V>, args: A, state: S, i: nat) {
    guest(StateBefore(guest, args, state, i), args).Throws?
  }

  ghost predicate AllThrow<S, A, V>(guest: (S, A) -> Attempt<S, V>, args: A, state: S, retries: nat) {
    forall i: nat :: i <= retries ==> ThrowsAt(guest, args, state, i)
  }

  /** Every attempt of the inline chain throws, the last with the first one's text; the logs are the first's again. */
  ghost predicate FailsAlike<S, A, V>(guest: (S, A) -> Attempt<S, V>, args: A, state: S, retries: nat)
    requires guest(state, args).Throws?
  {
    var first, last := guest(state, args), guest(StateBefore(guest, args, state, retries), args);
    && AllThrow(guest, args, state, retries)
    && last.Throws? && ThrownInline(last.message, last.isError) == first.message
    && ChainLogs(guest, args, state, retries + 1) == Repeated(first.logs, retries + 1)
  }

  lemma {:induction false} WorkerRepeats<S, A, V>(guest: (S, A) -> Attempt<S, V>, args: A, state: S, attempt: nat,
                                                  last: nat, logs: seq<string>)
    requires attempt <= last && guest(state, args).Throws?
    ensures var first := guest(state, args);
            WorkerOutcome(Deterministic(guest), args, state, attempt, last, logs)
            == Outcome(None, first.message, state, logs + Repeated(first.logs, last - attempt + 1))
    decreases last - attempt
  {
    var l := guest(state, args).logs;
    if attempt == last {
      assert Repeated(l, 1) == l + Repeated(l, 0) == l;
    } else {
      WorkerRepeats(guest, args, state, attempt + 1, last, logs + l);
      assert logs + l + Repeated(l, last - attempt) == logs + Repeated(l, last - attempt + 1);
    }
  }

  /** Such a guest fails in the worker, and its last error is delivered. */
  lemma FailsInWorker<S, A, V>(b: Boundary<S, A, V>, guest: (S, A) -> Attempt<S, V>, args: A, state: S, retries: nat)
    requires Posts(b, args, state) && guest(state, args).Throws?
    ensures var first := guest(state, args);
            WorkerCall(b, Deterministic(guest), args, state, retries)
            == Outcome(None, first.message, state, Repeated(first.logs, retries + 1))
  {
    hide WorkerOutcome, Repeated;
    var again := Repeated(guest(state, args).logs, retries + 1);
    WorkerRepeats(guest, args, state, 0, retries, []);
    assert [] + again == again;
  }

  /** And inline it fails as the chain does, if the whole chain throws. */
  lemma FailsInline<S, A, V>(guest: (S, A) -> Attempt<S, V>, args: A, state: S, retries: nat)
    ensures var o, last := InlineOutcome(guest, args, state, retries + 1, []),
                           guest(StateBefore(guest, args, state, retries), args);
            && (!Ok(o) <==> AllThrow(guest, args, state, retries))
            && (!Ok(o) ==> last.Throws? && o.error == ThrownInline(last.message, last.isError)
                           && o.logs == ChainLogs(guest, args, state, retries + 1))
  {
    hide StateBefore, ChainLogs, InlineOutcome;
    assert StateBefore(guest, args, state, 0) == state && ChainLogs(guest, args, state, 0) == [] by {
      ChainStarts(guest, args, state);
    }
    InlineIsAChain(guest, args, state, retries + 1, 0);
    var o := InlineOutcome(guest, args, state, retries + 1, []);
    var k: nat :| ChainDecidedBy(guest, args, state, retries + 1, o, k);
    assert Ok(o) <==> !ThrowsAt(guest, args, state, k);
    if !Ok(o) {
      assert k == retries;
      assert forall i: nat :: i < k ==> ThrowsAt(guest, args, state, i);
    }
  }

  lemma ChainStarts<S, A, V>(guest: (S, A) -> Attempt<S, V>, args: A, state: S)
    ensures StateBefore(guest, args, state, 0) == state && ChainLogs(guest, args, state, 0) == []
  {
  }

  /**
   * One guest on a request that can be posted, under any number of retries. If its first attempt returns, the modes are
   * alike exactly when what it returns crosses; if that attempt throws, exactly when the inline chain fails like it.
   */
  lemma ModesAlikeExactly<S, A, V>(b: Boundary<S, A, V>, guest: (S, A) -> Attempt<S, V>, args: A, state: S,
                                   retries: nat)
    requires Posts(b, args, state)
    ensures ModesAlike(b, guest, args, state, retries)
            <==> if guest(state, args).Returns? then Crosses(b, guest(state, args))
                 else FailsAlike(guest, args, state, retries)
  {
    var first := guest(state, args);
    if first.Throws? {
      ThrowsAlikeExactly(b, guest, args, state, retries);
    } else {
      assert [] + first.logs == first.logs;
    }
  }

  lemma ThrowsAlikeExactly<S, A, V>(b: Boundary<S, A, V>, guest: (S, A) -> Attempt<S, V>, args: A, state: S,
                                    retries: nat)
    requires Posts(b, args, state) && guest(state, args).Throws?
    ensures ModesAlike(b, guest, args, state, retries) <==> FailsAlike(guest, args, state, retries)
  {
    hide InlineOutcome, WorkerCall, StateBefore, ChainLogs, Repeated, ThrownInline, AllThrow;
    FailsInWorker(b, guest, args, state, retries);
    FailsInline(guest, args, state, retries);
  }

  /** Without retries the modes are alike exactly when the one attempt's end crosses. */
  lemma OneAttemptAlikeExactly<S, A, V>(b: Boundary<S, A, V>, guest: (S, A) -> Attempt<S, V>, args: A, state: S)
    requires Posts(b, args, state)
    ensures ModesAlike(b, guest, args, state, 0) <==> Crosses(b, guest(state, args))
  {
    assert [] + guest(state, args).logs == guest(state, args).logs;
  }

  /** A request that cannot be cloned: alike exactly when the guest fails with the words of the refusal, unlogged. */
  lemma UnpostableAlikeExactly<S, A, V>(b: Boundary<S, A, V>, guest: (S, A) -> Attempt<S, V>, args: A, state: S,
                                        retries: nat)
    requires b.state(state).None? || b.args(args).None?
    ensures var o := InlineOutcome(guest, args, state, retries + 1, []);
            ModesAlike(b, guest, args, state, retries) <==> !Ok(o) && o.error == b.refusal && o.logs == []
  {
  }

  // All guests

  ghost predicate ThrowsErrorsOnly<S(!new), A(!new), V>(guest: (S, A) -> Attempt<S, V>) {
    forall s, a :: guest(s, a).Throws? ==> guest(s, a).isError
  }

  ghost predicate EverythingCrosses(b: Boundary<int, int, int>) {
    && (forall s :: b.state(s) == Some(s))
    && (forall a :: b.args(a) == Some(a))
    && (forall v :: b.value(v) == Some(v))
  }

  /** Throws on its first attempt, and leaves a mark by which the next one knows. */
  function MarksFailure(n: int, args: int): Attempt<int, int> {
    if n == 0 then Throws("first", true, n + 1, []) else Returns(n, n, [])
  }

  /** With any number of retries from one upwards that guest fails in the worker and succeeds inline. */
  lemma ModesDifferOnRetry(args: int, retries: nat)
    requires retries > 0
    ensures Ok(InlineOutcome(MarksFailure, args, 0, retries + 1, []))
    ensures !Ok(WorkerOutcome(Deterministic(MarksFailure), args, 0, 0, retries, []))
  {
    WorkerRepeats(MarksFailure, args, 0, 0, retries, []);
    assert InlineOutcome(MarksFailure, args, 0, retries + 1, []) == InlineOutcome(MarksFailure, args, 1, retries, []);
  }

  /** Returns the value and the state it is made with, whatever it is given. */
  function Yields(value: int, after: int): (int, int) -> Attempt<int, int> {
    (s, a) => Returns(value, after, [])
  }

  /** Returns 1 if given one argument, else 0. */
  function Recognises(arg: int): (int, int) -> Attempt<int, int> {
    (s, a) => Returns(if a == arg then 1 else 0, s, [])
  }

  lemma YieldsShows(b: Boundary<int, int, int>, value: int, after: int, retries: nat)
    requires b.state(after) != Some(after) || b.value(value) != Some(value)
    ensures !ModesAlike(b, Yields(value, after), 0, 0, retries)
  {
  }

  lemma RecognisesShows(b: Boundary<int, int, int>, arg: int, retries: nat)
    requires b.args(arg) != Some(arg) && b.value(0) == Some(0)
    ensures !ModesAlike(b, Recognises(arg), arg, 0, retries)
  {
  }

  /**
   * The two modes are alike for every guest that throws nothing but errors, on all states and arguments, if and only if
   * there are no retries and cloning gives everything back.
   */
  lemma ModesAgreeExactly(b: Boundary<int, int, int>, retries: nat)
    ensures (forall guest: (int, int) -> Attempt<int, int>, args: int, state: int :: ThrowsErrorsOnly(guest) ==>
               ModesAlike(b, guest, args, state, retries))
            <==> retries == 0 && EverythingCrosses(b)
  {
    if EverythingCrosses(b) && retries == 0 {
      forall guest: (int, int) -> Attempt<int, int>, args: int, state: int | ThrowsErrorsOnly(guest)
        ensures ModesAlike(b, guest, args, state, retries)
      {
        assert Posts(b, args, state);
        OneAttemptAlikeExactly(b, guest, args, state);
        assert Crosses(b, guest(state, args));
      }
    } else if EverythingCrosses(b) {
      ModesDifferOnRetry(0, retries);
      assert ThrowsErrorsOnly(MarksFailure) && !ModesAlike(b, MarksFailure, 0, 0, retries);
    } else if s :| b.state(s) != Some(s) {
      YieldsShows(b, 0, s, retries);
      assert ThrowsErrorsOnly(Yields(0, s));
    } else if v :| b.value(v) != Some(v) {
      YieldsShows(b, v, 0, retries);
      assert ThrowsErrorsOnly(Yields(v, 0));
    } else {
      var a :| b.args(a) != Some(a);
      RecognisesShows(b, a, retries);
      assert ThrowsErrorsOnly(Recognises(a));
    }
  }

  // Two guests that part without a retry

  /** A guest that leaves a state that cannot be cloned, a function in it say, succeeds inline only. */
  lemma UncloneableStateDiffers(b: Boundary<int, int, int>, after: int)
    requires Posts(b, 0, 0) && b.state(after).None?
    ensures InlineOutcome(Yields(1, after), 0, 0, 1, []) == Outcome(Some(1), "", after, [])
    ensures WorkerCall(b, Deterministic(Yields(1, after)), 0, 0, 0) == Outcome(None, b.hardLimit, 0, [])
  {
  }

  function ThrowsText(text: string): (int, int) -> Attempt<int, int> {
    (s, a) => Throws(text, false, s, [])
  }

  /** Thrown text that is no error is told by the worker and replaced inline. */
  lemma ThrownTextDiffers(b: Boundary<int, int, int>, text: string)
    requires Posts(b, 0, 0)
    ensures InlineOutcome(ThrowsText(text), 0, 0, 1, []) == Outcome(None, "Sandbox invocation failed.", 0, [])
    ensures WorkerCall(b, Deterministic(ThrowsText(text)), 0, 0, 0) == Outcome(None, text, 0, [])
  {
  }
}
