/**
 * A run of the Python sandbox. Committing the state, writing the record and taking an automatic snapshot all stand
 * inside the try block of the retry loop, so that a snapshot that fails makes the loop go on, with the guest called
 * again on the state it has just committed. The TypeScript sandbox takes its snapshot after the loop.
 */
module PythonRuns {
  import opened Options
  import opened Retries

  /** What the run meets: the cadence of snapshots, states `deepcopy` refuses, and attempts in which saving fails. */
  datatype Setting<!S> = Setting(cadence: int, copyError: S -> Option<string>, saveError: nat -> Option<string>)

  /** A run returns a result or raises. */
  datatype Result<+V> =
    | Returned(ok: bool, value: Option<V>, error: string, logs: seq<string>)
    | Raised(message: string)

  /** The end of a run: its result, the state committed, and for each record of the log whether its run was ok. */
  datatype End<+S, +V> = End(result: Result<V>, state: S, runLog: seq<bool>)

  predicate Due(cadence: int, runs: nat) {
    cadence > 0 && runs % cadence == 0
  }

  /** Why the automatic snapshot after attempt k fails, if it is due and does. */
  function SnapshotError<S>(w: Setting<S>, state: S, runs: nat, k: nat): Option<string> {
    if !Due(w.cadence, runs) then None
    else if w.copyError(state).Some? then w.copyError(state)
    else w.saveError(k)
  }

  class Sandbox<S, V> {
    var state: S
    var runLog: seq<bool>

    constructor (state: S)
      ensures this.state == state && runLog == []
    {
      this.state, runLog := state, [];
    }

    /** `unsafe` is why the scan or the budget stops the run, `refusal` why the compiler or a probe does, if they do. */
    method Run(w: Setting<S>, guest: nat -> S -> Attempt<S, V>, retryCount: int, unsafe: Option<string>,
               refusal: Option<string>)
      returns (r: Result<V>)
      modifies this
      ensures End(r, state, runLog) == RunEnd(w, guest, old(state), old(runLog), retryCount, unsafe, refusal)
    {
      var failure := Unreached(w, state, unsafe, refusal);
      if failure.Some? {
        runLog := runLog + [false];
        return Returned(false, None, failure.value, []);
      }
      var workingState := state;
      var retries: nat := if retryCount > 0 then retryCount else 0;
      var logs: seq<string> := [];
      var lastError := "";
      for attempt := 0 to retries + 1
        invariant workingState == state
        invariant Attempts(w, guest, old(state), old(runLog), [], "", 0, retries)
               == Attempts(w, guest, state, runLog, logs, lastError, attempt, retries)
      {
        match guest(attempt)(workingState) {
          case Returns(value, after, written) =>
            logs := logs + written;
            state, runLog := after, runLog + [true];
            var failure := SnapshotError(w, state, |runLog|, attempt);
            if failure.None? {
              return Returned(true, Some(value), "", logs);
            }
            lastError := failure.value;
          case Throws(message, _, _, written) =>
            logs, lastError := logs + written, message;
        }
        if w.copyError(state).Some? {
          return Raised(w.copyError(state).value);
        }
        workingState := state;
      }
      runLog := runLog + [false];
      return Returned(false, None, lastError, logs);
    }
  }

  /** Why the guest is not reached: the state is copied between the two kinds of checks. */
  function Unreached<S>(w: Setting<S>, state: S, unsafe: Option<string>, refusal: Option<string>): Option<string> {
    if unsafe.Some? then unsafe else if w.copyError(state).Some? then w.copyError(state) else refusal
  }

  function RunEnd<S, V>(w: Setting<S>, guest: nat -> S -> Attempt<S, V>, state: S, runLog: seq<bool>, retryCount: int,
                        unsafe: Option<string>, refusal: Option<string>): End<S, V> {
    var failure := Unreached(w, state, unsafe, refusal);
    if failure.Some? then End(Returned(false, None, failure.value, []), state, runLog + [false])
    else Attempts(w, guest, state, runLog, [], "", 0, if retryCount > 0 then retryCount else 0)
  }

  /** The attempts from number `attempt` on, each on a copy of the state committed by then. */
  function Attempts<S, V>(w: Setting<S>, guest: nat -> S -> Attempt<S, V>, state: S, runLog: seq<bool>,
                          logs: seq<string>, error: string, attempt: nat, retries: nat): End<S, V>
    requires attempt <= retries + 1
    decreases retries + 1 - attempt
  {
    if attempt == retries + 1 then End(Returned(false, None, error, logs), state, runLog + [false])
    else
      match guest(attempt)(state)
      case Returns(value, after, written) =>
        (match SnapshotError(w, after, |runLog| + 1, attempt)
         case None => End(Returned(true, Some(value), "", logs + written), after, runLog + [true])
         case Some(message) => Again(w, guest, after, runLog + [true], logs + written, message, attempt, retries))
      case Throws(message, _, _, written) =>
        Again(w, guest, state, runLog, logs + written, message, attempt, retries)
  }

  /** The except block copies the committed state, which may itself raise, and goes on to the next attempt. */
  function Again<S, V>(w: Setting<S>, guest: nat -> S -> Attempt<S, V>, state: S, runLog: seq<bool>,
                       logs: seq<string>, error: string, attempt: nat, retries: nat): End<S, V>
    requires attempt <= retries
    decreases retries + 1 - attempt, 0
  {
    if w.copyError(state).Some? then End(Raised(w.copyError(state).value), state, runLog)
    else Attempts(w, guest, state, runLog, logs, error, attempt + 1, retries)
  }

  /** A run that does not reach its guest: told why, one failed record, the state as it was. */
  lemma UnreachedRuns<S, V>(w: Setting<S>, guest: nat -> S -> Attempt<S, V>, state: S, runLog: seq<bool>,
                            retryCount: int, unsafe: Option<string>, refusal: Option<string>)
    ensures var e, uncopied := RunEnd(w, guest, state, runLog, retryCount, unsafe, refusal), w.copyError(state);
            && (unsafe.Some? ==> Untouched(e, state, runLog, unsafe.value))
            && (unsafe.None? && uncopied.Some? ==> Untouched(e, state, runLog, uncopied.value))
            && (unsafe.None? && uncopied.None? && refusal.Some? ==> Untouched(e, state, runLog, refusal.value))
  {
  }

  ghost predicate Untouched<S, V>(e: End<S, V>, state: S, runLog: seq<bool>, why: string) {
    && e.result.Returned? && !e.result.ok && e.result.value.None? && e.result.error == why && e.result.logs == []
    && e.state == state && e.runLog == runLog + [false]
  }

  // Atomicity

  /** Attempt k is the first from `attempt` on to return, or else the last allowed. */
  ghost predicate Deciding<S, V>(guest: nat -> S -> Attempt<S, V>, state: S, attempt: nat, retries: nat, k: nat) {
    && attempt <= k <= retries
    && (forall i :: attempt <= i < k ==> guest(i)(state).Throws?)
    && (guest(k)(state).Throws? ==> k == retries)
  }

  /** What attempts from..end-1 log when each is made on `state`, in order. */
  function Written<S, V>(guest: nat -> S -> Attempt<S, V>, state: S, from: nat, end: nat): seq<string>
    requires from <= end
    decreases end - from
  {
    if from == end then [] else guest(from)(state).logs + Written(guest, state, from + 1, end)
  }

  /**
   * One record, and the outcome of attempt k from the original state: its value and state, or its error alone; with
   * what was logged before and by the attempts up to it.
   */
  ghost predicate EndsBy<S, V>(guest: nat -> S -> Attempt<S, V>, state: S, runLog: seq<bool>, logs: seq<string>,
                               attempt: nat, k: nat, e: End<S, V>)
    requires attempt <= k
  {
    && e.result.Returned? && e.result.logs == logs + Written(guest, state, attempt, k + 1)
    && match guest(k)(state)
       case Returns(value, after, _) =>
         e.result.ok && e.result.value == Some(value) && e.state == after && e.runLog == runLog + [true]
       case Throws(message, _, _, _) =>
         !e.result.ok && e.result.error == message && e.state == state && e.runLog == runLog + [false]
  }

  ghost predicate Atomic<S, V>(guest: nat -> S -> Attempt<S, V>, state: S, runLog: seq<bool>, attempt: nat,
                               retries: nat, e: End<S, V>) {
    exists k: nat :: Deciding(guest, state, attempt, retries, k) && EndsBy(guest, state, runLog, [], attempt, k, e)
  }

  /** The first attempt to return, if one does, meets a due snapshot that fails. */
  ghost predicate MeetsFailure<S, V>(w: Setting<S>, guest: nat -> S -> Attempt<S, V>, state: S, runs: nat,
                                     attempt: nat, retries: nat) {
    exists k: nat :: Deciding(guest, state, attempt, retries, k) && SnapshotFails(w, guest(k)(state), runs + 1, k)
  }

  predicate SnapshotFails<S, V>(w: Setting<S>, a: Attempt<S, V>, runs: nat, k: nat) {
    a.Returns? && SnapshotError(w, a.state, runs, k).Some?
  }

  lemma {:induction false} OneDecides<S, V>(guest: nat -> S -> Attempt<S, V>, state: S, attempt: nat, retries: nat)
    returns (k: nat)
    requires attempt <= retries
    ensures Deciding(guest, state, attempt, retries, k)
    ensures forall m: nat :: Deciding(guest, state, attempt, retries, m) ==> m == k
    decreases retries - attempt
  {
    k := attempt;
    if guest(attempt)(state).Throws? && attempt < retries {
      k := OneDecides(guest, state, attempt + 1, retries);
      forall m: nat | Deciding(guest, state, attempt, retries, m)
        ensures m == k
      {
        assert Deciding(guest, state, attempt + 1, retries, m);
      }
    }
  }

  /** However the attempts end, they leave the log longer, or raise. */
  lemma {:induction false} LogGrows<S, V>(w: Setting<S>, guest: nat -> S -> Attempt<S, V>, state: S,
                                          runLog: seq<bool>, logs: seq<string>, error: string, attempt: nat,
                                          retries: nat)
    requires attempt <= retries + 1
    ensures var e := Attempts(w, guest, state, runLog, logs, error, attempt, retries);
            e.result.Returned? ==> |e.runLog| > |runLog|
    decreases retries + 1 - attempt
  {
    if attempt <= retries {
      var a := guest(attempt)(state);
      if a.Throws? {
        LogGrows(w, guest, state, runLog, logs + a.logs, a.message, attempt + 1, retries);
      } else {
        var failure := SnapshotError(w, a.state, |runLog| + 1, attempt);
        if failure.Some? {
          LogGrows(w, guest, a.state, runLog + [true], logs + a.logs, failure.value, attempt + 1, retries);
        }
      }
    }
  }

  /** Attempt k decides the run, and as an atomic one exactly if its snapshot does not fail. */
  lemma {:induction false} DecidedEnd<S, V>(w: Setting<S>, guest: nat -> S -> Attempt<S, V>, state: S,
                                            runLog: seq<bool>, logs: seq<string>, error: string, attempt: nat,
                                            retries: nat, k: nat)
    requires w.copyError(state).None? && Deciding(guest, state, attempt, retries, k)
    ensures EndsBy(guest, state, runLog, logs, attempt, k,
                   Attempts(w, guest, state, runLog, logs, error, attempt, retries))
            <==> !SnapshotFails(w, guest(k)(state), |runLog| + 1, k)
    decreases k - attempt
  {
    var a := guest(attempt)(state);
    if attempt < k {
      DecidedEnd(w, guest, state, runLog, logs + a.logs, a.message, attempt + 1, retries, k);
      assert logs + a.logs + Written(guest, state, attempt + 1, k + 1) == logs + Written(guest, state, attempt, k + 1);
    } else if a.Returns? {
      assert Written(guest, state, k, k + 1) == a.logs + [] == a.logs;
      var failure := SnapshotError(w, a.state, |runLog| + 1, attempt);
      if failure.Some? {
        LogGrows(w, guest, a.state, runLog + [true], logs + a.logs, failure.value, attempt + 1, retries);
      }
    } else {
      assert Written(guest, state, k, k + 1) == a.logs + [] == a.logs;
      assert Attempts(w, guest, state, runLog, logs + a.logs, a.message, retries + 1, retries).state == state;
    }
  }

  /**
   * A run whose guest is reached writes one record and has the effect of one attempt from the original state, or on
   * failure none, if and only if the attempt that decides it does not meet a due snapshot that fails.
   */
  lemma RunIsAtomicExactly<S, V>(w: Setting<S>, guest: nat -> S -> Attempt<S, V>, state: S, runLog: seq<bool>,
                                 retries: nat)
    requires w.copyError(state).None?
    ensures Atomic(guest, state, runLog, 0, retries, RunEnd(w, guest, state, runLog, retries, None, None))
            <==> !MeetsFailure(w, guest, state, |runLog|, 0, retries)
  {
    var k := OneDecides(guest, state, 0, retries);
    DecidedEnd(w, guest, state, runLog, [], "", 0, retries, k);
  }

  /** No due snapshot can fail: saving works in every attempt, and every state can be copied. */
  ghost predicate SnapshotsHold<S(!new)>(w: Setting<S>, runs: nat, retries: nat) {
    w.cadence > 0 && runs % w.cadence == 0 ==>
      (forall k: nat :: k <= retries ==> w.saveError(k).None?) && (forall s :: w.copyError(s).None?)
  }

  /** Throws until attempt k, which leaves `after`. */
  function ReturnsAt<S>(k: nat, after: S): nat -> S -> Attempt<S, int> {
    i => s => if i < k then Throws("not yet", true, s, []) else Returns(0, after, [])
  }

  /** Retries are atomic for every guest if and only if no snapshot that is due after the run can fail. */
  lemma RetriesAreAtomicExactly<S(!new)>(w: Setting<S>, state: S, runLog: seq<bool>, retries: nat)
    requires w.copyError(state).None?
    ensures (forall guest: nat -> S -> Attempt<S, int> ::
               Atomic(guest, state, runLog, 0, retries, RunEnd(w, guest, state, runLog, retries, None, None)))
            <==> SnapshotsHold(w, |runLog| + 1, retries)
  {
    forall guest: nat -> S -> Attempt<S, int>
      ensures Atomic(guest, state, runLog, 0, retries, RunEnd(w, guest, state, runLog, retries, None, None))
              <==> !MeetsFailure(w, guest, state, |runLog|, 0, retries)
    {
      RunIsAtomicExactly(w, guest, state, runLog, retries);
    }
    if w.cadence > 0 && (|runLog| + 1) % w.cadence == 0 {
      if k: nat :| k <= retries && w.saveError(k).Some? {
        Caught(w, state, |runLog|, retries, k, state);
      } else if s :| w.copyError(s).Some? {
        Caught(w, state, |runLog|, retries, 0, s);
      }
    }
  }

  lemma Caught<S>(w: Setting<S>, state: S, runs: nat, retries: nat, k: nat, after: S)
    requires k <= retries && Due(w.cadence, runs + 1)
    requires w.saveError(k).Some? || w.copyError(after).Some?
    ensures MeetsFailure(w, ReturnsAt(k, after), state, runs, 0, retries)
  {
    assert Deciding(ReturnsAt(k, after), state, 0, retries, k);
    assert SnapshotFails(w, ReturnsAt(k, after)(k)(state), runs + 1, k);
  }

  // A store that is out of order

  /** Snapshots after every run, and a store that fails. */
  function OutOfOrder(message: string): Setting<int> {
    Setting(1, s => None, k => Some(message))
  }

  /** Counts up, and logs one line. */
  function Counts(line: string): nat -> int -> Attempt<int, int> {
    i => s => Returns(s, s + 1, [line])
  }

  function Ones(n: nat): seq<bool> {
    seq(n, i => true)
  }

  function Lines(line: string, n: nat): seq<string> {
    seq(n, i => line)
  }

  /**
   * A guest that adds one adds one per attempt, each attempt is recorded and its line kept; then the run reports that
   * it failed.
   */
  lemma {:induction false} CommitsEveryAttempt(message: string, line: string, state: int, runLog: seq<bool>,
                                               logs: seq<string>, error: string, attempt: nat, retries: nat)
    requires attempt <= retries + 1
    ensures var left := retries + 1 - attempt;
            Attempts(OutOfOrder(message), Counts(line), state, runLog, logs, error, attempt, retries)
            == End(Returned(false, None, if left == 0 then error else message, logs + Lines(line, left)), state + left,
                   runLog + Ones(left) + [false])
    decreases retries + 1 - attempt
  {
    var left := retries + 1 - attempt;
    if left > 0 {
      CommitsEveryAttempt(message, line, state + 1, runLog + [true], logs + [line], message, attempt + 1, retries);
      assert runLog + [true] + Ones(left - 1) == runLog + Ones(left);
      assert logs + [line] + Lines(line, left - 1) == logs + Lines(line, left);
    } else {
      assert runLog + Ones(0) == runLog && logs + Lines(line, 0) == logs;
    }
  }

  /** The first run of such a sandbox: reported as failed, with the state moved on and one record for each attempt. */
  lemma FailedSnapshotRepeatsRun(message: string, line: string, retries: nat)
    ensures RunEnd(OutOfOrder(message), Counts(line), 0, [], retries, None, None)
         == End(Returned(false, None, message, Lines(line, retries + 1)), retries + 1, Ones(retries + 1) + [false])
  {
    CommitsEveryAttempt(message, line, 0, [], [], "", 0, retries);
    assert [] + Ones(retries + 1) == Ones(retries + 1) && [] + Lines(line, retries + 1) == Lines(line, retries + 1);
  }
}
