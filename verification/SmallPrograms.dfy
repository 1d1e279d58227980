/**
 * What every run starts with and what a call leaves behind, as programs of a few instructions see it: the register
 * file, the context, the stack, the clock, the trace and the instruction budget.
 */
module SmallPrograms {
  import opened Words
  import opened Codec
  import opened Options
  import opened Verifier
  import opened Maps
  import opened Machine
  import opened ProgramRuns
  import opened Vm

  const EXIT_INSN := Insn(EXIT, 0, 0, 0, 0)

  const ALONE: seq<Insn> := [EXIT_INSN]

  /** `mov r0, r; exit` */
  function CopyOf(r: nat): seq<Insn>
    requires r <= 10
  {
    [Insn(0xbf, 0, r, 0, 0), EXIT_INSN]
  }

  /** `ldxdw r0, [r + off]; exit` */
  function WordAt(r: nat, off: i16): seq<Insn>
    requires r <= 10
  {
    [Insn(0x79, 0, r, off, 0), EXIT_INSN]
  }

  /** `call id; exit` */
  function CallOf(id: nat): seq<Insn>
    requires 1 <= id <= 5
  {
    [Insn(0x85, 0, 0, 0, id), EXIT_INSN]
  }

  /** `mov r, v; call 5; mov r0, r; exit` */
  function AcrossCall(r: nat, v: nat): seq<Insn>
    requires r <= 9 && v < 0x8000_0000
  {
    [Insn(0xb7, r, 0, 0, v), Insn(0x85, 0, 0, 0, 5), Insn(0xbf, 0, r, 0, 0), EXIT_INSN]
  }

  // Registers

  lemma ExitReturnsZero(e: Env, host: Host, budget: nat)
    requires budget >= 1
    ensures Accepted(ALONE)
    ensures var r := Run(ALONE, e, Start(host), budget);
            r.Returned? && r.r0 == 0 && r.s.host == host
  {
    hide Run, Step;
    assert !IsSecond(ALONE, 0);
    UnrollExit(ALONE, e, Start(host), budget);
  }

  /** A register at the start: the context's address in r1, the top of the stack in r10, else 0. */
  lemma RegisterAtStart(r: nat, e: Env, host: Host, budget: nat)
    requires r <= 10 && budget >= 2
    ensures Accepted(CopyOf(r))
    ensures var o := Run(CopyOf(r), e, Start(host), budget);
            && o.Returned? && o.s.host == host
            && o.r0 == if r == 1 then 0x1000_0000 else if r == 10 then 0x2000_0200 else 0
  {
    hide Run, Step;
    var p, s := CopyOf(r), Start(host);
    assert !IsSecond(p, 0) && !IsSecond(p, 1);
    ExecMovReg(p, e, s, 0, r);
    var t := With(s, 0, s.regs[r]);
    Unroll(p, e, s, budget, t);
    UnrollExit(p, e, t, budget - 1);
  }

  // Memory

  /** What r1 points to is the context, at every offset: its bytes inside, an abort outside. */
  lemma ContextWord(off: i16, e: Env, host: Host, budget: nat)
    requires budget >= 2
    ensures Accepted(WordAt(1, off))
    ensures var o := Run(WordAt(1, off), e, Start(host), budget);
            if 0 <= off <= |e.ctx| - 8
            then o.Returned? && o.r0 == LeValue(e.ctx[off..off + 8]) && o.s.host == host
            else o == Aborted(OutOfBounds, Start(host))
  {
    hide Run, Step, LeValue;
    var p, s := WordAt(1, off), Start(host);
    WordAtAccepted(1, off);
    LoadsContext(p, e, s, off);
    if 0 <= off <= |e.ctx| - 8 {
      WordFits(e.ctx[off..off + 8]);
      var t := With(s, 0, LeValue(e.ctx[off..off + 8]));
      Unroll(p, e, s, budget, t);
      UnrollExit(p, e, t, budget - 1);
    } else {
      UnrollAbort(p, e, s, budget, OutOfBounds);
    }
  }

  /** r10 + off lies in a context so long that it reaches close to the stack. */
  predicate InContext(e: Env, off: i16) {
    0x2000_0208 + off <= 0x1000_0000 + |e.ctx|
  }

  /** What lies below r10 is 512 bytes of stack, all of them 0. */
  lemma StackWord(off: i16, e: Env, host: Host, budget: nat)
    requires budget >= 2 && |e.ctx| <= 0x1000_0000
    ensures Accepted(WordAt(10, off))
    ensures var o := Run(WordAt(10, off), e, Start(host), budget);
            if -512 <= off <= -8 then o.Returned? && o.r0 == 0 && o.s.host == host
            else !InContext(e, off) ==> o == Aborted(OutOfBounds, Start(host))
  {
    hide Run, Step, LeValue;
    var p, s := WordAt(10, off), Start(host);
    WordAtAccepted(10, off);
    LoadsStack(p, e, s, off);
    if -512 <= off <= -8 {
      ZerosRead(s.stack[512 + off..520 + off]);
      var t := With(s, 0, 0);
      Unroll(p, e, s, budget, t);
      UnrollExit(p, e, t, budget - 1);
    } else if !InContext(e, off) {
      UnrollAbort(p, e, s, budget, OutOfBounds);
    }
  }

  lemma WordAtAccepted(r: nat, off: i16)
    requires r <= 10
    ensures Accepted(WordAt(r, off))
  {
    var p := WordAt(r, off);
    assert !IsSecond(p, 0) && !IsSecond(p, 1);
  }

  lemma LoadsContext(p: seq<Insn>, e: Env, s: State, off: i16)
    requires At(p, s, Insn(0x79, 0, 1, off, 0)) && s.regs[1] == CTX_BASE
    ensures Step(p, e, s) == if 0 <= off <= |e.ctx| - 8 then Next(With(s, 0, LeValue(e.ctx[off..off + 8]) % TWO64))
                             else Aborted(OutOfBounds, s)
  {
    hide Step, LeValue;
    Dispatch(p, e, s, Insn(0x79, 0, 1, off, 0));
  }

  lemma LoadsStack(p: seq<Insn>, e: Env, s: State, off: i16)
    requires At(p, s, Insn(0x79, 0, 10, off, 0)) && s.regs[10] == STACK_TOP && |e.ctx| <= 0x1000_0000
    ensures Step(p, e, s)
         == if -512 <= off <= -8 then Next(With(s, 0, LeValue(s.stack[512 + off..520 + off]) % TWO64))
            else if InContext(e, off) then Step(p, e, s) else Aborted(OutOfBounds, s)
  {
    hide Step, LeValue;
    Dispatch(p, e, s, Insn(0x79, 0, 10, off, 0));
    assert 512 + off + 8 == 520 + off;
  }

  lemma UnrollAbort(p: seq<Insn>, e: Env, s: State, budget: nat, why: Abort)
    requires budget > 0 && Step(p, e, s) == Aborted(why, s)
    ensures Run(p, e, s, budget) == Aborted(why, s)
  {
  }

  lemma WordFits(b: seq<byte>)
    requires |b| == 8
    ensures LeValue(b) < TWO64 && LeValue(b) % TWO64 == LeValue(b)
  {
    hide LeValue, Pow2;
    LeBytesOfValue(b);
    Pow2Values();
  }

  lemma {:induction false} ZerosRead(b: seq<byte>)
    requires forall i :: 0 <= i < |b| ==> b[i] == 0
    ensures LeValue(b) == 0
  {
    if b != [] {
      ZerosRead(b[1..]);
    }
  }

  /** `stdw [r + off], v; exit` */
  function StoreAt(r: nat, off: i16, v: i32): seq<Insn>
    requires r <= 10
  {
    [Insn(0x7a, r, 0, off, v), EXIT_INSN]
  }

  /** `stdw [r10 + off], v; ldxdw r0, [r10 + off]; exit` */
  function StoreAndLoad(off: i16, v: i32): seq<Insn> {
    [Insn(0x7a, 10, 0, off, v), Insn(0x79, 0, 10, off, 0), EXIT_INSN]
  }

  /** The context cannot be written: inside it a store aborts for that, and outside for being out of bounds. */
  lemma ContextIsReadOnly(off: i16, v: i32, e: Env, host: Host, budget: nat)
    requires budget >= 1
    ensures Accepted(StoreAt(1, off, v))
    ensures Run(StoreAt(1, off, v), e, Start(host), budget)
         == Aborted(if 0 <= off <= |e.ctx| - 8 then ContextWrite else OutOfBounds, Start(host))
  {
    hide Run, Step, LeBytes, Splice;
    var p, s := StoreAt(1, off, v), Start(host);
    assert !IsSecond(p, 0) && !IsSecond(p, 1);
    StoreDispatch(p, e, s, Insn(0x7a, 1, 0, off, v));
    UnrollAbort(p, e, s, budget, if 0 <= off <= |e.ctx| - 8 then ContextWrite else OutOfBounds);
  }

  lemma StoreDispatch(p: seq<Insn>, e: Env, s: State, i: Insn)
    requires At(p, s, i) && i.opcode == 0x7a
    ensures Step(p, e, s) == StepStore(e, i, s)
  {
  }

  lemma StoreAndLoadAccepted(off: i16, v: i32)
    ensures Accepted(StoreAndLoad(off, v))
  {
    var p := StoreAndLoad(off, v);
    assert !IsSecond(p, 0) && !IsSecond(p, 1) && !IsSecond(p, 2);
  }

  lemma StoresOnStack(p: seq<Insn>, e: Env, s: State, off: i16, v: i32)
    requires -512 <= off <= -8 && |e.ctx| <= 0x1000_0000 && s.regs[10] == STACK_TOP
    requires At(p, s, Insn(0x7a, 10, 0, off, v))
    ensures Step(p, e, s) == Next(s.(stack := Splice(s.stack, 512 + off, LeBytes(v, 8)), pc := s.pc + 1))
  {
    hide Step, LeBytes, Splice;
    StoreDispatch(p, e, s, Insn(0x7a, 10, 0, off, v));
  }

  /** The stack can: what is stored there is read back, its sign extended. */
  lemma StackKeeps(off: i16, v: i32, e: Env, host: Host, budget: nat)
    requires -512 <= off <= -8 && |e.ctx| <= 0x1000_0000 && budget >= 3
    ensures Accepted(StoreAndLoad(off, v))
    ensures var o := Run(StoreAndLoad(off, v), e, Start(host), budget);
            o.Returned? && o.r0 == v % TWO64 && o.s.host == host
  {
    hide Run, Step, LeValue, LeBytes, Pow2, Accepted;
    StoreAndLoadAccepted(off, v);
    var p, s := StoreAndLoad(off, v), Start(host);
    StoresOnStack(p, e, s, off, v);
    var t := s.(stack := Splice(s.stack, 512 + off, LeBytes(v, 8)), pc := 1);
    Unroll(p, e, s, budget, t);
    LoadsStack(p, e, t, off);
    assert t.stack[512 + off..520 + off] == LeBytes(v, 8);
    LeValueOfBytes(v, 8);
    Pow2Values();
    var u := With(t, 0, v % TWO64);
    Unroll(p, e, t, budget - 1, u);
    UnrollExit(p, e, u, budget - 2);
  }

  // Calls

  lemma CallOfAccepted(id: nat)
    requires 1 <= id <= 5
    ensures Accepted(CallOf(id))
  {
    var p := CallOf(id);
    assert !IsSecond(p, 0) && !IsSecond(p, 1);
  }

  /** Call 5 returns the next reading of the clock, modulo 2^64. */
  lemma ClockReads(e: Env, host: Host, budget: nat)
    requires budget >= 2
    ensures Accepted(CallOf(5))
    ensures var o := Run(CallOf(5), e, Start(host), budget);
            && o.Returned? && o.r0 == e.clock(host.ticks) % TWO64
            && o.s.host == Host(host.maps, host.trace, host.ticks + 1)
  {
    hide Run, Step;
    CallOfAccepted(5);
    var p, s := CallOf(5), Start(host);
    CallSteps(p, e, s, 5, e.clock(host.ticks) % TWO64, host.(ticks := host.ticks + 1));
    var t := Step(p, e, s).s;
    Unroll(p, e, s, budget, t);
    UnrollExit(p, e, t, budget - 1);
  }

  /** A map helper on fd 0 aborts where there is no map. */
  lemma MapCallFails(id: nat, e: Env, host: Host, budget: nat)
    requires 1 <= id <= 3 && e.fds == [] && budget >= 1
    ensures Accepted(CallOf(id)) && Run(CallOf(id), e, Start(host), budget) == Aborted(NoMapAtFd, Start(host))
  {
    hide Run, Step;
    CallOfAccepted(id);
    Dispatch(CallOf(id), e, Start(host), Insn(0x85, 0, 0, 0, id));
    UnrollAbort(CallOf(id), e, Start(host), budget, NoMapAtFd);
  }

  /** `mov r1, fd; mov r2, key; mov r3, value; call id; exit` */
  function MapCall(id: nat, fd: i32, key: i32, value: i32): seq<Insn>
    requires 1 <= id <= 3 && fd >= 0 && key >= 0 && value >= 0
  {
    [Insn(0xb7, 1, 0, 0, fd), Insn(0xb7, 2, 0, 0, key), Insn(0xb7, 3, 0, 0, value), Insn(0x85, 0, 0, 0, id), EXIT_INSN]
  }

  lemma MapCallAccepted(id: nat, fd: i32, key: i32, value: i32)
    requires 1 <= id <= 3 && fd >= 0 && key >= 0 && value >= 0
    ensures Accepted(MapCall(id, fd, key, value))
  {
    var p := MapCall(id, fd, key, value);
    assert forall k :: 0 <= k <= 4 ==> !IsSecond(p, k);
  }

  lemma MapCallPrepares(id: nat, fd: i32, key: i32, value: i32, e: Env, host: Host, budget: nat) returns (t: State)
    requires 1 <= id <= 3 && fd >= 0 && key >= 0 && value >= 0 && budget >= 3
    ensures var p := MapCall(id, fd, key, value);
            Run(p, e, Start(host), budget) == Run(p, e, t, budget - 3)
    ensures t.pc == 3 && t.host == host && t.regs[1] == fd && t.regs[2] == key && t.regs[3] == value
  {
    hide Run, Step;
    var p, s := MapCall(id, fd, key, value), Start(host);
    ExecMovImm(p, e, s, 1, fd);
    var s1 := With(s, 1, fd);
    Unroll(p, e, s, budget, s1);
    ExecMovImm(p, e, s1, 2, key);
    var s2 := With(s1, 2, key);
    Unroll(p, e, s1, budget - 1, s2);
    ExecMovImm(p, e, s2, 3, value);
    t := With(s2, 3, value);
    Unroll(p, e, s2, budget - 2, t);
  }

  /** On an fd beyond the maps given it aborts. */
  lemma MapCallMisses(id: nat, fd: i32, key: i32, value: i32, e: Env, host: Host, budget: nat)
    requires 1 <= id <= 3 && fd >= 0 && key >= 0 && value >= 0 && budget >= 4 && fd >= |e.fds|
    ensures var o := Run(MapCall(id, fd, key, value), e, Start(host), budget);
            o.Aborted? && o.why == NoMapAtFd && o.s.host == host
  {
    hide Run, Step;
    var p := MapCall(id, fd, key, value);
    var s3 := MapCallPrepares(id, fd, key, value, e, host, budget);
    Dispatch(p, e, s3, Insn(0x85, 0, 0, 0, id));
    UnrollAbort(p, e, s3, budget - 3, NoMapAtFd);
  }

  /**
   * The map helpers: 1 returns the entry or 0; 2 sets it and 3 adds to it, modulo 2^64, and both return 0, unless the
   * key is new and the map is full: then they return 2^64 - 1 and change nothing. No other map is touched.
   */
  lemma MapCallDoes(id: nat, fd: i32, key: i32, value: i32, e: Env, host: Host, budget: nat, m: nat)
    requires 1 <= id <= 3 && fd >= 0 && key >= 0 && value >= 0 && budget >= 5
    requires fd < |e.fds| && e.fds[fd] == m < |host.maps|
    ensures var o := Run(MapCall(id, fd, key, value), e, Start(host), budget);
            var before := host.maps[m];
            var held := if key in before.entries then before.entries[key] else 0;
            var full := key !in before.entries && |before.entries| >= before.maxEntries;
            var next := (if id == 2 then value else held + value) % TWO64;
            && o.Returned? && o.r0 == (if id == 1 then held else if full then 0xffff_ffff_ffff_ffff else 0)
            && o.s.host == if id == 1 || full then host
                           else host.(maps := host.maps[m := before.(entries := before.entries[key := next])])
  {
    hide Run, Step;
    var p := MapCall(id, fd, key, value);
    var s3 := MapCallPrepares(id, fd, key, value, e, host, budget);
    ExecMapCall(p, e, s3, id, m);
    var s4 := Step(p, e, s3).s;
    Unroll(p, e, s3, budget - 3, s4);
    UnrollExit(p, e, s4, budget - 4);
    assert host.maps[m := host.maps[m]] == host.maps;
  }

  /** `mov r1, v; call 4; exit` traces v and returns 0. */
  function Traces(v: nat): seq<Insn>
    requires v < 0x8000_0000
  {
    [Insn(0xb7, 1, 0, 0, v), Insn(0x85, 0, 0, 0, 4), EXIT_INSN]
  }

  lemma TraceAppends(v: nat, e: Env, host: Host, budget: nat)
    requires v < 0x8000_0000 && budget >= 3
    ensures Accepted(Traces(v))
    ensures var o := Run(Traces(v), e, Start(host), budget);
            o.Returned? && o.r0 == 0 && o.s.host == Host(host.maps, host.trace + [v], host.ticks)
  {
    hide Run, Step;
    var p, s := Traces(v), Start(host);
    assert !IsSecond(p, 0) && !IsSecond(p, 1) && !IsSecond(p, 2);
    ExecMovImm(p, e, s, 1, v);
    var t := With(s, 1, v);
    Unroll(p, e, s, budget, t);
    CallSteps(p, e, t, 4, 0, host.(trace := host.trace + [v]));
    var u := Step(p, e, t).s;
    Unroll(p, e, t, budget - 1, u);
    UnrollExit(p, e, u, budget - 2);
  }

  /** What a call of helper 4 or 5 leaves: its result in r0, 0 in r1 to r5, and the rest as it was. */
  lemma CallSteps(p: seq<Insn>, e: Env, s: State, id: nat, result: u64, host: Host)
    requires 4 <= id <= 5 && At(p, s, Insn(0x85, 0, 0, 0, id))
    requires id == 4 ==> result == 0 && host == s.host.(trace := s.host.trace + [s.regs[1]])
    requires id == 5 ==> result == e.clock(s.host.ticks) % TWO64 && host == s.host.(ticks := s.host.ticks + 1)
    ensures Step(p, e, s).Next?
    ensures var t := Step(p, e, s).s;
            && t.pc == s.pc + 1 && t.stack == s.stack && t.host == host && t.regs[0] == result
            && (forall r :: 1 <= r <= 5 ==> t.regs[r] == 0)
            && (forall r :: 6 <= r <= 10 ==> t.regs[r] == s.regs[r])
  {
    hide Step;
    Dispatch(p, e, s, Insn(0x85, 0, 0, 0, id));
  }

  /** A call clears r1 to r5, and keeps r6 to r9. */
  lemma RegisterAcrossCall(r: nat, v: nat, e: Env, host: Host, budget: nat)
    requires 1 <= r <= 9 && v < 0x8000_0000 && budget >= 4
    ensures Accepted(AcrossCall(r, v))
    ensures var o := Run(AcrossCall(r, v), e, Start(host), budget);
            o.Returned? && o.r0 == if r <= 5 then 0 else v
  {
    hide Run, Step;
    var p, s := AcrossCall(r, v), Start(host);
    assert !IsSecond(p, 0) && !IsSecond(p, 1) && !IsSecond(p, 2) && !IsSecond(p, 3);
    ExecMovImm(p, e, s, r, v);
    var t := With(s, r, v);
    Unroll(p, e, s, budget, t);
    CallSteps(p, e, t, 5, e.clock(host.ticks) % TWO64, host.(ticks := host.ticks + 1));
    var u := Step(p, e, t).s;
    Unroll(p, e, t, budget - 1, u);
    ExecMovReg(p, e, u, 0, r);
    var w := With(u, 0, u.regs[r]);
    Unroll(p, e, u, budget - 2, w);
    UnrollExit(p, e, w, budget - 3);
  }

  // The budget

  /** `mov r2, 0; add r2, 1; jlt r2, n, -2` */
  function Counting(n: nat): seq<Insn>
    requires n < 0x8000_0000
  {
    [Insn(0xb7, 2, 0, 0, 0), Insn(0x07, 2, 0, 0, 1), Insn(0xa5, 2, 0, -2, n)]
  }

  /** `mov r0, 0` as often as `pad` says, a loop of n rounds if n is not 0, `exit` */
  function Spin(pad: nat, n: nat): (p: seq<Insn>)
    requires n < 0x8000_0000
    ensures |p| == pad + (if n == 0 then 1 else 4)
  {
    seq(pad, _ => Insn(0xb7, 0, 0, 0, 0)) + (if n == 0 then [] else Counting(n)) + [EXIT_INSN]
  }

  /** The steps it takes. */
  function Steps(pad: nat, n: nat): nat {
    pad + if n == 0 then 1 else 2 * n + 2
  }

  lemma SpinHasNoSecond(pad: nat, n: nat)
    requires n < 0x8000_0000
    ensures var p := Spin(pad, n);
            && (forall k :: 0 <= k < |p| ==> p[k].opcode in {0xb7, 0x07, 0xa5, EXIT})
            && (forall k :: 0 <= k < |p| ==> !IsSecond(p, k))
  {
  }

  lemma SpinAccepted(pad: nat, n: nat)
    requires n < 0x8000_0000 && pad <= 4_000
    ensures Accepted(Spin(pad, n))
  {
    hide IsSecond;
    var p := Spin(pad, n);
    SpinHasNoSecond(pad, n);
    forall at | 0 <= at < |p|
      ensures CheckInsn(p, at).None?
    {
      SpinChecks(pad, n, at);
    }
  }

  lemma SpinChecks(pad: nat, n: nat, at: nat)
    requires n < 0x8000_0000 && at < |Spin(pad, n)|
    ensures CheckInsn(Spin(pad, n), at).None?
  {
    hide IsSecond;
    SpinHasNoSecond(pad, n);
  }

  /** From inside the padding. */
  lemma {:induction false} SpinRun(pad: nat, n: nat, e: Env, s: State, budget: nat)
    requires n < 0x8000_0000 && 0 <= s.pc <= pad && s.regs[0] == 0
    ensures var o := Run(Spin(pad, n), e, s, budget);
            if budget >= Steps(pad, n) - s.pc then o.Returned? && o.r0 == 0 else o.Aborted? && o.why == BudgetExceeded
    decreases budget
  {
    hide Run, Step;
    var p := Spin(pad, n);
    if budget == 0 {
      NoBudget(p, e, s);
    } else if s.pc < pad || n > 0 {
      var d := if s.pc < pad then 0 else 2;
      ExecMovImm(p, e, s, d, 0);
      var t := With(s, d, 0);
      Unroll(p, e, s, budget, t);
      if s.pc < pad {
        SpinRun(pad, n, e, t, budget - 1);
      } else {
        RoundsRun(pad, n, e, t, budget - 1, 0);
      }
    } else {
      UnrollExit(p, e, s, budget);
    }
  }

  /** From the start of a round, `done` of them being over. */
  lemma {:induction false} RoundsRun(pad: nat, n: nat, e: Env, s: State, budget: nat, done: nat)
    requires done < n < 0x8000_0000 && s.pc == pad + 1 && s.regs[0] == 0 && s.regs[2] == done
    ensures var o := Run(Spin(pad, n), e, s, budget);
            if budget >= 2 * (n - done) + 1 then o.Returned? && o.r0 == 0
            else o.Aborted? && o.why == BudgetExceeded
    decreases budget
  {
    hide Run, Step;
    var p := Spin(pad, n);
    if budget == 0 {
      NoBudget(p, e, s);
      return;
    }
    ExecAddImm(p, e, s, 2, 1);
    U64Small(done + 1);
    var t := With(s, 2, done + 1);
    Unroll(p, e, s, budget, t);
    if budget == 1 {
      NoBudget(p, e, t);
      return;
    }
    ExecJltImm(p, e, t, 2, n, -2);
    var u := t.(pc := if done + 1 < n then pad + 1 else pad + 3);
    Unroll(p, e, t, budget - 1, u);
    if done + 1 < n {
      RoundsRun(pad, n, e, u, budget - 2, done + 1);
    } else if budget == 2 {
      NoBudget(p, e, u);
    } else {
      UnrollExit(p, e, u, budget - 2);
    }
  }

  lemma NoBudget(p: seq<Insn>, e: Env, s: State)
    ensures Run(p, e, s, 0) == Aborted(BudgetExceeded, s)
  {
  }

  /** The budget asked for, 100,000 by default, allows n steps: one is always allowed, never more than a million. */
  predicate AllowsSteps(requested: Option<int>, n: nat) {
    n <= 1 || (n <= 1_000_000 && n <= if requested.Some? then requested.value else 100_000)
  }

  lemma BudgetAllows(requested: Option<int>, n: nat)
    ensures n <= Budget(requested) <==> AllowsSteps(requested, n)
  {
  }

  // On the machine itself

  ghost predicate Loads(program: seq<byte>, insns: seq<Insn>) {
    Decode(program) == Decoded(insns)
  }

  /**
   * A machine loaded with one of these programs and run, whatever the context, the maps and the clock. The spinning
   * program returns exactly if the budget asked for allows the steps it takes.
   */
  method LoadAndRun(program: seq<byte>, requested: Option<int>, ctx: array<byte>, maps: seq<EbpfMap>,
                    clock: nat -> int)
    returns (outcome: Option<Vm.Outcome>, trace: seq<u64>)
    requires ctx.Length <= 0x1000_0000
    modifies maps
    ensures Loads(program, ALONE) ==> outcome == Some(Value(0))
    ensures AllowsSteps(requested, 2) ==>
              && (forall r :: 0 <= r <= 10 && Loads(program, CopyOf(r)) ==>
                    outcome == Some(Value(if r == 1 then 0x1000_0000 else if r == 10 then 0x2000_0200 else 0)))
              && (forall off: i16 :: Loads(program, WordAt(1, off)) ==>
                    outcome == Some(if 0 <= off <= ctx.Length - 8 then Value(LeValue(ctx[off..off + 8]) % TWO64)
                                    else Threw(OutOfBounds)))
              && (forall off: i16 :: Loads(program, WordAt(10, off)) && 0x2000_0208 + off > 0x1000_0000 + ctx.Length ==>
                    outcome == Some(if -512 <= off <= -8 then Value(0) else Threw(OutOfBounds)))
              && (Loads(program, CallOf(5)) ==> outcome == Some(Value(clock(0) % TWO64)))
    ensures AllowsSteps(requested, 3) ==>
              forall v: nat :: v < 0x8000_0000 && Loads(program, Traces(v)) ==>
                trace == [v] && outcome == Some(Value(0))
    ensures AllowsSteps(requested, 4) ==>
              forall r: nat, v: nat :: 1 <= r <= 9 && v < 0x8000_0000 && Loads(program, AcrossCall(r, v)) ==>
                outcome == Some(Value(if r <= 5 then 0 else v))
    ensures forall pad: nat, n: nat :: pad <= 4_000 && n < 0x8000_0000 && Loads(program, Spin(pad, n)) ==>
              outcome == Some(if AllowsSteps(requested, Steps(pad, n)) then Value(0) else Threw(BudgetExceeded))
  {
    hide Machine.Run, Accepted, Decode, Budget, Start, LeValue, Match;
    var loaded := EbpfVm.Load(program, requested);
    trace := [];
    outcome := None;
    if loaded.Loaded? {
      ghost var final;
      var o;
      o, trace, final := loaded.vm.Run(ctx, maps, clock);
      outcome := Some(o);
    }
    ghost var e, host := Env(ctx[..], Fds(maps), clock), Host(old(Values(maps)), [], 0);
    ghost var n := Budget(requested);
    BudgetAllows(requested, 1);
    BudgetAllows(requested, 2);
    BudgetAllows(requested, 3);
    BudgetAllows(requested, 4);
    ExitReturnsZero(e, host, n);
    if n >= 2 {
      ClockReads(e, host, n);
      forall r | 0 <= r <= 10 && Loads(program, CopyOf(r))
        ensures outcome == Some(Value(if r == 1 then 0x1000_0000 else if r == 10 then 0x2000_0200 else 0))
      {
        RegisterAtStart(r, e, host, n);
      }
      forall off: i16 | Loads(program, WordAt(1, off))
        ensures outcome == Some(if 0 <= off <= ctx.Length - 8 then Value(LeValue(ctx[off..off + 8]) % TWO64)
                                else Threw(OutOfBounds))
      {
        ContextWord(off, e, host, n);
        if 0 <= off <= ctx.Length - 8 {
          WordFits(ctx[off..off + 8]);
        }
      }
      forall off: i16 | Loads(program, WordAt(10, off)) && 0x2000_0208 + off > 0x1000_0000 + ctx.Length
        ensures outcome == Some(if -512 <= off <= -8 then Value(0) else Threw(OutOfBounds))
      {
        StackWord(off, e, host, n);
      }
    }
    forall v: nat | n >= 3 && v < 0x8000_0000 && Loads(program, Traces(v))
      ensures trace == [v] && outcome == Some(Value(0))
    {
      TraceAppends(v, e, host, n);
    }
    forall r: nat, v: nat | n >= 4 && 1 <= r <= 9 && v < 0x8000_0000 && Loads(program, AcrossCall(r, v))
      ensures outcome == Some(Value(if r <= 5 then 0 else v))
    {
      RegisterAcrossCall(r, v, e, host, n);
    }
    forall pad: nat, k: nat | pad <= 4_000 && k < 0x8000_0000 && Loads(program, Spin(pad, k))
      ensures outcome == Some(if AllowsSteps(requested, Steps(pad, k)) then Value(0) else Threw(BudgetExceeded))
    {
      SpinAccepted(pad, k);
      StartsAtZero(host);
      SpinRun(pad, k, e, Start(host), n);
      BudgetAllows(requested, Steps(pad, k));
    }
  }

  lemma StartsAtZero(host: Host)
    ensures Start(host).pc == 0 && Start(host).regs[0] == 0
  {
  }
}
