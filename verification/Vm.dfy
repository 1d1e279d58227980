/** The virtual machine as it is run: register and stack buffers, shared maps, one loop. It computes Machine.Run. */
module Vm {
  import opened Words
  import opened Codec
  import opened Options
  import opened Verifier
  import opened Maps
  import opened Machine
  import opened Safety

  /** The first fd under which the map at fd k is reachable: the name of that map's value in a Host. */
  function FirstFd(maps: seq<EbpfMap>, k: nat): (j: nat)
    requires k < |maps|
    ensures j <= k && maps[j] == maps[k]
    ensures forall i :: 0 <= i < j ==> maps[i] != maps[k]
  {
    FirstFdFrom(maps, k, 0)
  }

  function FirstFdFrom(maps: seq<EbpfMap>, k: nat, from: nat): (j: nat)
    requires from <= k < |maps|
    requires forall i :: 0 <= i < from ==> maps[i] != maps[k]
    ensures j <= k && maps[j] == maps[k]
    ensures forall i :: 0 <= i < j ==> maps[i] != maps[k]
    decreases k - from
  {
    if maps[from] == maps[k] then from else FirstFdFrom(maps, k, from + 1)
  }

  function Fds(maps: seq<EbpfMap>): (f: seq<nat>)
    ensures |f| == |maps|
    ensures forall k :: 0 <= k < |maps| ==> f[k] == FirstFd(maps, k)
  {
    seq(|maps|, k requires 0 <= k < |maps| => FirstFd(maps, k))
  }

  ghost function Values(maps: seq<EbpfMap>): (v: seq<MapState>)
    reads maps
    ensures |v| == |maps|
    ensures forall k :: 0 <= k < |maps| ==> v[k] == maps[k].Value()
  {
    seq(|maps|, k requires 0 <= k < |maps| reads maps => maps[k].Value())
  }

  /** The map objects hold what the model's host holds. */
  ghost predicate Match(maps: seq<EbpfMap>, h: Host)
    reads maps
  {
    |h.maps| == |maps| && forall k :: 0 <= k < |maps| ==> maps[k].Value() == h.maps[FirstFd(maps, k)]
  }

  datatype Outcome = Value(r0: u64) | Threw(why: Abort)

  ghost function OutcomeOf(r: Result): Outcome
    requires !r.Next?
  {
    match r
    case Returned(r0, _) => Value(r0)
    case Aborted(why, _) => Threw(why)
  }

  datatype LoadResult = Loaded(vm: EbpfVm) | NotLoaded(error: VerifyError)

  class EbpfVm {
    const insns: seq<Insn>
    const maxInstructions: nat

    ghost predicate Valid() {
      Accepted(insns)
    }

    constructor (insns: seq<Insn>, requested: Option<int>)
      requires Accepted(insns)
      ensures Valid() && this.insns == insns && maxInstructions == Budget(requested)
    {
      this.insns := insns;
      maxInstructions := Budget(requested);
    }

    /** `new EbpfVm(program, options)`: the program is verified when it is loaded. */
    static method Load(program: seq<byte>, requested: Option<int>) returns (r: LoadResult)
      ensures r.Loaded? <==> Decode(program).Decoded? && Accepted(Decode(program).insns)
      ensures r.Loaded? ==>
                && fresh(r.vm) && r.vm.Valid()
                && r.vm.insns == Decode(program).insns && r.vm.maxInstructions == Budget(requested)
      ensures r.NotLoaded? ==>
                match Decode(program)
                case BadLength => r.error == EmptyOrMisaligned
                case Decoded(p) => Explains(r.error, p)
    {
      var verified := VerifyProgram(program);
      match verified
      case Rejected(error) => r := NotLoaded(error);
      case Verified(insns) =>
        var vm := new EbpfVm(insns, requested);
        r := Loaded(vm);
    }

    method ExecuteAlu(i: Insn, pc: int, regs: array<u64>, ghost e: Env, ghost s: State) returns (ghost after: State)
      requires Class(i) in {4, 7} && HasOperands(i)
      requires regs[..] == s.regs && s.pc == pc
      modifies regs
      ensures regs.Length == 11 && after == s.(regs := regs[..], pc := pc + 1)
      ensures StepAlu(e, i, s) == Next(after)
    {
      var w: Width := if Class(i) == 7 then 64 else 32;
      var a := Word(w, regs[i.dst]);
      var b := Word(w, if UsesRegister(i) then regs[i.src] else i.imm);
      var out := AluOut(w, Operation(i), a, b);
      regs[i.dst] := Word(w, out);
      after := s.(regs := regs[..], pc := pc + 1);
    }

    method ExecuteJump(i: Insn, pc: int, regs: array<u64>, ghost e: Env, ghost s: State)
      returns (pc': int, fault: Option<Abort>)
      requires Class(i) == 6 || (Class(i) == 5 && Operation(i) != 8 && Operation(i) != 9)
      requires UsesRegister(i) ==> i.src <= 10
      requires regs[..] == s.regs && s.pc == pc
      ensures StepJump(e, i, s) == if fault.Some? then Aborted(fault.value, s) else Next(s.(pc := pc'))
      ensures fault.Some? ==> pc' == pc
    {
      if Class(i) == 5 && Operation(i) == 0 {
        return pc + 1 + i.off, None;
      }
      if i.dst > 10 {
        return pc, Some(NoSuchRegister);
      }
      var take := TakesBranch(i, regs, s);
      return if take then pc + 1 + i.off else pc + 1, None;
    }

    method ExecuteLddw(i: Insn, second: Insn, pc: int, regs: array<u64>, ghost s: State) returns (ghost after: State)
      requires 0 <= pc && i.dst <= 10 && regs[..] == s.regs && s.pc == pc
      requires pc + 1 < |insns| && insns[pc + 1] == second
      modifies regs
      ensures regs.Length == 11 && after == s.(regs := regs[..], pc := pc + 2)
      ensures StepLddw(insns, i, s) == Next(after)
    {
      var lo, hi := i.imm % TWO32, second.imm % TWO32;
      regs[i.dst] := Word(64, BigOr(lo, Shl(hi, 32)));
      after := s.(regs := regs[..], pc := pc + 2);
    }

    method ExecuteLoad(i: Insn, pc: int, ctx: array<byte>, regs: array<u64>, stack: array<byte>, ghost e: Env,
                       ghost s: State)
      returns (fault: Option<Abort>, ghost after: State)
      requires i.src <= 10 && i.dst <= 10 && e.ctx == ctx[..]
      requires regs[..] == s.regs && stack[..] == s.stack && s.pc == pc
      modifies regs
      ensures StepLoad(e, i, s) == if fault.Some? then Aborted(fault.value, s) else Next(after)
      ensures regs.Length == 11 && after == if fault.Some? then s else s.(regs := regs[..], pc := pc + 1)
      ensures fault.Some? ==> regs[..] == s.regs
    {
      after := s;
      var value;
      value, fault := ReadMemory(ctx, stack, regs[i.src] + i.off, SizeOf(i));
      if fault.None? {
        regs[i.dst] := value;
        after := s.(regs := regs[..], pc := pc + 1);
      }
    }

    method ExecuteStore(i: Insn, pc: int, ctx: array<byte>, regs: array<u64>, stack: array<byte>, ghost e: Env,
                        ghost s: State)
      returns (fault: Option<Abort>, ghost after: State)
      requires i.src <= 10 && e.ctx == ctx[..]
      requires regs[..] == s.regs && stack[..] == s.stack && s.pc == pc
      modifies stack
      ensures StepStore(e, i, s) == if fault.Some? then Aborted(fault.value, s) else Next(after)
      ensures stack.Length == 512 && after == if fault.Some? then s else s.(stack := stack[..], pc := pc + 1)
      ensures fault.Some? ==> stack[..] == s.stack
    {
      hide Splice, LeBytes, SizeOf, Resolve;
      after := s;
      if i.dst > 10 {
        fault := Some(NoSuchRegister);
        return;
      }
      var value: int := if Class(i) == 3 then regs[i.src] else i.imm;
      fault := WriteMemory(stack, ctx.Length, regs[i.dst] + i.off, SizeOf(i), value);
      if fault.None? {
        after := s.(stack := stack[..], pc := pc + 1);
      }
    }

    method TakesBranch(i: Insn, regs: array<u64>, ghost s: State) returns (take: bool)
      requires HasOperands(i) && regs[..] == s.regs
      ensures var w: Width := if Class(i) == 5 then 64 else 32;
              take == Taken(w, Operation(i), Word(w, s.regs[i.dst]), Operand(w, i, s.regs))
    {
      var w: Width := if Class(i) == 5 then 64 else 32;
      var ua := Word(w, regs[i.dst]);
      var ub := Word(w, if UsesRegister(i) then regs[i.src] else i.imm);
      take := Taken(w, Operation(i), ua, ub);
    }

    /** `load`: resolve the address, then read the region it lies in. */
    method ReadMemory(ctx: array<byte>, stack: array<byte>, addr: int, size: nat)
      returns (value: u64, fault: Option<Abort>)
      requires stack.Length == STACK_SIZE && size in {1, 2, 4, 8}
      ensures match Resolve(addr, size, false, ctx.Length)
              case Fault(why) => fault == Some(why)
              case InCtx(o) => fault == None && value == Word(64, LeValue(ctx[..][o..o + size]))
              case InStack(o) => fault == None && value == Word(64, LeValue(stack[..][o..o + size]))
    {
      value, fault := 0, None;
      match Resolve(addr, size, false, ctx.Length)
      case Fault(why) => fault := Some(why);
      case InCtx(o) =>
        assert ctx[..][o..o + size] == ctx[o..o + size];
        value := Word(64, LeValue(ctx[o..o + size]));
      case InStack(o) =>
        assert stack[..][o..o + size] == stack[o..o + size];
        value := Word(64, LeValue(stack[o..o + size]));
    }

    /** `store`: the stack is the only region that can be written. */
    method WriteMemory(stack: array<byte>, ctxLength: nat, addr: int, size: nat, value: int)
      returns (fault: Option<Abort>)
      requires stack.Length == STACK_SIZE && size in {1, 2, 4, 8}
      modifies stack
      ensures match Resolve(addr, size, true, ctxLength)
              case Fault(why) => fault == Some(why) && stack[..] == old(stack[..])
              case InStack(o) => fault == None && stack[..] == Splice(old(stack[..]), o, LeBytes(value, size))
              case InCtx(_) => fault == Some(ContextWrite) && stack[..] == old(stack[..])
    {
      fault := None;
      match Resolve(addr, size, true, ctxLength)
      case Fault(why) => fault := Some(why);
      case InCtx(_) => fault := Some(ContextWrite);
      case InStack(o) =>
        assert old(stack[..o]) == old(stack[..])[..o] && old(stack[o + size..]) == old(stack[..])[o + size..];
        PutLe(stack, o, value, size);
    }

    /** `callHelper`'s map helpers, on the map the fd names. */
    method CallMap(maps: seq<EbpfMap>, id: int, fd: u64, key: u64, value: u64, ghost e: Env, ghost h: Host)
      returns (result: int, fault: Option<Abort>, ghost after: Host)
      requires 1 <= id <= 3 && e.fds == Fds(maps) && Match(maps, h)
      modifies maps
      ensures Match(maps, after)
      ensures MapHelper(e, h, id, fd, key, value)
           == if fault.Some? then Fails(fault.value) else Gives(result, after)
      ensures fault.Some? ==> after == h
      ensures after.trace == h.trace && after.ticks == h.ticks
    {
      hide Put, Plus, GetOr0, Refuses, FirstFdFrom;
      result, fault, after := 0, None, h;
      if fd >= |maps| {
        return 0, Some(NoMapAtFd), h;
      }
      ghost var m := FirstFd(maps, fd);
      if id == 1 {
        var found;
        result, found := maps[fd].Get(key);
        assert key == U64(key);
      } else {
        var ok;
        if id == 2 {
          ok := maps[fd].Set(key, value);
          after := h.(maps := h.maps[m := Put(h.maps[m], key, value)]);
        } else {
          ok := maps[fd].Add(key, value);
          after := h.(maps := h.maps[m := Plus(h.maps[m], key, value)]);
        }
        assert key == U64(key);
        result := if ok then 0 else -1;
        StillMatch(maps, fd, h, after);
      }
    }

    /** Writing the map behind one fd updates the host entry of every fd that names the same map. */
    lemma StillMatch(maps: seq<EbpfMap>, fd: nat, h: Host, after: Host)
      requires fd < |maps| == |h.maps|
      requires after.maps == h.maps[FirstFd(maps, fd) := maps[fd].Value()]
      requires forall k :: 0 <= k < |maps| && maps[k] != maps[fd] ==> maps[k].Value() == h.maps[FirstFd(maps, k)]
      ensures Match(maps, after)
    {
      forall k | 0 <= k < |maps|
        ensures maps[k].Value() == after.maps[FirstFd(maps, k)]
      {
        if maps[k] == maps[fd] {
          assert FirstFd(maps, k) == FirstFd(maps, fd);
        }
      }
    }

    method CallTrace(value: u64, trace: seq<u64>, ghost e: Env, ghost h: Host)
      returns (traced: seq<u64>, ghost after: Host)
      requires h.trace == trace
      ensures after == h.(trace := traced)
      ensures forall x, y :: Helper(e, h, 4, value, x, y) == Gives(0, after)
    {
      traced := trace + [value];
      after := h.(trace := traced);
    }

    method CallClock(ticks: nat, clock: nat -> int, ghost e: Env, ghost h: Host)
      returns (reading: int, ticked: nat, ghost after: Host)
      requires h.ticks == ticks && e.clock == clock
      ensures after == h.(ticks := ticked)
      ensures forall x, y, z :: Helper(e, h, 5, x, y, z) == Gives(reading, after)
    {
      reading, ticked := clock(ticks), ticks + 1;
      after := h.(ticks := ticked);
    }

    /** `callHelper` */
    method CallHelper(maps: seq<EbpfMap>, id: int, r1: u64, r2: u64, r3: u64, trace: seq<u64>, ticks: nat,
                      clock: nat -> int, ghost e: Env, ghost h: Host)
      returns (result: int, traced: seq<u64>, ticked: nat, fault: Option<Abort>, ghost after: Host)
      requires e.fds == Fds(maps) && e.clock == clock && Match(maps, h) && h.trace == trace && h.ticks == ticks
      modifies maps
      ensures Helper(e, h, id, r1, r2, r3) == if fault.Some? then Fails(fault.value) else Gives(result, after)
      ensures fault.Some? ==> after == h
      ensures Match(maps, after) && after.trace == traced && after.ticks == ticked
    {
      hide MapHelper;
      result, traced, ticked, fault, after := 0, trace, ticks, None, h;
      if 1 <= id <= 3 {
        result, fault, after := CallMap(maps, id, r1, r2, r3, e, h);
      } else if id == 4 {
        traced, after := CallTrace(r1, trace, e, h);
      } else if id == 5 {
        result, ticked, after := CallClock(ticks, clock, e, h);
      } else {
        fault := Some(NoSuchHelper);
      }
    }

    /** A CALL: run the helper, return its result in r0, clear r1 to r5. */
    method ExecuteCall(maps: seq<EbpfMap>, id: int, regs: array<u64>, trace: seq<u64>, ticks: nat, clock: nat -> int,
                       ghost e: Env, ghost s: State)
      returns (traced: seq<u64>, ticked: nat, fault: Option<Abort>, ghost after: State)
      requires regs[..] == s.regs && e.fds == Fds(maps) && e.clock == clock
      requires Match(maps, s.host) && s.host.trace == trace && s.host.ticks == ticks
      modifies regs, maps
      ensures StepCall(e, id, s) == if fault.Some? then Aborted(fault.value, s) else Next(after)
      ensures fault.Some? ==> after == s
      ensures regs.Length == 11 && regs[..] == after.regs && after.stack == s.stack
      ensures Match(maps, after.host) && after.host.trace == traced && after.host.ticks == ticked
      ensures fault.None? ==> after.pc == s.pc + 1
    {
      hide Helper, Clobbered, U64, Match;
      var result;
      ghost var host;
      after := s;
      result, traced, ticked, fault, host :=
        CallHelper(maps, id, regs[1], regs[2], regs[3], trace, ticks, clock, e, s.host);
      if fault.None? {
        ReturnFromCall(regs, U64(result));
        after := State(s.pc + 1, Clobbered(s.regs, U64(result)), s.stack, host);
      }
    }

    method ReturnFromCall(regs: array<u64>, result: u64)
      requires regs.Length == 11
      modifies regs
      ensures regs[..] == Clobbered(old(regs[..]), result)
    {
      regs[0] := result;
      regs[1], regs[2], regs[3], regs[4], regs[5] := 0, 0, 0, 0, 0;
    }

    /** One turn of the loop. The ghost out-parameter is the model's next state. */
    method Turn(ctx: array<byte>, maps: seq<EbpfMap>, clock: nat -> int, regs: array<u64>, stack: array<byte>,
                pc: int, trace: seq<u64>, ticks: nat, ghost e: Env, ghost s: State)
      returns (done: Option<Outcome>, pc': int, traced: seq<u64>, ticked: nat, ghost after: State)
      requires Valid() && Good(insns, s)
      requires e == Env(ctx[..], Fds(maps), clock)
      requires s.pc == pc && regs[..] == s.regs && stack[..] == s.stack && ctx != stack
      requires Match(maps, s.host) && s.host.trace == trace && s.host.ticks == ticks
      modifies regs, stack, maps
      ensures match done
              case None => Step(insns, e, s) == Next(after)
              case Some(Value(r0)) => Step(insns, e, s) == Returned(r0, after)
              case Some(Threw(why)) => Step(insns, e, s) == Aborted(why, after)
      ensures regs.Length == 11 && stack.Length == 512
      ensures after.pc == pc' && regs[..] == after.regs && stack[..] == after.stack
      ensures Match(maps, after.host) && after.host.trace == traced && after.host.ticks == ticked
    {
      hide StepAlu, StepJump, StepCall, StepLddw, StepLoad, StepStore;
      done, pc', traced, ticked, after := None, pc, trace, ticks, s;
      var i := insns[pc];
      VerifiedFields(e, s);
      var c := Class(i);
      var fault := None;
      if c == 7 || c == 4 {
        after := ExecuteAlu(i, pc, regs, e, s);
        pc' := pc + 1;
      } else if c == 5 && Operation(i) == 8 {
        traced, ticked, fault, after := ExecuteCall(maps, i.imm, regs, trace, ticks, clock, e, s);
        pc' := if fault.Some? then pc else pc + 1;
      } else if c == 5 && Operation(i) == 9 {
        done := Some(Value(regs[0]));
      } else if c == 5 || c == 6 {
        pc', fault := ExecuteJump(i, pc, regs, e, s);
        after := s.(pc := pc');
      } else if c == 0 {
        after := ExecuteLddw(i, insns[pc + 1], pc, regs, s);
        pc' := pc + 2;
      } else if c == 1 {
        fault, after := ExecuteLoad(i, pc, ctx, regs, stack, e, s);
        pc' := if fault.Some? then pc else pc + 1;
      } else {
        fault, after := ExecuteStore(i, pc, ctx, regs, stack, e, s);
        pc' := if fault.Some? then pc else pc + 1;
      }
      if fault.Some? {
        done := Some(Threw(fault.value));
      }
    }

    /** What the verifier established about the instruction at pc, and how a call or an exit steps. */
    lemma VerifiedFields(e: Env, s: State)
      requires Valid() && Good(insns, s)
      ensures var i := insns[s.pc];
              && i.src <= 10 && 0 <= Class(i) <= 7
              && (Class(i) in {0, 1, 4, 7} ==> i.dst <= 9)
              && (Class(i) == 0 ==> s.pc + 1 < |insns|)
              && (Class(i) == 5 && Operation(i) == 8 ==> StepJump(e, i, s) == StepCall(e, i.imm, s))
              && (Class(i) == 5 && Operation(i) == 9 ==> StepJump(e, i, s) == Returned(s.regs[0], s))
    {
      var i := insns[s.pc];
      ClassFacts(i);
      assert CheckInsn(insns, s.pc).None?;
      assert !Unpaired(insns, s.pc);
    }

    /** Fresh registers and a zeroed stack. */
    method Buffers() returns (regs: array<u64>, stack: array<byte>)
      ensures fresh(regs) && fresh(stack)
      ensures forall h :: regs[..] == Start(h).regs && stack[..] == Start(h).stack
    {
      regs := new u64[11](_ => 0);
      regs[1] := CTX_BASE;
      regs[10] := STACK_TOP;
      stack := new byte[512](_ => 0);
      assert stack[..] == ZeroBytes(512);
    }

    lemma RunUnfolds(e: Env, s: State, budget: nat)
      requires budget > 0
      ensures Machine.Run(insns, e, s, budget)
           == match Step(insns, e, s)
              case Next(t) => Machine.Run(insns, e, t, budget - 1)
              case Returned(r0, t) => Returned(r0, t)
              case Aborted(why, t) => Aborted(why, t)
    {
    }

    method Loop(ctx: array<byte>, maps: seq<EbpfMap>, clock: nat -> int, regs: array<u64>, stack: array<byte>,
                ghost e: Env, ghost start: State)
      returns (outcome: Outcome, trace: seq<u64>, ghost final: Host)
      requires Valid() && Good(insns, start)
      requires e == Env(ctx[..], Fds(maps), clock) && ctx != stack
      requires start.pc == 0 && regs[..] == start.regs && stack[..] == start.stack
      requires Match(maps, start.host) && start.host.trace == [] && start.host.ticks == 0
      modifies regs, stack, maps
      ensures ctx[..] == old(ctx[..])
      ensures var r := Machine.Run(insns, e, start, maxInstructions);
              outcome == OutcomeOf(r) && final == r.s.host
      ensures Match(maps, final) && trace == final.trace
    {
      hide Step, Accepted, Good, Match, Machine.Run;
      trace := [];
      var pc, steps, ticks := 0, 0, 0;
      ghost var s := start;
      while true
        invariant 0 <= steps <= maxInstructions
        invariant ctx[..] == e.ctx && Good(insns, s)
        invariant s.pc == pc && regs[..] == s.regs && stack[..] == s.stack
        invariant Match(maps, s.host) && s.host.trace == trace && s.host.ticks == ticks
        invariant Machine.Run(insns, e, start, maxInstructions) == Machine.Run(insns, e, s, maxInstructions - steps)
        decreases maxInstructions - steps
      {
        steps := steps + 1;
        if steps > maxInstructions {
          assert Machine.Run(insns, e, s, 0) == Aborted(BudgetExceeded, s) by { NothingLeft(e, s); }
          return Threw(BudgetExceeded), trace, s.host;
        }
        StepIsSafe(insns, e, s);
        RunUnfolds(e, s, maxInstructions - steps + 1);
        var done;
        done, pc, trace, ticks, s := Turn(ctx, maps, clock, regs, stack, pc, trace, ticks, e, s);
        if done.Some? {
          return done.value, trace, s.host;
        }
      }
    }

    lemma NothingLeft(e: Env, s: State)
      ensures Machine.Run(insns, e, s, 0) == Aborted(BudgetExceeded, s)
    {
    }

    /**
     * `run`: the context is only read; the maps are left as the model's run leaves them, whether the program returns or
     * throws. `final` is the model's last state.
     */
    method Run(ctx: array<byte>, maps: seq<EbpfMap>, clock: nat -> int)
      returns (outcome: Outcome, trace: seq<u64>, ghost final: Host)
      requires Valid()
      modifies maps
      ensures ctx[..] == old(ctx[..])
      ensures var r := Machine.Run(insns, Env(ctx[..], Fds(maps), clock),
                                   Start(Host(old(Values(maps)), [], 0)), maxInstructions);
              outcome == OutcomeOf(r) && final == r.s.host
      ensures Match(maps, final) && trace == final.trace
    {
      hide Machine.Run;
      var regs, stack := Buffers();
      ghost var host := Host(Values(maps), [], 0);
      StartIsGood(insns, host);
      outcome, trace, final :=
        Loop(ctx, maps, clock, regs, stack, Env(ctx[..], Fds(maps), clock), Start(host));
    }
  }
}
