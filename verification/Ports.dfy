/** The Python interpreter accepts the programs the TypeScript one accepts, and runs them to the same ends. */
module Ports {
  import opened Words
  import opened Codec
  import opened Options
  import opened Verifier
  import opened Maps
  import opened Machine
  import opened Safety
  import opened Addresses
  import Py = PythonVm

  // Masks and residues

  lemma {:induction false} AndIsBigAnd(a: nat, b: nat)
    ensures Py.And(a, b) == BigAnd(a, b)
    decreases b
  {
    if b != 0 {
      AndIsBigAnd(a / 2, b / 2);
      if a == 0 {
        assert BigAnd(0, b / 2) == 0;
      }
    }
  }

  /** Masking with 2^k - 1 leaves the residue, of negative numbers too. */
  lemma {:induction false} MaskIsResidue(k: nat, x: int, mask: nat)
    requires mask == Pow2(k) - 1
    ensures Py.And(x, mask) == Trunc(k, x)
    decreases k
  {
    if k == 0 {
      ModUnique(x, 1, x, 0);
    } else {
      MaskIsResidue(k - 1, x / 2, mask / 2);
      TruncStep(k, x);
    }
  }

  lemma Truncates(w: Width, x: int)
    ensures Py.Truncate(x, w) == Word(w, x)
    ensures Py.Mask64(x) == U64(x)
  {
    hide Pow2, Py.And;
    Pow2Values();
    MaskIsResidue(w, x, Pow2(w) - 1);
    MaskIsResidue(64, x, Pow2(64) - 1);
  }

  /** The two interpreters read the same signed number out of a word. */
  lemma SignedAgrees(w: nat, x: int)
    requires w > 0
    ensures Py.ToSigned(x, w) == AsIntN(w, x)
  {
    hide Py.And, BigAnd;
    var h := Pow2(w - 1);
    var v := Trunc(w, x);
    MaskIsResidue(w, x, Pow2(w) - 1);
    AndIsBigAnd(v, h);
    TopBit(w - 1, v);
    assert x == 2 * h * (x / (2 * h)) + v;
    if v < h {
      ModUnique(x + h, 2 * h, x / (2 * h), v + h);
    } else {
      ModUnique(x + h, 2 * h, x / (2 * h) + 1, v - h);
    }
  }

  lemma SmallMasks(x: nat)
    ensures Py.And(x, 0x07) == x % 8 && Py.And(x, 0x0f) == x % 16 && Py.And(x, 3) == x % 4 && Py.And(x, 1) == x % 2
    ensures Shr(x, 4) == x / 16
  {
    hide Py.And;
    assert Pow2(1) == 2 && Pow2(2) == 4 && Pow2(3) == 8 && Pow2(4) == 16;
    MaskIsResidue(1, x, 1);
    MaskIsResidue(2, x, 3);
    MaskIsResidue(3, x, 0x07);
    MaskIsResidue(4, x, 0x0f);
  }

  lemma EvenMask(x: nat, half: nat, mask: nat)
    requires mask == 2 * half
    ensures Py.And(x, mask) == 2 * Py.And(x / 2, half)
  {
  }

  lemma ShiftedMask(x: nat, m: nat)
    ensures Py.And(x, 8 * m) == 8 * Py.And(x / 8, m)
  {
    hide Py.And;
    var two, four, eight := 2 * m, 4 * m, 8 * m;
    EvenMask(x, four, eight);
    EvenMask(x / 2, two, four);
    EvenMask(x / 4, m, two);
    assert x / 2 / 2 == x / 4 && x / 4 / 2 == x / 8;
  }

  /** The fields of an opcode by masks and by division. */
  lemma OpcodeFields(i: Insn)
    ensures Py.And(i.opcode, 0x07) == Class(i) && Shr(i.opcode, 4) == Operation(i)
    ensures Py.And(i.opcode, 0x08) != 0 <==> UsesRegister(i)
    ensures Py.And(i.opcode, 0xe0) == 0x60 <==> MemMode(i)
    ensures Py.SizeOfOpcode(i.opcode) == SizeOf(i)
  {
    hide Py.And, Shr;
    var x := i.opcode;
    SmallMasks(x);
    SmallMasks(x / 8);
    SmallMasks(x / 32);
    ShiftedMask(x, 1);
    ShiftedMask(x, 3);
    ShiftedMask(x, 0x1c);
    TwoShifts(x / 8);
  }

  lemma TwoShifts(y: nat)
    requires y < 32
    ensures Py.And(y, 0x1c) == 4 * (y / 4)
  {
    hide Py.And;
    EvenMask(y, 0x0e, 0x1c);
    EvenMask(y / 2, 0x07, 0x0e);
    SmallMasks(y / 4);
  }

  // Decoding and verification

  lemma DecodesAlike(b: Slot)
    ensures var i := DecodeSlot(b);
            Py.DecodeRaw(b) == Py.Raw(i.opcode, i.dst, i.src, i.off, i.imm)
  {
    hide Py.And, Shr, Py.Unpack, LeValue, Wrap16, Wrap32;
    SmallMasks(b[1]);
    SmallMasks(b[1] / 16);
    UnpacksAlike(b[2..4]);
    UnpacksAlike(b[4..8]);
  }

  lemma UnpacksAlike(b: seq<byte>)
    ensures |b| == 2 ==> Py.Unpack(b) == Wrap16(LeValue(b))
    ensures |b| == 4 ==> Py.Unpack(b) == Wrap32(LeValue(b))
  {
    hide Pow2, LeValue;
    Pow2Values();
    if |b| == 2 {
      LastByte(b[1..]);
      FirstByte(b);
    } else if |b| == 4 {
      LastByte(b[3..]);
      FirstByte(b[2..]);
      FirstByte(b[1..]);
      FirstByte(b);
      assert b[1..][1..] == b[2..] && b[2..][1..] == b[3..];
    }
  }

  lemma FirstByte(b: seq<byte>)
    requires b != []
    ensures LeValue(b) == b[0] as int + 0x100 * LeValue(b[1..])
  {
  }

  lemma LastByte(b: seq<byte>)
    requires |b| == 1
    ensures LeValue(b) == b[0]
  {
    assert b[1..] == [];
  }

  lemma ChecksAlike(p: seq<Insn>, at: nat, second: seq<bool>)
    requires at < |p| == |second| && forall k :: 0 <= k < |p| ==> second[k] == IsSecond(p, k)
    ensures Py.Check(p[at], at, |p|, second) == CheckInsn(p, at)
  {
    hide Py.And, Shr, IsSecond;
    OpcodeFields(p[at]);
  }

  /** `_decode` */
  method DecodeProgram(program: seq<byte>) returns (r: DecodeResult)
    ensures r == Decode(program)
  {
    hide DecodeSlot, Py.DecodeRaw;
    if |program| == 0 || |program| % 8 != 0 {
      return BadLength;
    }
    var insns: seq<Insn> := [];
    var i := 0;
    while i < |program|
      invariant 0 <= i <= |program| && i % 8 == 0
      invariant |insns| == i / 8
      invariant forall k :: 0 <= k < i / 8 ==> insns[k] == DecodeSlot(SlotAt(program, k))
    {
      var b := program[i..i + 8];
      assert b == SlotAt(program, i / 8);
      DecodesAlike(b);
      var raw := Py.DecodeRaw(b);
      insns := insns + [Insn(raw.opcode, raw.dst, raw.src, raw.off, raw.imm)];
      i := i + 8;
    }
    assert insns == Slots(program);
    r := Decoded(insns);
  }

  /** The pairing pass: a while loop that looks at every slot, second slots too. */
  method PairLddw(insns: seq<Insn>) returns (isLddwSecond: array<bool>, unpaired: Option<nat>)
    ensures fresh(isLddwSecond) && isLddwSecond.Length == |insns|
    ensures match unpaired
            case Some(at) => FirstUnpaired(insns, at)
            case None => AllPaired(insns) && forall k :: 0 <= k < |insns| ==> isLddwSecond[k] == IsSecond(insns, k)
  {
    isLddwSecond := new bool[|insns|](_ => false);
    unpaired := None;
    var i := 0;
    while i < |insns|
      invariant 0 <= i <= |insns|
      invariant forall k :: 0 <= k < |insns| ==> isLddwSecond[k] == (k <= i && IsSecond(insns, k))
      invariant forall k :: 0 <= k < i ==> !Unpaired(insns, k)
    {
      if !isLddwSecond[i] && insns[i].opcode == 0x18 {
        if i + 1 >= |insns| || insns[i + 1].opcode != 0 {
          return isLddwSecond, Some(i);
        }
        isLddwSecond[i + 1] := true;
      }
      i := i + 1;
    }
  }

  /** `verify_program` on decoded instructions. */
  method VerifyInsns(insns: seq<Insn>) returns (r: VerifyResult)
    requires insns != []
    ensures r == Verified(insns) || (r.Rejected? && Explains(r.error, insns))
    ensures r.Verified? <==> Accepted(insns)
  {
    hide IsSecond, Py.Check, CheckInsn;
    if |insns| > 4096 {
      return Rejected(TooLarge);
    }
    var isLddwSecond, unpaired := PairLddw(insns);
    if unpaired.Some? {
      return Rejected(LddwUnpaired(unpaired.value));
    }
    for index := 0 to |insns|
      invariant forall k :: 0 <= k < |insns| ==> isLddwSecond[k] == IsSecond(insns, k)
      invariant forall k :: 0 <= k < index && !IsSecond(insns, k) ==> CheckInsn(insns, k).None?
    {
      if !isLddwSecond[index] {
        var error := Py.Check(insns[index], index, |insns|, isLddwSecond[..]);
        ChecksAlike(insns, index, isLddwSecond[..]);
        if error.Some? {
          CheckedErrors(insns, index);
          assert FirstFailing(insns, index, error.value);
          return Rejected(error.value);
        }
      }
    }
    var last := |insns| - 1;
    if isLddwSecond[last] || insns[last].opcode != 0x95 {
      return Rejected(NoFinalExit);
    }
    return Verified(insns);
  }

  lemma CheckedErrors(p: seq<Insn>, at: nat)
    requires at < |p| && CheckInsn(p, at).Some?
    ensures CheckInsn(p, at).value !in {EmptyOrMisaligned, TooLarge, NoFinalExit}
    ensures !CheckInsn(p, at).value.LddwUnpaired?
  {
  }

  /** `verify_program`: the contract of the TypeScript verifier, word for word. */
  method VerifyProgram(program: seq<byte>) returns (r: VerifyResult)
    ensures match Decode(program)
            case BadLength => r == Rejected(EmptyOrMisaligned)
            case Decoded(p) =>
              if Accepted(p) then r == Verified(p) else r.Rejected? && Explains(r.error, p)
  {
    var decoded := DecodeProgram(program);
    match decoded
    case BadLength => r := Rejected(EmptyOrMisaligned);
    case Decoded(p) => r := VerifyInsns(p);
  }

  /** That contract leaves no choice: both verifiers refuse a program for the same reason. */
  lemma OneReason(p: seq<Insn>, e: VerifyError, f: VerifyError)
    requires p != [] && Explains(e, p) && Explains(f, p)
    ensures e == f
  {
    hide CheckInsn, IsSecond;
    if !e.TooLarge? && !f.TooLarge? && !e.LddwUnpaired? && !f.LddwUnpaired? && !e.NoFinalExit? && !f.NoFinalExit? {
      var i :| FirstFailing(p, i, e);
      var j :| FirstFailing(p, j, f);
      assert i == j;
    }
  }

  // Steps

  lemma AluAlike(w: Width, op: int, a: nat, b: nat)
    ensures Py.AluValue(op, w, a, b) == AluOut(w, op, a, b)
    ensures Py.Take(op, w, a, b) == Taken(w, op, a, b)
  {
    hide Py.And, Py.ToSigned, BigAnd, BigOr, BigXor, Shl, Shr, AsIntN;
    AndIsBigAnd(b, w - 1);
    AndIsBigAnd(a, b);
    SignedAgrees(w, a);
    SignedAgrees(w, b);
  }

  lemma HelpersAlike(e: Env, h: Host, id: int, r1: u64, r2: u64, r3: u64)
    ensures var py, ts := Py.CallHelper(e, h, id, r1, r2, r3), Helper(e, h, id, r1, r2, r3);
            if py.Fails? then ts == py
            else ts.Gives? && ts.host == py.host && U64(ts.value) == Py.Mask64(py.value)
  {
    hide Py.Mask64;
    forall x
      ensures Py.Mask64(x) == U64(x)
    {
      Truncates(64, x);
    }
  }

  lemma OperandsAlike(i: Insn, w: Width, s: State)
    ensures Py.Readable(i) == HasOperands(i)
    ensures HasOperands(i) ==> Py.Right(i, w, s) == Operand(w, i, s.regs)
  {
    hide Py.And, Py.Truncate, Word;
    OpcodeFields(i);
    if HasOperands(i) {
      Truncates(w, if UsesRegister(i) then s.regs[i.src] else i.imm);
    }
  }

  lemma StepAluAlike(e: Env, i: Insn, s: State)
    requires Class(i) in {4, 7}
    ensures Py.Alu(i, s) == StepAlu(e, i, s)
  {
    hide Py.And, Py.Truncate, Word, Py.AluValue, AluOut, Py.Right, Operand, Shr, Pow2;
    OpcodeFields(i);
    var w: Width := if Class(i) == 7 then 64 else 32;
    OperandsAlike(i, w, s);
    if HasOperands(i) {
      var a, b := Word(w, s.regs[i.dst]), Operand(w, i, s.regs);
      Truncates(w, s.regs[i.dst]);
      AluAlike(w, Operation(i), a, b);
      Truncates(w, AluOut(w, Operation(i), a, b));
    }
  }

  lemma StepJumpAlike(e: Env, i: Insn, s: State)
    requires Class(i) in {5, 6}
    ensures Py.Jmp(e, i, s) == StepJump(e, i, s)
  {
    hide Py.And, Py.Truncate, Word, Py.Take, Taken, Py.Right, Operand, Shr, Py.CallHelper, Helper, Py.Mask64;
    OpcodeFields(i);
    var w: Width := if Class(i) == 5 then 64 else 32;
    OperandsAlike(i, w, s);
    HelpersAlike(e, s.host, i.imm, s.regs[1], s.regs[2], s.regs[3]);
    if HasOperands(i) {
      Truncates(w, s.regs[i.dst]);
      AluAlike(w, Operation(i), Word(w, s.regs[i.dst]), Operand(w, i, s.regs));
    }
  }

  lemma LowWord(x: int)
    ensures Py.And(x, 0xffff_ffff) == x % TWO32
  {
    hide Py.And, Pow2;
    Pow2Values();
    MaskIsResidue(32, x, 0xffff_ffff);
  }

  lemma StepWideAlike(p: seq<Insn>, s: State)
    requires 0 <= s.pc < |p|
    ensures Py.Wide(p, p[s.pc], s) == StepLddw(p, p[s.pc], s)
  {
    hide Py.And, BigOr, Shl;
    if s.pc + 1 < |p| {
      var lo, hi := p[s.pc].imm, p[s.pc + 1].imm;
      LowWord(lo);
      LowWord(hi);
      Py.HalvesFit(lo % TWO32, hi % TWO32);
    }
  }

  lemma StoredAlike(value: int, size: nat)
    ensures LeBytes(Py.Truncate(value, size * 8), size) == LeBytes(value, size)
  {
    var v := Py.Truncate(value, size * 8);
    MaskIsResidue(size * 8, value, Pow2(size * 8) - 1);
    LeValueOfBytes(v, size);
    LeValueOfBytes(value, size);
    ModUnique(v, Pow2(8 * size), 0, v);
    LeInjective(LeBytes(v, size), LeBytes(value, size));
  }

  lemma WrapsAlike(e: Env, base: u64, off: i16, size: nat, write: bool)
    requires CtxFits(e) && size > 0
    ensures Py.Mask64(base + off) == Wrapped(base, off)
    ensures Resolve(Wrapped(base, off), size, write, |e.ctx|)
         == Resolve(EffectiveAddress(base, off), size, write, |e.ctx|)
  {
    hide Py.Mask64;
    Truncates(64, base + off);
    AddressesAgree(base, off, size, write, |e.ctx|);
  }

  lemma LoadsAlike(ctx: seq<byte>, stack: Stack, addr: int, size: nat)
    requires size <= 8
    ensures Py.Load(ctx, stack, addr, size)
         == match Resolve(addr, size, false, |ctx|)
            case Fault(why) => Py.LoadRaises(why)
            case InCtx(o) => Py.Loads(Word(64, LeValue(ctx[o..o + size])))
            case InStack(o) => Py.Loads(Word(64, LeValue(stack[o..o + size])))
  {
    hide LeValue;
    Py.BytesFit();
  }

  lemma StepLoadAlike(e: Env, i: Insn, s: State)
    requires CtxFits(e) && i.dst <= 10
    ensures Py.Ldx(e, i, s) == StepLoad(e, i, s)
  {
    hide Py.And, Py.Mask64, LeValue, Word, Py.Load, Resolve, Wrapped, EffectiveAddress, SizeOf, Py.SizeOfOpcode;
    OpcodeFields(i);
    if i.src <= 10 {
      WrapsAlike(e, s.regs[i.src], i.off, SizeOf(i), false);
      LoadsAlike(e.ctx, s.stack, Wrapped(s.regs[i.src], i.off), SizeOf(i));
    }
  }

  lemma StepStoreAlike(e: Env, i: Insn, s: State)
    requires CtxFits(e) && Class(i) in {2, 3}
    ensures Py.St(e, i, s, Class(i) == 2) == StepStore(e, i, s)
  {
    hide Py.And, Py.Truncate, Py.Mask64, LeBytes, Pow2, Wrapped, EffectiveAddress, SizeOf, Py.SizeOfOpcode;
    OpcodeFields(i);
    if i.dst <= 10 {
      WrapsAlike(e, s.regs[i.dst], i.off, SizeOf(i), true);
      if Class(i) == 2 || i.src <= 10 {
        StoredAlike(if Class(i) == 3 then s.regs[i.src] else i.imm, SizeOf(i));
      }
    }
  }

  /** On every first slot of an accepted program both take the same step. */
  lemma StepsAgree(p: seq<Insn>, e: Env, s: State)
    requires CtxFits(e) && Accepted(p) && IsTarget(p, s.pc)
    ensures Py.PythonStep(p, e, s) == Step(p, e, s)
  {
    hide Py.And, Py.Alu, StepAlu, Py.Jmp, StepJump, Py.Wide, StepLddw, Py.Ldx, StepLoad, Py.St, StepStore;
    var i := p[s.pc];
    OpcodeFields(i);
    ClassFacts(i);
    assert CheckInsn(p, s.pc).None?;
    if Class(i) in {4, 7} {
      StepAluAlike(e, i, s);
    } else if Class(i) in {5, 6} {
      StepJumpAlike(e, i, s);
    } else if Class(i) == 0 {
      StepWideAlike(p, s);
    } else if Class(i) == 1 {
      StepLoadAlike(e, i, s);
    } else {
      StepStoreAlike(e, i, s);
    }
  }

  /** Off the program they need not: Python's list takes -1 for the last instruction. */
  lemma NegativeCounterDiffers(e: Env, s: State)
    requires s.pc == -1
    ensures var p := [Insn(EXIT, 0, 0, 0, 0)];
            Py.PythonStep(p, e, s).Returned? && Step(p, e, s) == Aborted(NoSuchInstruction, s)
  {
    hide Py.And;
    OpcodeFields(Insn(EXIT, 0, 0, 0, 0));
  }

  lemma GoodTarget(p: seq<Insn>, s: State)
    requires Good(p, s)
    ensures IsTarget(p, s.pc)
  {
  }

  /**
   * For every accepted program, from every good state and so from the start: the same r0, final maps and trace, or the
   * same abort, whatever the clock reads and the budget is.
   */
  lemma {:induction false} PortsAgree(p: seq<Insn>, e: Env, s: State, steps: nat, maxInstructions: nat)
    requires Accepted(p) && Good(p, s) && CtxFits(e) && steps <= maxInstructions
    ensures Py.PythonRun(p, e, s, steps, maxInstructions) == Run(p, e, s, maxInstructions - steps)
    decreases maxInstructions - steps
  {
    hide Step, Py.PythonStep, Accepted, Good, IsTarget;
    if steps < maxInstructions {
      GoodTarget(p, s);
      StepsAgree(p, e, s);
      StepIsSafe(p, e, s);
      match Step(p, e, s) {
        case Next(t) => PortsAgree(p, e, t, steps + 1, maxInstructions);
        case _ =>
      }
    }
  }

  /** Both begin a run with the same registers and stack, and clamp the budget alike. */
  lemma StartsAlike(host: Host, requested: Option<int>)
    ensures Py.PythonStart(host) == Start(host)
    ensures Py.PythonBudget(requested) == Budget(requested)
  {
    var python, start := Py.PythonStart(host), Start(host);
    assert python.regs == start.regs;
    assert python.stack == start.stack;
  }

  /** So from their own starts and under their own budgets, the two runs end alike. */
  lemma RunsAlike(p: seq<Insn>, e: Env, host: Host, requested: Option<int>)
    requires Accepted(p) && CtxFits(e)
    ensures Py.PythonRun(p, e, Py.PythonStart(host), 0, Py.PythonBudget(requested))
         == Run(p, e, Start(host), Budget(requested))
  {
    hide Accepted, Run, Py.PythonRun, Py.PythonStart, Start, Budget, Py.PythonBudget;
    StartsAlike(host, requested);
    StartIsGood(p, host);
    PortsAgree(p, e, Start(host), 0, Budget(requested));
  }
}
