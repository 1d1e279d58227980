/** The interpreter refines the instruction set: every step, and so every run, is the bit-vector machine's. */
module Refinement {
  import opened Words
  import opened BitVectors
  import opened Codec
  import opened Verifier
  import opened Machine
  import opened Addresses
  import opened Isa

  function RegBits(r: Registers): (b: RegisterFile)
    ensures forall k :: 0 <= k < 11 ==> b[k] == ToBits(64, r[k])
  {
    seq(11, k requires 0 <= k < 11 => ToBits(64, r[k]))
  }

  function Rep(s: State): IsaState {
    IsaState(s.pc, RegBits(s.regs), FlatBits(s.stack), s.host)
  }

  function RepResult(r: Result): IsaResult {
    match r
    case Next(s) => Continues(Rep(s))
    case Returned(r0, s) => Exits(ToBits(64, r0), Rep(s))
    case Aborted(why, s) => Stops(why, Rep(s))
  }

  lemma RegUpdate(r: Registers, d: Reg, v: u64)
    ensures RegBits(r[d := v]) == RegBits(r)[d := ToBits(64, v)]
  {
  }

  // Words of either width

  lemma WordIsTrunc(w: Width, x: int)
    ensures Word(w, x) == Trunc(w, x)
  {
    Pow2Values();
  }

  lemma WordBits(w: Width, x: int)
    ensures ToBits(w, Word(w, x)) == ToBits(w, x)
    ensures ToBits(64, Word(w, x)) == ZeroExtended(ToBits(w, x))
  {
    WordIsTrunc(w, x);
    BitsOfTrunc(w, x);
    SignExtendByZero(w, 64 - w, Trunc(w, x));
  }

  lemma LowBits(w: nat, x: int)
    requires w <= 64
    ensures ToBits(64, x)[..w] == ToBits(w, x)
  {
    BitsSplit(w, 64 - w, x);
  }

  lemma BitsInjective(w: nat, a: nat, b: nat)
    requires a < Pow2(w) && b < Pow2(w)
    ensures Unsigned(ToBits(w, a)) == a
    ensures ToBits(w, a) == ToBits(w, b) <==> a == b
  {
    UnsignedOfBits(w, a);
    UnsignedOfBits(w, b);
    ModUnique(a, Pow2(w), 0, a);
    ModUnique(b, Pow2(w), 0, b);
  }

  lemma SignedIsTwosComplement(w: Width, x: int)
    ensures SignedWord(w, x) == TwosComplement(ToBits(w, x))
  {
    TwosComplementOfBits(w, x);
  }

  // Arithmetic

  lemma ShiftCounts(w: Width, b: nat)
    ensures BigAnd(b, w - 1) == ShiftCount(w, ToBits(w, b)) < w
  {
    var k: nat := if w == 64 then 6 else 5;
    Pow2Small();
    AndOfMask(k, b, w - 1);
    BitsSplit(k, w - k, b);
    UnsignedOfBits(k, b);
    assert ToBits(w, b)[..k] == ToBits(k, b);
  }

  lemma Pow2Small()
    ensures Pow2(5) == 32 && Pow2(6) == 64
  {
  }

  /** Every ALU operation of the interpreter is the RFC's, on operands cut to the width. */
  lemma AluRefines(w: Width, op: int, a: nat, b: nat)
    requires 0 <= op <= 0xc && a < Pow2(w) && b < Pow2(w)
    ensures AluResult(w, ALU_CODES[op], ToBits(w, a), ToBits(w, b)) == ToBits(w, AluOut(w, op, a, b))
  {
    hide ToBits, Pow2, BigAnd, BigOr, BigXor, Shl, Shr, SignedWord, Add, Subtract, Negate, Multiply, Not, And, Or, Xor;
    hide ShiftLeft, ShiftRight, Sign, ShiftCount, Unsigned;
    if op == 0 {
      AddMeaning(w, a, b, false);
    } else if op == 1 {
      SubtractMeaning(w, a, b);
    } else if op == 2 {
      MultiplyMeaning(w, a, w, b);
      ModUnique(b, Pow2(w), 0, b);
    } else if op == 3 || op == 9 {
      DivisionRefines(w, op, a, b);
    } else if op == 4 {
      OrMeaning(w, a, b);
    } else if op == 5 {
      AndMeaning(w, a, b);
    } else if op == 8 {
      NegateMeaning(w, a);
    } else if op == 10 {
      XorMeaning(w, a, b);
    } else if op == 11 {
    } else {
      ShiftRefines(w, op, a, b);
    }
  }

  lemma DivisionRefines(w: Width, op: int, a: nat, b: nat)
    requires op in {3, 9} && a < Pow2(w) && b < Pow2(w)
    ensures AluResult(w, ALU_CODES[op], ToBits(w, a), ToBits(w, b)) == ToBits(w, AluOut(w, op, a, b))
  {
    hide ToBits, Pow2, Unsigned, Divide;
    IsZero(w, b);
    BitsOfConstant(w, 0);
    if b > 0 {
      DivideBits(w, a, b);
    }
  }

  lemma IsZero(w: nat, b: nat)
    requires b < Pow2(w)
    ensures ToBits(w, b) == Zeros(w) <==> b == 0
  {
    hide ToBits, Pow2, Unsigned;
    BitsInjective(w, b, 0);
    BitsOfConstant(w, 0);
  }

  lemma ShiftRefines(w: Width, op: int, a: nat, b: nat)
    requires op in {6, 7, 0xc} && a < Pow2(w)
    ensures AluResult(w, ALU_CODES[op], ToBits(w, a), ToBits(w, b)) == ToBits(w, AluOut(w, op, a, b))
  {
    hide ToBits, Pow2, BigAnd, Shl, Shr, SignedWord, ShiftLeft, ShiftRight, Sign, ShiftCount;
    ShiftCounts(w, b);
    var n := BigAnd(b, w - 1);
    if op == 6 {
      ShiftLeftMeaning(w, a, n);
    } else if op == 7 {
      LogicalShiftMeaning(w, a, n);
    } else {
      ArithmeticShiftMeaning(w, a, n);
    }
  }

  lemma ArithmeticShiftMeaning(w: Width, a: int, n: nat)
    requires n <= w
    ensures ShiftRight(ToBits(w, a), n, Sign(ToBits(w, a))) == ToBits(w, Shr(SignedWord(w, a), n))
  {
    var y := AsIntN(w, a);
    AsIntNCongruent(w, a);
    BitsOfTrunc(w, a);
    BitsOfTrunc(w, y);
    SignExtend(w, 0, y);
    ShiftRightMeaning(w, y, n);
  }

  lemma {:induction false} AndBounded(a: nat, b: nat)
    ensures BigAnd(a, b) <= a
  {
    if a != 0 && b != 0 {
      AndBounded(a / 2, b / 2);
    }
  }

  /** Every comparison of the interpreter is the RFC's. */
  lemma BranchRefines(w: Width, code: int, a: nat, b: nat)
    requires ConditionOf(code).Some? && a < Pow2(w) && b < Pow2(w)
    ensures Holds(ConditionOf(code).value, ToBits(w, a), ToBits(w, b)) == Taken(w, code, a, b)
  {
    if code == 4 {
      BitTestRefines(w, a, b);
    } else if code in {6, 7, 0xc, 0xd} {
      SignedTestRefines(w, code, a, b);
    } else {
      UnsignedTestRefines(w, code, a, b);
    }
  }

  lemma SignedTestRefines(w: Width, code: int, a: nat, b: nat)
    requires code in {6, 7, 0xc, 0xd}
    ensures Holds(ConditionOf(code).value, ToBits(w, a), ToBits(w, b)) == Taken(w, code, a, b)
  {
    hide SignedWord, TwosComplement, ToBits;
    SignedIsTwosComplement(w, a);
    SignedIsTwosComplement(w, b);
  }

  lemma UnsignedTestRefines(w: Width, code: int, a: nat, b: nat)
    requires code in {1, 2, 3, 5, 0xa, 0xb} && a < Pow2(w) && b < Pow2(w)
    ensures Holds(ConditionOf(code).value, ToBits(w, a), ToBits(w, b)) == Taken(w, code, a, b)
  {
    hide ToBits, Pow2, Unsigned, SignedWord, TwosComplement;
    BitsInjective(w, a, b);
    BitsInjective(w, b, a);
  }

  lemma BitTestRefines(w: Width, a: nat, b: nat)
    requires a < Pow2(w)
    ensures And(ToBits(w, a), ToBits(w, b)) != Zeros(w) <==> BigAnd(a, b) != 0
  {
    AndMeaning(w, a, b);
    AndBounded(a, b);
    BitsInjective(w, BigAnd(a, b), 0);
    BitsOfConstant(w, 0);
  }

  lemma OperandRefines(w: Width, i: Insn, s: State)
    requires SourceOf(i).Some?
    ensures SourceWord(Rep(s), SourceOf(i).value)[..w] == ToBits(w, Operand(w, i, s.regs))
    ensures Operand(w, i, s.regs) < Pow2(w)
  {
    var x := if UsesRegister(i) then s.regs[i.src] else i.imm;
    WordIsTrunc(w, x);
    WordBits(w, x);
    LowBits(w, x);
    ImmediateBits(i.imm);
  }

  lemma ImmediateBits(imm: i32)
    ensures SignExtended(ToBits(32, imm)) == ToBits(64, imm)
  {
    Pow2Values();
    SignExtend(32, 32, imm);
  }

  lemma RegisterRefines(w: Width, s: State, d: Reg)
    ensures Rep(s).regs[d][..w] == ToBits(w, Word(w, s.regs[d]))
    ensures Word(w, s.regs[d]) < Pow2(w)
  {
    WordIsTrunc(w, s.regs[d]);
    WordBits(w, s.regs[d]);
    LowBits(w, s.regs[d]);
  }

  lemma AluValueRefines(w: Width, i: Insn, s: State)
    requires HasOperands(i) && SourceOf(i).Some? && 0 <= Operation(i) <= 0xc
    ensures ToBits(64, Word(w, AluOut(w, Operation(i), Word(w, s.regs[i.dst]), Operand(w, i, s.regs))))
         == ZeroExtended(AluResult(w, ALU_CODES[Operation(i)], Rep(s).regs[i.dst][..w],
                                   SourceWord(Rep(s), SourceOf(i).value)[..w]))
  {
    hide AluOut, AluResult, ToBits, Operand, ZeroExtended;
    var a, b := Word(w, s.regs[i.dst]), Operand(w, i, s.regs);
    OperandRefines(w, i, s);
    RegisterRefines(w, s, i.dst);
    AluRefines(w, Operation(i), a, b);
    WordBits(w, AluOut(w, Operation(i), a, b));
  }

  lemma StepAluRefines(e: Env, i: Insn, s: State)
    requires Class(i) in {4, 7} && ReadAlu(i).Some? && i.off == 0
    ensures RepResult(StepAlu(e, i, s)) == Execute(e, ReadAlu(i).value, Rep(s))
  {
    hide AluOut, AluResult, Word, Operand, ZeroExtended, ToBits;
    var w: Width := if Class(i) == 7 then 64 else 32;
    AluValueRefines(w, i, s);
    var out := AluOut(w, Operation(i), Word(w, s.regs[i.dst]), Operand(w, i, s.regs));
    RegUpdate(s.regs, i.dst, Word(w, out));
  }

  lemma TakenRefines(w: Width, i: Insn, s: State)
    requires HasOperands(i) && SourceOf(i).Some? && ConditionOf(Operation(i)).Some?
    ensures Taken(w, Operation(i), Word(w, s.regs[i.dst]), Operand(w, i, s.regs))
         == Holds(ConditionOf(Operation(i)).value, Rep(s).regs[i.dst][..w],
                  SourceWord(Rep(s), SourceOf(i).value)[..w])
  {
    hide Taken, Holds, ToBits, Operand;
    OperandRefines(w, i, s);
    RegisterRefines(w, s, i.dst);
    BranchRefines(w, Operation(i), Word(w, s.regs[i.dst]), Operand(w, i, s.regs));
  }

  lemma StepJumpRefines(e: Env, i: Insn, s: State)
    requires Class(i) in {5, 6}
    requires ReadJump(i).Some? && !ReadJump(i).value.CallLocal? && !ReadJump(i).value.CallByType?
    ensures RepResult(StepJump(e, i, s)) == Execute(e, ReadJump(i).value, Rep(s))
  {
    hide Taken, Holds, Operand, StepCall, StepHelper, Word, RegBits, FlatBits, SourceWord;
    match ReadJump(i).value {
      case Branch(_, _, _, _, _) => StepBranchRefines(e, i, s);
      case CallHelper(_) => StepCallRefines(e, i.imm, s);
      case _ =>
    }
  }

  lemma StepBranchRefines(e: Env, i: Insn, s: State)
    requires Class(i) in {5, 6}
    requires ReadJump(i).Some? && ReadJump(i).value.Branch?
    ensures RepResult(StepJump(e, i, s)) == Execute(e, ReadJump(i).value, Rep(s))
  {
    hide Taken, Holds, Operand, Word, RegBits, FlatBits, SourceWord;
    TakenRefines(ReadJump(i).value.w, i, s);
  }

  lemma HalfOfSum(lo: nat, y: int)
    ensures (lo + 2 * y) / 2 == lo / 2 + y && (lo + 2 * y) % 2 == lo % 2
  {
  }

  lemma {:induction false} Halves(k: nat, n: nat, lo: nat, hi: int)
    requires lo < Pow2(k)
    ensures ToBits(k + n, lo + Shl(hi, k)) == ToBits(k, lo) + ToBits(n, hi)
  {
    hide ToBits;
    if k == 0 {
      BitsUnfold(0, lo);
      assert [] + ToBits(n, hi) == ToBits(n, hi);
    } else {
      HalfOfSum(lo, Shl(hi, k - 1));
      Halves(k - 1, n, lo / 2, hi);
      var low, high := ToBits(k - 1, lo / 2), ToBits(n, hi);
      BitsUnfold(k, lo);
      BitsUnfold(k + n, lo + Shl(hi, k));
      assert [lo % 2 == 1] + (low + high) == ([lo % 2 == 1] + low) + high;
    }
  }

  lemma LddwValue(low: i32, high: i32)
    ensures ToBits(64, Word(64, BigOr(low % TWO32, Shl(high % TWO32, 32)))) == ToBits(32, low) + ToBits(32, high)
  {
    hide ToBits, Pow2, BigOr, Shl;
    var lo, hi := low % TWO32, high % TWO32;
    WordIsTrunc(32, low);
    WordIsTrunc(32, high);
    OrOfDisjoint(32, lo, hi);
    Halves(32, 32, lo, hi);
    BitsOfTrunc(32, low);
    BitsOfTrunc(32, high);
    WordBits(64, BigOr(lo, Shl(hi, 32)));
  }

  lemma StepLddwRefines(p: seq<Insn>, e: Env, s: State)
    requires 0 <= s.pc && s.pc + 1 < |p| && p[s.pc].dst <= 10
    ensures var i := p[s.pc];
            RepResult(StepLddw(p, i, s)) == Execute(e, LoadImmediate(i.dst, i.imm, p[s.pc + 1].imm), Rep(s))
  {
    var i := p[s.pc];
    var lo, hi := i.imm % TWO32, p[s.pc + 1].imm % TWO32;
    LddwValue(i.imm, p[s.pc + 1].imm);
    RegUpdate(s.regs, i.dst, Word(64, BigOr(lo, Shl(hi, 32))));
  }

  lemma ClobberRefines(r: Registers, value: int)
    ensures RegBits(Clobbered(r, Maps.U64(value))) == ReturnBits(RegBits(r), ToBits(64, value))
  {
    WordBits(64, value);
    BitsOfConstant(64, 0);
  }

  lemma StepCallRefines(e: Env, id: int, s: State)
    ensures RepResult(StepCall(e, id, s)) == StepHelper(e, Rep(s), id)
  {
    var r := s.regs;
    ReadsBack(r[1]);
    ReadsBack(r[2]);
    ReadsBack(r[3]);
    match Helper(e, s.host, id, r[1], r[2], r[3]) {
      case Gives(value, _) => ClobberRefines(r, value);
      case Fails(_) =>
    }
  }

  lemma ReadsBack(x: u64)
    ensures AsU64(ToBits(64, x)) == x
  {
    hide ToBits, Unsigned;
    WordIsTrunc(64, x);
    UnsignedOfBits(64, x);
  }

  // Memory

  lemma {:induction false} FlatAppend(a: seq<byte>, b: seq<byte>)
    ensures FlatBits(a + b) == FlatBits(a) + FlatBits(b)
  {
    hide ToBits;
    if a == [] {
      assert a + b == b;
    } else {
      FlatAppend(a[1..], b);
      assert (a + b)[1..] == a[1..] + b;
      var h := ToBits(8, a[0]);
      assert h + (FlatBits(a[1..]) + FlatBits(b)) == (h + FlatBits(a[1..])) + FlatBits(b);
    }
  }

  lemma FlatSlice(m: seq<byte>, at: nat, size: nat)
    requires at + size <= |m|
    ensures FlatBits(m)[8 * at..8 * (at + size)] == FlatBits(m[at..at + size])
    ensures FlatBits(m)[..8 * at] == FlatBits(m[..at])
    ensures FlatBits(m)[8 * (at + size)..] == FlatBits(m[at + size..])
  {
    FlatTake(m, at);
    FlatTake(m, at + size);
    FlatTake(m[..at + size], at);
    assert m[..at + size][..at] == m[..at] && m[..at + size][at..] == m[at..at + size];
  }

  lemma FlatTake(m: seq<byte>, n: nat)
    requires n <= |m|
    ensures FlatBits(m)[..8 * n] == FlatBits(m[..n]) && FlatBits(m)[8 * n..] == FlatBits(m[n..])
  {
    assert m == m[..n] + m[n..];
    FlatAppend(m[..n], m[n..]);
  }

  /** Little-endian bytes laid end to end are the bits of the number. */
  lemma {:induction false} FlatOfLe(v: int, n: nat)
    ensures FlatBits(LeBytes(v, n)) == ToBits(8 * n, v)
    decreases n
  {
    hide ToBits, Pow2;
    if n == 0 {
    } else {
      FlatOfLe(v / 0x100, n - 1);
      FirstByteOfLe(v, 8 * n - 8);
      assert LeBytes(v, n)[1..] == LeBytes(v / 0x100, n - 1);
    }
  }

  lemma FirstByteOfLe(v: int, rest: nat)
    ensures ToBits(8 + rest, v) == ToBits(8, v % 0x100) + ToBits(rest, v / 0x100)
  {
    hide ToBits, Pow2, Shr;
    BitsSplit(8, rest, v);
    ShrByte(v);
    Pow2Values();
    BitsOfTrunc(8, v);
  }

  lemma ShrByte(v: int)
    ensures Shr(v, 8) == v / 0x100
  {
    assert Shr(v, 8) == Shr(v / 2 / 2, 6) == Shr(v / 2 / 2 / 2 / 2, 4) == Shr(v / 2 / 2 / 2 / 2 / 2 / 2, 2);
  }

  lemma LoadedBits(bytes: seq<byte>)
    requires |bytes| <= 8
    ensures ToBits(64, Word(64, LeValue(bytes))) == ZeroExtended(FlatBits(bytes))
  {
    var v := LeValue(bytes);
    LeBytesOfValue(bytes);
    FlatOfLe(v, |bytes|);
    ZeroExtendedNumber(8 * |bytes|, v);
  }

  lemma ZeroExtendedNumber(w: nat, v: nat)
    requires w <= 64 && v < Pow2(w)
    ensures ToBits(64, Word(64, v)) == ZeroExtended(ToBits(w, v))
  {
    SignExtendByZero(w, 64 - w, v);
    WordBits(64, v);
  }

  lemma AddressRefines(s: State, base: Reg, off: i16)
    ensures Address(Rep(s), base, off) == Wrapped(s.regs[base], off)
  {
    hide ToBits, Unsigned, Add, Pow2;
    Pow2Values();
    SixteenBits(off);
    AddMeaning(64, s.regs[base], off, false);
    UnsignedOfBits(64, s.regs[base] + off);
  }

  lemma SixteenBits(off: i16)
    ensures SignExtended(ToBits(16, off)) == ToBits(64, off)
  {
    assert Pow2(15) == 0x8000;
    SignExtend(16, 48, off);
  }

  lemma ResolvedAlike(e: Env, s: State, base: Reg, off: i16, size: nat, write: bool)
    requires CtxFits(e) && size > 0
    ensures Resolve(EffectiveAddress(s.regs[base], off), size, write, |e.ctx|)
         == Resolve(Address(Rep(s), base, off), size, write, |e.ctx|)
  {
    AddressRefines(s, base, off);
    AddressesAgree(s.regs[base], off, size, write, |e.ctx|);
  }

  lemma StepLoadRefines(e: Env, i: Insn, s: State)
    requires CtxFits(e) && i.src <= 10 && i.dst <= 10
    ensures RepResult(StepLoad(e, i, s)) == StepLoadBits(e, Rep(s), SizeOf(i), i.dst, Address(Rep(s), i.src, i.off))
  {
    hide ToBits, Word, LeValue, FlatBits, SizeOf, ZeroExtended;
    var size := SizeOf(i);
    ResolvedAlike(e, s, i.src, i.off, size, false);
    var r := Resolve(EffectiveAddress(s.regs[i.src], i.off), size, false, |e.ctx|);
    if !r.Fault? {
      var m := if r.InCtx? then e.ctx else s.stack;
      var bytes := m[r.offset..r.offset + size];
      FlatSlice(m, r.offset, size);
      LoadedBits(bytes);
      RegUpdate(s.regs, i.dst, Word(64, LeValue(bytes)));
    }
  }

  lemma SpliceRefines(stack: seq<byte>, at: nat, size: nat, value: int, bits: Bits)
    requires at + size <= |stack| && 8 * size <= |bits| && bits[..8 * size] == ToBits(8 * size, value)
    ensures FlatBits(Splice(stack, at, LeBytes(value, size)))
         == FlatBits(stack)[..8 * at] + bits[..8 * size] + FlatBits(stack)[8 * (at + size)..]
  {
    hide ToBits, FlatBits, LeBytes;
    var bytes, front, back := LeBytes(value, size), stack[..at], stack[at + size..];
    FlatSlice(stack, at, size);
    FlatOfLe(value, size);
    FlatAppend(front + bytes, back);
    FlatAppend(front, bytes);
    assert Splice(stack, at, bytes) == front + bytes + back;
  }

  function SourceValue(s: State, src: Source): int {
    match src
    case Register(r) => s.regs[r]
    case Immediate(imm) => imm
  }

  lemma StoredBits(s: State, src: Source, w: nat)
    requires w <= 64
    ensures SourceWord(Rep(s), src)[..w] == ToBits(w, SourceValue(s, src))
  {
    hide ToBits;
    LowBits(w, SourceValue(s, src));
    if src.Immediate? {
      ImmediateBits(src.imm);
    }
  }

  lemma StepStoreRefines(e: Env, i: Insn, s: State, src: Source)
    requires CtxFits(e) && i.dst <= 10
    requires if Class(i) == 3 then i.src <= 10 && src == Register(i.src) else src == Immediate(i.imm)
    ensures RepResult(StepStore(e, i, s))
         == StepStoreBits(e, Rep(s), SizeOf(i), Address(Rep(s), i.dst, i.off), SourceWord(Rep(s), src))
  {
    hide ToBits, LeBytes, Splice, FlatBits, SizeOf, SourceWord;
    var size := SizeOf(i);
    var value := if Class(i) == 3 then s.regs[i.src] else i.imm;
    ResolvedAlike(e, s, i.dst, i.off, size, true);
    var r := Resolve(EffectiveAddress(s.regs[i.dst], i.off), size, true, |e.ctx|);
    if r.InStack? {
      StoredBits(s, src, 8 * size);
      SpliceRefines(s.stack, r.offset, size, value, SourceWord(Rep(s), src));
    }
  }

  lemma StepMemoryRefines(e: Env, i: Insn, s: State)
    requires CtxFits(e) && Class(i) in {1, 2, 3} && ReadMemory(i).Some?
    ensures RepResult(if Class(i) == 1 then StepLoad(e, i, s) else StepStore(e, i, s))
         == Execute(e, ReadMemory(i).value, Rep(s))
  {
    hide StepLoad, StepStore, StepLoadBits, StepStoreBits, Address, SourceWord;
    match ReadMemory(i).value {
      case Load(_, _, _, _) => StepLoadRefines(e, i, s);
      case Store(_, _, _, src) => StepStoreRefines(e, i, s, src);
    }
  }

  /** One step of the interpreter is one step of the RFC's machine, fields that it ignores being zero. */
  lemma StepRefines(p: seq<Insn>, e: Env, s: State)
    requires CtxFits(e) && Read(p, s.pc).Some? && Ordinary(p[s.pc])
    ensures RepResult(Step(p, e, s)) == ExecuteAt(p, e, Rep(s))
  {
    hide StepAlu, StepJump, StepLddw, StepLoad, StepStore, Execute;
    var i := p[s.pc];
    if Class(i) in {4, 7} {
      StepAluRefines(e, i, s);
    } else if Class(i) in {5, 6} {
      StepJumpRefines(e, i, s);
    } else if Class(i) == 0 {
      StepLddwRefines(p, e, s);
    } else {
      StepMemoryRefines(e, i, s);
    }
  }

  /** The interpreter looks neither at the offset of ALU instructions nor at the source field of CALL and lddw. */
  predicate Ordinary(i: Insn) {
    match Class(i)
    case 7 => i.off == 0
    case 4 => i.off == 0
    case 5 => Operation(i) == 8 ==> i.src == 0
    case 0 => i.src == 0
    case _ => true
  }
}
