/**
 * Where the interpreter and RFC 9669 agree, exactly. The interpreter ignores the offset of ALU instructions, which
 * tells signed from unsigned division and extending from plain moves, and the source field of CALL and lddw, which says
 * what the immediate names. Of each accepted instruction that the RFC lists, a test on its fields decides whether the
 * two do the same in all states.
 */
module Conformance {
  import opened Words
  import opened BitVectors
  import opened Codec
  import opened Options
  import opened Verifier
  import opened Machine
  import opened Safety
  import opened Addresses
  import opened Isa
  import opened Refinement

  // The operations only the offset tells apart, on numbers

  function ListedValue(w: Width, op: AluOp, a: nat, b: nat): int
    requires op.SDIV? || op.SMOD? || (op.MOVSX? && 0 < op.width <= w)
    requires b != 0 ==> AsIntN(w, b) != 0
  {
    match op
    case SDIV => if b == 0 then 0 else TowardZero(AsIntN(w, a), AsIntN(w, b))
    case SMOD => if b == 0 then a else RemainderTowardZero(AsIntN(w, a), AsIntN(w, b))
    case MOVSX(n) => AsIntN(n, b)
    case _ => 0
  }

  predicate OffsetOp(op: AluOp, w: Width) {
    op.SDIV? || op.SMOD? || (op.MOVSX? && op.width in {8, 16, 32} && op.width < w)
  }

  lemma SignedReads(w: nat, b: nat)
    requires w > 0 && b < Pow2(w)
    ensures AsIntN(w, b) == if b < Pow2(w - 1) then b else b - Pow2(w)
    ensures b != 0 ==> AsIntN(w, b) != 0
  {
    var h := Pow2(w - 1);
    if b < h {
      ModUnique(b + h, 2 * h, 0, b + h);
    } else {
      ModUnique(b + h, 2 * h, 1, b - h);
    }
  }

  /** The interpreter's value and the RFC's are the same word. */
  predicate Alike(w: Width, op: AluOp, a: nat, b: nat)
    requires a < Pow2(w) && b < Pow2(w) && OffsetOp(op, w)
    requires b != 0 ==> AsIntN(w, b) != 0
  {
    var code := if op.SDIV? then 3 else if op.SMOD? then 9 else 0xb;
    Word(w, AluOut(w, code, a, b)) == Word(w, ListedValue(w, op, a, b))
  }

  lemma ListedMeaning(w: Width, op: AluOp, a: nat, b: nat)
    requires a < Pow2(w) && b < Pow2(w) && OffsetOp(op, w)
    ensures b != 0 ==> AsIntN(w, b) != 0
    ensures AluResult(w, op, ToBits(w, a), ToBits(w, b)) == ToBits(w, ListedValue(w, op, a, b))
  {
    hide ToBits, Pow2, AsIntN, SignedDivide, SignedRemainder, SignedMove, TowardZero, RemainderTowardZero, Zeros;
    SignedReads(w, b);
    match op {
      case MOVSX(n) => SignedMoveMeaning(w, n, b);
      case _ =>
        IsZero(w, b);
        BitsOfConstant(w, 0);
        if b != 0 {
          SignedDivideMeaning(w, a, b);
        }
    }
  }

  /** One step on such an instruction agrees with the RFC exactly when the two values do. */
  lemma OffsetStep(p: seq<Insn>, e: Env, s: State)
    requires 0 <= s.pc < |p| && Class(p[s.pc]) in {4, 7} && ReadAlu(p[s.pc]).Some? && p[s.pc].off != 0
    ensures var i := p[s.pc];
            var w, op, a, b := WidthOf(i), AluOpOf(i).value, Left(i, s), Right(i, s);
            && a < Pow2(w) && b < Pow2(w) && OffsetOp(op, w) && (b != 0 ==> AsIntN(w, b) != 0)
            && (RepResult(Step(p, e, s)) == ExecuteAt(p, e, Rep(s)) <==> Alike(w, op, a, b))
  {
    hide AluOut, AluResult, Word, Operand, ZeroExtended, ToBits, AsIntN, ListedValue, Pow2;
    var i := p[s.pc];
    var w, op, a, b := WidthOf(i), AluOpOf(i).value, Left(i, s), Right(i, s);
    OperandRefines(w, i, s);
    RegisterRefines(w, s, i.dst);
    ListedMeaning(w, op, a, b);
    var mine, theirs := AluOut(w, Operation(i), a, b), ListedValue(w, op, a, b);
    WordBits(w, theirs);
    SameRegister(s, i.dst, Word(w, mine), Word(w, theirs));
  }

  function WidthOf(i: Insn): Width {
    if Class(i) == 7 then 64 else 32
  }

  function Left(i: Insn, s: State): u64
    requires i.dst <= 10
  {
    Word(WidthOf(i), s.regs[i.dst])
  }

  function Right(i: Insn, s: State): u64
    requires UsesRegister(i) ==> i.src <= 10
  {
    Operand(WidthOf(i), i, s.regs)
  }

  lemma SameRegister(s: State, d: Reg, x: u64, y: u64)
    ensures RegBits(s.regs[d := x]) == RegBits(s.regs)[d := ToBits(64, y)] <==> x == y
  {
    hide ToBits, Pow2;
    Pow2Values();
    BitsInjective(64, x, y);
    RegUpdate(s.regs, d, x);
    assert RegBits(s.regs[d := x])[d] == ToBits(64, x);
    assert RegBits(s.regs)[d := ToBits(64, y)][d] == ToBits(64, y);
  }

  // Signed and unsigned division on words: h is half the modulus

  function Reading(h: nat, x: nat): int {
    if x < h then x else x - 2 * h
  }

  lemma DivideAlike(h: nat, a: nat, b: nat)
    requires h > 1 && a < 2 * h && b in {1, a} && b != 0
    ensures TowardZero(Reading(h, a), Reading(h, b)) % (2 * h) == a / b
    ensures RemainderTowardZero(Reading(h, a), Reading(h, b)) % (2 * h) == a % b
  {
    if b == 1 {
      assert Abs(Reading(h, a)) / 1 == Abs(Reading(h, a)) && a / 1 == a;
      if a < h {
        ModUnique(a, 2 * h, 0, a);
      } else {
        ModUnique(a - 2 * h, 2 * h, -1, a);
      }
    } else {
      OwnQuotient(a);
      OwnQuotient(Abs(Reading(h, a)));
    }
    ModUnique(1, 2 * h, 0, 1);
    ModUnique(0, 2 * h, 0, 0);
  }

  lemma OwnQuotient(x: nat)
    requires x > 0
    ensures x / x == 1 && x % x == 0
  {
    ModUnique(x, x, 1, 0);
  }

  /** A dividend that tells them apart: -1, or 2 when the divisor is -1. */
  function Telling(h: nat, b: nat): nat
    requires h > 1
  {
    if b == 2 * h - 1 then 2 else 2 * h - 1
  }

  predicate Unlike(h: nat, a: nat, b: nat)
    requires h > 0 && 0 < b < 2 * h
  {
    && TowardZero(Reading(h, a), Reading(h, b)) % (2 * h) != a / b
    && RemainderTowardZero(Reading(h, a), Reading(h, b)) % (2 * h) != a % b
  }

  lemma TwoByMinusOne(h: nat)
    requires h > 2
    ensures Unlike(h, 2, 2 * h - 1)
  {
    var m := 2 * h;
    ModUnique(2, m - 1, 0, 2);
    ModUnique(-2, m, -1, m - 2);
    ModUnique(0, m, 0, 0);
    assert TowardZero(2, -1) == -2 && RemainderTowardZero(2, -1) == 0;
  }

  lemma MinusOneByMore(h: nat, b: nat)
    requires h > 2 && 1 < b < 2 * h - 1
    ensures Unlike(h, 2 * h - 1, b)
  {
    var m, n := 2 * h, Abs(Reading(h, b));
    ModUnique(1, n, 0, 1);
    ModUnique(-1, m, -1, m - 1);
    ModUnique(0, m, 0, 0);
    assert TowardZero(-1, Reading(h, b)) == 0 && RemainderTowardZero(-1, Reading(h, b)) == -1;
    NotZeroQuotient(m - 1, b);
  }

  lemma NotZeroQuotient(a: nat, b: nat)
    requires 0 < b <= a
    ensures a / b != 0 && a % b < b
  {
    assert a == b * (a / b) + a % b;
  }

  lemma DivideUnlike(h: nat, b: nat)
    requires h > 2 && 1 < b < 2 * h
    ensures Unlike(h, Telling(h, b), b)
  {
    hide Unlike;
    if b == 2 * h - 1 {
      TwoByMinusOne(h);
    } else {
      MinusOneByMore(h, b);
    }
  }

  lemma DivisionAlike(w: Width, op: AluOp, a: nat, b: nat)
    requires a < Pow2(w) && b < Pow2(w) && op in {SDIV, SMOD} && b in {0, 1, a}
    ensures b != 0 ==> AsIntN(w, b) != 0
    ensures Alike(w, op, a, b)
  {
    hide Pow2, AsIntN, TowardZero, RemainderTowardZero;
    Halved(w);
    SignedReads(w, a);
    SignedReads(w, b);
    WordIsTrunc(w, 0);
    if b != 0 {
      DivideAlike(Pow2(w - 1), a, b);
      QuotientFits(a, b);
      ModUnique(a / b, Pow2(w), 0, a / b);
      ModUnique(a % b, Pow2(w), 0, a % b);
    }
  }

  lemma Halved(w: Width)
    ensures Pow2(w) == 2 * Pow2(w - 1) && Pow2(w - 1) > 2
    ensures Pow2(w) == if w == 64 then TWO64 else TWO32
  {
    hide Pow2;
    Pow2Values();
    Pow2Doubles(w - 1);
  }

  lemma QuotientFits(a: nat, b: nat)
    requires b > 0
    ensures 0 <= a / b <= a && 0 <= a % b <= a
  {
    assert a == b * (a / b) + a % b;
    if a < b {
      ModUnique(a, b, 0, a);
    } else {
      MulAwayFromZero(a / b, b);
    }
  }

  lemma DivisionUnlike(w: Width, op: AluOp, b: nat)
    requires op in {SDIV, SMOD} && 1 < b < Pow2(w)
    ensures Pow2(w - 1) > 1 && Telling(Pow2(w - 1), b) < Pow2(w) && AsIntN(w, b) != 0
    ensures !Alike(w, op, Telling(Pow2(w - 1), b), b)
  {
    hide Pow2, AsIntN, TowardZero, RemainderTowardZero;
    Halved(w);
    var a := Telling(Pow2(w - 1), b);
    SignedReads(w, a);
    SignedReads(w, b);
    DivideUnlike(Pow2(w - 1), b);
    QuotientFits(a, b);
    ModUnique(a / b, Pow2(w), 0, a / b);
    ModUnique(a % b, Pow2(w), 0, a % b);
  }

  /** An extending move differs from a plain one when the bit it extends is set. */
  lemma MoveUnlike(w: Width, n: nat, a: nat)
    requires n in {8, 16, 32} && n < w && a < Pow2(w)
    ensures Pow2(n - 1) < Pow2(w) && AsIntN(w, Pow2(n - 1)) != 0
    ensures !Alike(w, MOVSX(n), a, Pow2(n - 1))
  {
    hide Pow2, AsIntN;
    var b := Pow2(n - 1);
    Pow2Doubles(n - 1);
    Pow2Grows(n, w);
    SignedReads(w, b);
    SignedReads(n, b);
    Halved(w);
    ModUnique(b, Pow2(w), 0, b);
    ModUnique(-b, Pow2(w), -1, Pow2(w) - b);
  }

  lemma {:induction false} Pow2Grows(m: nat, n: nat)
    requires m < n
    ensures 2 * Pow2(m) <= Pow2(n)
    decreases n
  {
    Pow2Doubles(n - 1);
    if m < n - 1 {
      Pow2Grows(m, n - 1);
    }
  }

  /** Of r10, whose value never changes, only moves of 8 and 16 bits tell. */
  lemma MoveOfStackTop(w: Width, n: nat, a: nat)
    requires n in {8, 16, 32} && n < w && a < Pow2(w)
    ensures STACK_TOP < Pow2(w) && AsIntN(w, STACK_TOP) != 0
    ensures Alike(w, MOVSX(n), a, STACK_TOP) <==> n == 32
  {
    hide Pow2, AsIntN;
    Pow2Values();
    SmallPowers();
    SignedReads(w, STACK_TOP);
    AsIntNCongruent(n, STACK_TOP);
    LowBitsOfStackTop(n);
  }

  lemma SmallPowers()
    ensures Pow2(7) == 0x80 && Pow2(15) == 0x8000
  {
  }

  lemma LowBitsOfStackTop(n: nat)
    requires n in {8, 16, 32}
    ensures AsIntN(n, STACK_TOP) == if n == 8 then 0 else if n == 16 then 0x200 else STACK_TOP
  {
    hide Pow2;
    Pow2Values();
    SmallPowers();
  }

  // The field test

  /** Ordinary instructions; divisions that cannot show a sign; and an extension of r10, which has none. */
  predicate Agrees(i: Insn) {
    || Ordinary(i)
    || (Class(i) in {4, 7} && i.off == 1 && if UsesRegister(i) then i.src == i.dst else i.imm in {0, 1})
    || (Class(i) == 7 && i.off == 32 && i.src == 10)
  }

  lemma AgreesEverywhere(p: seq<Insn>, e: Env, s: State)
    requires CtxFits(e) && Good(p, s) && Read(p, s.pc).Some? && Agrees(p[s.pc])
    ensures RepResult(Step(p, e, s)) == ExecuteAt(p, e, Rep(s))
  {
    hide Step, ExecuteAt, Rep, Alike, Pow2, Left, Right, AsIntN, Word;
    if Ordinary(p[s.pc]) {
      StepRefines(p, e, s);
    } else {
      OffsetStep(p, e, s);
      OffsetAlike(p[s.pc], s);
    }
  }

  lemma OffsetAlike(i: Insn, s: State)
    requires Class(i) in {4, 7} && ReadAlu(i).Some? && i.off != 0 && Agrees(i) && s.regs[10] == STACK_TOP
    requires OffsetOp(AluOpOf(i).value, WidthOf(i)) && Left(i, s) < Pow2(WidthOf(i)) && Right(i, s) < Pow2(WidthOf(i))
    requires Right(i, s) != 0 ==> AsIntN(WidthOf(i), Right(i, s)) != 0
    ensures Alike(WidthOf(i), AluOpOf(i).value, Left(i, s), Right(i, s))
  {
    hide Pow2, AsIntN, Alike;
    if i.off == 1 {
      DivisionAlike(WidthOf(i), AluOpOf(i).value, Left(i, s), Right(i, s));
    } else {
      MoveOfStackTop(WidthOf(i), 32, Left(i, s));
    }
  }

  // Otherwise a state tells

  /** A state at the instruction whose dst and src hold a and b; r10 is what it always is. */
  function Witness(at: nat, i: Insn, a: u64, b: u64): State
    requires i.dst <= 9 && i.src <= 10
  {
    var s := Start(Host([], [], 0)).(pc := at);
    var held := if i.src <= 9 then s.regs[i.src := b] else s.regs;
    s.(regs := held[i.dst := a])
  }

  /** The source that tells. */
  function TellingSource(i: Insn): u64 {
    if UsesRegister(i) && i.src == 10 then STACK_TOP
    else if i.off == 1 then if UsesRegister(i) then 2 else Word(WidthOf(i), i.imm)
    else if i.off == 8 then 0x80
    else if i.off == 16 then 0x8000
    else 0x8000_0000
  }

  lemma WitnessOperands(at: nat, i: Insn, a: u64, b: u64)
    requires i.dst <= 9 && i.src <= 10 && a < Pow2(WidthOf(i)) && b < Pow2(WidthOf(i))
    requires if !UsesRegister(i) then b == Word(WidthOf(i), i.imm)
             else (i.src == i.dst ==> a == b) && (i.src == 10 ==> b == STACK_TOP)
    ensures Left(i, Witness(at, i, a, b)) == a && Right(i, Witness(at, i, a, b)) == b
  {
    hide Pow2;
    Pow2Values();
  }

  lemma SourceTells(i: Insn)
    requires Class(i) in {4, 7} && ReadAlu(i).Some? && !Agrees(i) && i.dst <= 9
    ensures var w, op, b := WidthOf(i), AluOpOf(i).value, TellingSource(i);
            && OffsetOp(op, w) && b < Pow2(w) && AsIntN(w, b) != 0
            && (i.off == 1 ==> Pow2(w - 1) > 1 && Telling(Pow2(w - 1), b) < Pow2(w)
                               && !Alike(w, op, Telling(Pow2(w - 1), b), b))
            && (i.off != 1 ==> !Alike(w, op, b, b))
  {
    hide Pow2, AsIntN, Alike, Telling;
    var w, op, b := WidthOf(i), AluOpOf(i).value, TellingSource(i);
    Halved(w);
    Pow2Values();
    SmallPowers();
    if i.off == 1 {
      DivisionUnlike(w, op, b);
    } else if i.src == 10 {
      MoveOfStackTop(w, i.off, b);
    } else {
      MoveUnlike(w, i.off, b);
    }
  }

  lemma OffsetDisagrees(p: seq<Insn>, at: nat, e: Env) returns (s: State)
    requires IsTarget(p, at) && Class(p[at]) in {4, 7} && ReadAlu(p[at]).Some? && !Agrees(p[at]) && p[at].dst <= 9
    requires p[at].src <= 10
    ensures Good(p, s) && s.pc == at
    ensures RepResult(Step(p, e, s)) != ExecuteAt(p, e, Rep(s))
  {
    hide Pow2, AsIntN, Alike, Telling, TellingSource, Left, Right, OffsetOp, Step, ExecuteAt, RepResult, Rep, IsSecond;
    var i := p[at];
    var b := TellingSource(i);
    SourceTells(i);
    SourceFits(i);
    var a := if i.off == 1 then Telling(Pow2(WidthOf(i) - 1), b) else b;
    Halved(WidthOf(i));
    s := Witness(at, i, a, b);
    WitnessOperands(at, i, a, b);
    OffsetStep(p, e, s);
  }

  lemma SourceFits(i: Insn)
    requires ReadAlu(i).Some? && i.off != 0 && !Agrees(i) && Class(i) in {4, 7}
    ensures !UsesRegister(i) ==> TellingSource(i) == Word(WidthOf(i), i.imm) && i.off == 1
    ensures UsesRegister(i) && i.src == 10 ==> TellingSource(i) == STACK_TOP
    ensures UsesRegister(i) && i.src == i.dst ==> i.off != 1
  {
  }

  /** A call or a wide load whose source field is set means something the interpreter does not do. */
  lemma FieldDisagrees(p: seq<Insn>, e: Env, s: State)
    requires 0 <= s.pc < |p| && Read(p, s.pc).Some? && Class(p[s.pc]) !in {4, 7} && !Agrees(p[s.pc])
    ensures RepResult(Step(p, e, s)) != ExecuteAt(p, e, Rep(s))
  {
    hide Step, RegBits, FlatBits, ReadAlu, ReadMemory, ReadJump;
    if Class(p[s.pc]) == 0 {
      SymbolDisagrees(p, e, s);
    } else {
      FunctionDisagrees(p, e, s);
    }
  }

  /** The interpreter never asks the platform for a symbol. */
  lemma SymbolDisagrees(p: seq<Insn>, e: Env, s: State)
    requires 0 <= s.pc < |p| && Read(p, s.pc).Some? && Class(p[s.pc]) == 0 && !Agrees(p[s.pc])
    ensures RepResult(Step(p, e, s)) != ExecuteAt(p, e, Rep(s))
  {
    hide Step, RegBits, FlatBits, ReadAlu, ReadMemory, ReadJump;
    assert ExecuteAt(p, e, Rep(s)).AsksPlatform?;
  }

  /** Nor does it call functions of the program or of the kernel. */
  lemma FunctionDisagrees(p: seq<Insn>, e: Env, s: State)
    requires 0 <= s.pc < |p| && Read(p, s.pc).Some? && Class(p[s.pc]) !in {0, 4, 7} && !Agrees(p[s.pc])
    ensures RepResult(Step(p, e, s)) != ExecuteAt(p, e, Rep(s))
  {
    hide Step, RegBits, FlatBits, ReadAlu, ReadMemory;
    assert ExecuteAt(p, e, Rep(s)).EntersFunction? || ExecuteAt(p, e, Rep(s)).AsksPlatform?;
  }

  lemma DisagreesSomewhere(p: seq<Insn>, at: nat) returns (e: Env, s: State)
    requires Accepted(p) && IsTarget(p, at) && Read(p, at).Some? && !Agrees(p[at])
    ensures CtxFits(e) && Good(p, s) && s.pc == at
    ensures RepResult(Step(p, e, s)) != ExecuteAt(p, e, Rep(s))
  {
    hide Step, ExecuteAt, RepResult, Rep, Agrees, IsSecond;
    assert CheckInsn(p, at).None?;
    e := Env([], [], _ => 0);
    if Class(p[at]) in {4, 7} {
      s := OffsetDisagrees(p, at, e);
    } else {
      s := Start(Host([], [], 0)).(pc := at);
      FieldDisagrees(p, e, s);
    }
  }

  /**
   * For every accepted program and every instruction of it that the RFC lists: the interpreter's step is the RFC's in
   * all good states and environments if and only if the instruction passes the field test.
   */
  lemma AgreesExactly(p: seq<Insn>, at: nat)
    requires Accepted(p) && IsTarget(p, at) && Read(p, at).Some?
    ensures (forall e: Env, s: State :: CtxFits(e) && Good(p, s) && s.pc == at ==>
               RepResult(Step(p, e, s)) == ExecuteAt(p, e, Rep(s)))
            <==> Agrees(p[at])
  {
    hide Step, ExecuteAt, Rep, RepResult, Agrees, Good, Accepted;
    if Agrees(p[at]) {
      forall e: Env, s: State | CtxFits(e) && Good(p, s) && s.pc == at
        ensures RepResult(Step(p, e, s)) == ExecuteAt(p, e, Rep(s))
      {
        AgreesEverywhere(p, e, s);
      }
    } else {
      var e, s := DisagreesSomewhere(p, at);
    }
  }

  // Whole programs

  /** Every instruction is one that the RFC lists and on which the two agree. */
  ghost predicate Conformant(p: seq<Insn>) {
    forall at :: 0 <= at < |p| && !IsSecond(p, at) ==> Read(p, at).Some? && Agrees(p[at])
  }

  /** Whole runs of a verified, conformant program are runs of the RFC's machine. */
  lemma {:induction false} RunRefines(p: seq<Insn>, e: Env, s: State, budget: nat)
    requires Accepted(p) && Conformant(p) && Good(p, s) && CtxFits(e)
    ensures RepResult(Run(p, e, s, budget)) == IsaRun(p, e, Rep(s), budget)
    decreases budget
  {
    hide Step, ExecuteAt, Rep, Accepted, Agrees;
    if budget > 0 {
      AgreesEverywhere(p, e, s);
      StepIsSafe(p, e, s);
      match Step(p, e, s) {
        case Next(t) => RunRefines(p, e, t, budget - 1);
        case _ =>
      }
    }
  }

  /** What the verifier demands of a listed instruction: r10 is not written, targets are first slots, helpers exist. */
  predicate Admissible(p: seq<Insn>, at: nat, i: Instruction) {
    match i
    case Alu(_, _, dst, _) => dst <= 9
    case Load(_, dst, _, _) => dst <= 9
    case LoadImmediate(dst, _, _) => dst <= 9
    case LoadSymbol(dst, _) => dst <= 9
    case Jump(off) => IsTarget(p, at + 1 + off)
    case Branch(_, _, _, _, off) => IsTarget(p, at + 1 + off)
    case CallHelper(id) => 1 <= id <= 5
    case CallLocal(distance) => 1 <= distance <= 5
    case CallByType(id) => 1 <= id <= 5
    case Store(_, _, _, _) => true
    case Exit => true
  }

  /** Of the listed encodings the per-instruction check passes exactly the admissible ones. */
  lemma ChecksExactly(p: seq<Insn>, at: nat)
    requires at < |p| && !IsSecond(p, at) && Read(p, at).Some?
    ensures CheckInsn(p, at).None? <==> p[at].src <= 10 && Admissible(p, at, Read(p, at).value)
  {
    hide IsSecond;
    ClassFacts(p[at]);
  }

  /** With offset 1 the RFC's DIV is signed. Here -6 / 2, which the interpreter takes for a number near 2^64. */
  lemma SignedDivisionIsNot(e: Env, s: State)
    requires s.pc == 0 && s.regs[0] == 0xffff_ffff_ffff_fffa
    ensures var p := [Insn(0x37, 0, 0, 1, 2), Insn(EXIT, 0, 0, 0, 0)];
            && Accepted(p)
            && Step(p, e, s) == Next(s.(regs := s.regs[0 := 0x7fff_ffff_ffff_fffd], pc := 1))
            && ExecuteAt(p, e, Rep(s)) == Continues(Rep(s.(regs := s.regs[0 := 0xffff_ffff_ffff_fffd], pc := 1)))
  {
    hide ToBits, Pow2, AluResult, SourceWord, RegBits;
    var p := [Insn(0x37, 0, 0, 1, 2), Insn(EXIT, 0, 0, 0, 0)];
    assert !IsSecond(p, 0) && !IsSecond(p, 1);
    MinusSixByTwo(s);
    var minusThree := 0xffff_ffff_ffff_fffd;
    RegUpdate(s.regs, 0, minusThree);
    assert Read(p, 0) == Some(Alu(64, SDIV, 0, Immediate(2)));
    assert ZeroExtended(ToBits(64, minusThree)) == ToBits(64, minusThree);
  }

  lemma MinusThree()
    ensures ToBits(64, -3) == ToBits(64, 0xffff_ffff_ffff_fffd)
  {
    hide ToBits, Pow2;
    Pow2Values();
    BitsOfTrunc(64, -3);
    ModUnique(-3, TWO64, -1, 0xffff_ffff_ffff_fffd);
  }

  lemma MinusSixByTwo(s: State)
    requires s.regs[0] == 0xffff_ffff_ffff_fffa
    ensures AluResult(64, SDIV, Rep(s).regs[0][..64], SourceWord(Rep(s), Immediate(2))[..64])
         == ToBits(64, 0xffff_ffff_ffff_fffd)
  {
    hide ToBits, Pow2, SignedDivide, AsIntN, Zeros, Divide, Multiply, Add, ShiftLeft, ShiftRight;
    var minusSix := 0xffff_ffff_ffff_fffa;
    Pow2Values();
    ImmediateBits(2);
    IsZero(64, 2);
    SignedReads(64, 2);
    SignedReads(64, minusSix);
    SignedDivideMeaning(64, minusSix, 2);
    assert AsIntN(64, minusSix) == -6 && AsIntN(64, 2) == 2 && TowardZero(-6, 2) == -3;
    MinusThree();
    assert Rep(s).regs[0][..64] == ToBits(64, minusSix);
    assert SourceWord(Rep(s), Immediate(2))[..64] == ToBits(64, 2);
  }
}
