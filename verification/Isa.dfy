/**
 * The instruction set of RFC 9669 as a machine on bit vectors: registers are 64 bits, the stack is one long bit vector,
 * and every operation is the one of BitVectors. Of the encodings the tables of the RFC list, those are read here whose
 * opcode the verifier lets through: no byte swaps, atomics or sign-extending loads. What the platform chooses, which
 * addresses exist and what the helpers do, is shared with Machine; where it chooses what an immediate stands for, the
 * result says no more than that.
 */
module Isa {
  import opened Words
  import opened BitVectors
  import opened Codec
  import opened Options
  import opened Verifier
  import opened Machine

  datatype AluOp = ADD | SUB | MUL | DIV | OR | AND | LSH | RSH | NEG | MOD | XOR | MOV | ARSH
                 | SDIV | SMOD | MOVSX(width: nat)
  datatype Condition = JEQ | JGT | JGE | JSET | JNE | JSGT | JSGE | JLT | JLE | JSLT | JSLE

  type Reg = r: nat | r <= 10

  datatype Source = Register(r: Reg) | Immediate(imm: i32)

  datatype Instruction =
    | Alu(w: Width, op: AluOp, dst: Reg, src: Source)
    | Load(size: nat, dst: Reg, base: Reg, off: i16)
    | Store(size: nat, base: Reg, off: i16, src: Source)
    | LoadImmediate(dst: Reg, low: i32, high: i32)
    | Jump(off: i16)
    | Branch(w: Width, c: Condition, dst: Reg, src: Source, off: i16)
    | CallHelper(id: int)
    | CallLocal(distance: int)         // a function of the same program
    | CallByType(id: int)              // a helper by its BTF id
    | LoadSymbol(dst: Reg, kind: int)  // a map, variable or code address
    | Exit

  // Section 4.1 and 4.3: operation codes

  const ALU_CODES: seq<AluOp> := [ADD, SUB, MUL, DIV, OR, AND, LSH, RSH, NEG, MOD, XOR, MOV, ARSH]

  function ConditionOf(code: int): Option<Condition> {
    match code
    case 0x1 => Some(JEQ)
    case 0x2 => Some(JGT)
    case 0x3 => Some(JGE)
    case 0x4 => Some(JSET)
    case 0x5 => Some(JNE)
    case 0x6 => Some(JSGT)
    case 0x7 => Some(JSGE)
    case 0xa => Some(JLT)
    case 0xb => Some(JLE)
    case 0xc => Some(JSLT)
    case 0xd => Some(JSLE)
    case _ => None
  }

  function SourceOf(i: Insn): Option<Source> {
    if !UsesRegister(i) then Some(Immediate(i.imm))
    else if i.src <= 10 then Some(Register(i.src))
    else None
  }

  /** Code and offset name the operation; a move extends the sign of a register only, to more bits than it has. */
  function AluOpOf(i: Insn): Option<AluOp> {
    var code := Operation(i);
    if i.off == 0 then
      if 0 <= code <= 0xc && (code == 8 ==> !UsesRegister(i)) then Some(ALU_CODES[code]) else None
    else if i.off == 1 && code == 3 then Some(SDIV)
    else if i.off == 1 && code == 9 then Some(SMOD)
    else if code == 0xb && UsesRegister(i) && (i.off in {8, 16} || (i.off == 32 && Class(i) == 7)) then
      Some(MOVSX(i.off))
    else None
  }

  function ReadAlu(i: Insn): Option<Instruction> {
    if AluOpOf(i).Some? && i.dst <= 10 && SourceOf(i).Some? then
      Some(Alu(if Class(i) == 7 then 64 else 32, AluOpOf(i).value, i.dst, SourceOf(i).value))
    else None
  }

  function ReadJump(i: Insn): Option<Instruction> {
    if i.opcode == 0x05 then Some(Jump(i.off))
    else if i.opcode == 0x85 then
      match i.src
      case 0 => Some(CallHelper(i.imm))
      case 1 => Some(CallLocal(i.imm))
      case 2 => Some(CallByType(i.imm))
      case _ => None
    else if i.opcode == 0x95 then Some(Exit)
    else
      var c := ConditionOf(Operation(i));
      if c.Some? && i.dst <= 10 && SourceOf(i).Some? then
        Some(Branch(if Class(i) == 5 then 64 else 32, c.value, i.dst, SourceOf(i).value, i.off))
      else None
  }

  /** Section 5.1: the size field. */
  function SizeField(code: int): nat {
    match code
    case 0 => 4
    case 1 => 2
    case 2 => 1
    case _ => 8
  }

  function ReadMemory(i: Insn): Option<Instruction> {
    var size := SizeField(i.opcode / 8 % 4);
    if !MemMode(i) || i.dst > 10 then None
    else
      match Class(i)
      case 1 => if i.src <= 10 then Some(Load(size, i.dst, i.src, i.off)) else None
      case 2 => Some(Store(size, i.dst, i.off, Immediate(i.imm)))
      case _ => if i.src <= 10 then Some(Store(size, i.dst, i.off, Register(i.src))) else None
  }

  function Read(p: seq<Insn>, pc: int): Option<Instruction> {
    if !(0 <= pc < |p|) then None
    else
      var i := p[pc];
      match Class(i)
      case 7 => ReadAlu(i)
      case 4 => ReadAlu(i)
      case 5 => ReadJump(i)
      case 6 => ReadJump(i)
      case 0 =>
        if i.opcode == LDDW && i.src <= 6 && i.dst <= 10 && pc + 1 < |p|
        then Some(if i.src == 0 then LoadImmediate(i.dst, i.imm, p[pc + 1].imm) else LoadSymbol(i.dst, i.src))
        else None
      case _ => ReadMemory(i)
  }

  // The machine

  type Word64 = b: Bits | |b| == 64 witness Zeros(64)
  type RegisterFile = r: seq<Word64> | |r| == 11 witness AllZero(11)

  function AllZero(n: nat): (r: seq<Word64>)
    ensures |r| == n
  {
    if n == 0 then [] else [Zeros(64)] + AllZero(n - 1)
  }

  datatype IsaState = IsaState(pc: int, regs: RegisterFile, stack: Bits, host: Host)

  datatype IsaResult =
    | Continues(s: IsaState)
    | Exits(r0: Word64, s: IsaState)
    | Stops(why: Abort, s: IsaState)
    | EntersFunction(at: int, s: IsaState)
    | AsksPlatform(s: IsaState)

  /** Immediates are sign-extended to 64 bits. */
  function SourceWord(s: IsaState, src: Source): Word64 {
    match src
    case Register(r) => s.regs[r]
    case Immediate(imm) => SignExtended(ToBits(32, imm))
  }

  function SignExtended(b: Bits): Word64
    requires 0 < |b| <= 64
  {
    b + Repeat(64 - |b|, Sign(b))
  }

  function ZeroExtended(b: Bits): Word64
    requires |b| <= 64
  {
    b + Zeros(64 - |b|)
  }

  /** The low six (or five) bits of the count. */
  function ShiftCount(w: Width, y: Bits): nat
    requires |y| == w
  {
    Unsigned(y[..if w == 64 then 6 else 5])
  }

  function AluResult(w: Width, op: AluOp, x: Bits, y: Bits): (r: Bits)
    requires |x| == w && |y| == w && (op.MOVSX? ==> 0 < op.width <= w)
    ensures |r| == w
  {
    match op
    case ADD => Add(x, y, false)
    case SUB => Subtract(x, y)
    case MUL => Multiply(x, y)
    case DIV => if y == Zeros(w) then Zeros(w) else Divide(x, y).q
    case OR => Or(x, y)
    case AND => And(x, y)
    case LSH => ShiftLeft(x, ShiftCount(w, y))
    case RSH => ShiftRight(x, ShiftCount(w, y), false)
    case NEG => Negate(x)
    case MOD => if y == Zeros(w) then x else Divide(x, y).r
    case XOR => Xor(x, y)
    case MOV => y
    case ARSH => ShiftRight(x, ShiftCount(w, y), Sign(x))
    case SDIV => if y == Zeros(w) then Zeros(w) else SignedDivide(x, y)
    case SMOD => if y == Zeros(w) then x else SignedRemainder(x, y)
    case MOVSX(n) => SignedMove(y, n)
  }

  predicate Holds(c: Condition, x: Bits, y: Bits)
    requires |x| == |y| > 0
  {
    match c
    case JEQ => x == y
    case JGT => Unsigned(x) > Unsigned(y)
    case JGE => Unsigned(x) >= Unsigned(y)
    case JSET => And(x, y) != Zeros(|x|)
    case JNE => x != y
    case JSGT => TwosComplement(x) > TwosComplement(y)
    case JSGE => TwosComplement(x) >= TwosComplement(y)
    case JLT => Unsigned(x) < Unsigned(y)
    case JLE => Unsigned(x) <= Unsigned(y)
    case JSLT => TwosComplement(x) < TwosComplement(y)
    case JSLE => TwosComplement(x) <= TwosComplement(y)
  }

  function FlatBits(bytes: seq<byte>): (b: Bits)
    ensures |b| == 8 * |bytes|
  {
    if bytes == [] then [] else ToBits(8, bytes[0]) + FlatBits(bytes[1..])
  }

  /** Addresses are 64-bit sums. */
  function Address(s: IsaState, base: Reg, off: i16): nat {
    Unsigned(Add(s.regs[base], SignExtended(ToBits(16, off)), false))
  }

  function StepLoadBits(e: Env, s: IsaState, size: nat, dst: Reg, addr: nat): IsaResult
    requires size <= 8
  {
    var r := Resolve(addr, size, false, |e.ctx|);
    if r.Fault? then Stops(r.why, s)
    else
      var memory := if r.InCtx? then FlatBits(e.ctx) else s.stack;
      if 8 * (r.offset + size) > |memory| then Stops(OutOfBounds, s)
      else
        var loaded := memory[8 * r.offset..8 * (r.offset + size)];
        Continues(s.(regs := s.regs[dst := ZeroExtended(loaded)], pc := s.pc + 1))
  }

  function StepStoreBits(e: Env, s: IsaState, size: nat, addr: nat, value: Word64): IsaResult
    requires size <= 8
  {
    var r := Resolve(addr, size, true, |e.ctx|);
    if r.Fault? then Stops(r.why, s)
    else if r.InCtx? then Stops(ContextWrite, s)
    else if 8 * (r.offset + size) > |s.stack| then Stops(OutOfBounds, s)
    else
      Continues(s.(stack := s.stack[..8 * r.offset] + value[..8 * size] + s.stack[8 * (r.offset + size)..],
                   pc := s.pc + 1))
  }

  function AsU64(b: Word64): u64 {
    BitsOfUnsigned(b);
    Pow2Values();
    Unsigned(b)
  }

  function ReturnBits(r: RegisterFile, value: Word64): RegisterFile {
    var z := Zeros(64);
    r[0 := value][1 := z][2 := z][3 := z][4 := z][5 := z]
  }

  function StepHelper(e: Env, s: IsaState, id: int): IsaResult {
    match Helper(e, s.host, id, AsU64(s.regs[1]), AsU64(s.regs[2]), AsU64(s.regs[3]))
    case Fails(why) => Stops(why, s)
    case Gives(value, host) => Continues(IsaState(s.pc + 1, ReturnBits(s.regs, ToBits(64, value)), s.stack, host))
  }

  function Execute(e: Env, i: Instruction, s: IsaState): IsaResult
    requires i.Load? || i.Store? ==> i.size <= 8
    requires i.Alu? && i.op.MOVSX? ==> 0 < i.op.width <= i.w
  {
    match i
    case Alu(w, op, dst, src) =>
      var out := AluResult(w, op, s.regs[dst][..w], SourceWord(s, src)[..w]);
      Continues(s.(regs := s.regs[dst := ZeroExtended(out)], pc := s.pc + 1))
    case Load(size, dst, base, off) => StepLoadBits(e, s, size, dst, Address(s, base, off))
    case Store(size, base, off, src) => StepStoreBits(e, s, size, Address(s, base, off), SourceWord(s, src))
    case LoadImmediate(dst, low, high) =>
      Continues(s.(regs := s.regs[dst := ToBits(32, low) + ToBits(32, high)], pc := s.pc + 2))
    case Jump(off) => Continues(s.(pc := s.pc + 1 + off))
    case Branch(w, c, dst, src, off) =>
      var taken := Holds(c, s.regs[dst][..w], SourceWord(s, src)[..w]);
      Continues(s.(pc := if taken then s.pc + 1 + off else s.pc + 1))
    case CallHelper(id) => StepHelper(e, s, id)
    case CallLocal(distance) => EntersFunction(s.pc + 1 + distance, s)
    case CallByType(_) => AsksPlatform(s)
    case LoadSymbol(_, _) => AsksPlatform(s)
    case Exit => Exits(s.regs[0], s)
  }

  function ExecuteAt(p: seq<Insn>, e: Env, s: IsaState): IsaResult {
    match Read(p, s.pc)
    case None => Stops(NoSuchInstruction, s)
    case Some(i) => Execute(e, i, s)
  }

  function IsaRun(p: seq<Insn>, e: Env, s: IsaState, budget: nat): IsaResult
    decreases budget
  {
    if budget == 0 then Stops(BudgetExceeded, s)
    else
      match ExecuteAt(p, e, s)
      case Continues(t) => IsaRun(p, e, t, budget - 1)
      case Exits(r0, t) => Exits(r0, t)
      case Stops(why, t) => Stops(why, t)
      case EntersFunction(at, t) => EntersFunction(at, t)
      case AsksPlatform(t) => AsksPlatform(t)
  }
}
