/**
 * The interpreter as a function: one step of the fetch/decode/execute loop of vm.ts, and a run under an instruction
 * budget. Everything the source would trip over (a missing instruction, a register that does not exist) is an outcome,
 * so the step is total; Safety shows which outcomes a verified program can reach.
 */
module Machine {
  import opened Words
  import opened Codec
  import opened Options
  import opened Verifier
  import opened Maps

  const CTX_BASE := 0x1000_0000
  const STACK_BASE := 0x2000_0000
  const STACK_SIZE := 512
  const STACK_TOP: u64 := 0x2000_0200

  type Registers = r: seq<u64> | |r| == 11 witness [0, 0, 0, 0, 0, 0, 0, 0, 0, 0, 0]
  type Stack = b: seq<byte> | |b| == 512 witness ZeroBytes(512)

  function ZeroBytes(n: nat): (b: seq<byte>)
    ensures |b| == n
    ensures forall i :: 0 <= i < n ==> b[i] == 0
  {
    if n == 0 then [] else [0] + ZeroBytes(n - 1)
  }

  /** What a run is given: the context bytes, the map behind each fd (two may name one map), the clock's readings. */
  datatype Env = Env(ctx: seq<byte>, fds: seq<nat>, clock: nat -> int)

  /** What helpers reach: the maps, the values traced so far, and the number of clock readings taken. */
  datatype Host = Host(maps: seq<MapState>, trace: seq<u64>, ticks: nat)

  datatype State = State(pc: int, regs: Registers, stack: Stack, host: Host)

  datatype Abort =
    | BudgetExceeded
    | OutOfBounds
    | ContextWrite
    | NoMapAtFd
    | NoSuchRegister
    // The next two stand for what no verified program reaches.
    | NoSuchHelper
    | NoSuchInstruction

  datatype Result =
    | Next(s: State)
    | Returned(r0: u64, s: State)
    | Aborted(why: Abort, s: State)

  // Memory

  datatype Region = InCtx(offset: nat) | InStack(offset: nat) | Fault(why: Abort)

  function Resolve(addr: int, size: nat, write: bool, ctxLen: nat): (r: Region)
    ensures r.InCtx? ==> r.offset + size <= ctxLen
    ensures r.InStack? ==> r.offset + size <= STACK_SIZE
  {
    var end := addr + size;
    if addr >= CTX_BASE && end <= CTX_BASE + ctxLen then
      if write then Fault(ContextWrite) else InCtx(addr - CTX_BASE)
    else if addr >= STACK_BASE && end <= STACK_BASE + STACK_SIZE then InStack(addr - STACK_BASE)
    else Fault(OutOfBounds)
  }

  /** The sum is left as it is, below zero or above 2^64. */
  function EffectiveAddress(base: u64, off: i16): int {
    base + off
  }

  /** Bits 3 and 4 of a load or store opcode. */
  function SizeOf(i: Insn): (n: nat)
    ensures n in {1, 2, 4, 8}
  {
    match i.opcode / 8 % 4
    case 0 => 4
    case 1 => 2
    case 2 => 1
    case _ => 8
  }

  function Splice(buffer: seq<byte>, at: nat, bytes: seq<byte>): (r: seq<byte>)
    requires at + |bytes| <= |buffer|
    ensures |r| == |buffer|
  {
    buffer[..at] + bytes + buffer[at + |bytes|..]
  }

  // Arithmetic

  type Width = w: nat | w == 32 || w == 64 witness 64

  function Word(w: Width, x: int): (r: u64)
    ensures r == x % (if w == 64 then TWO64 else TWO32)
  {
    if w == 64 then x % TWO64 else x % TWO32
  }

  function SignedWord(w: Width, x: int): int {
    AsIntN(w, x)
  }

  /** The switch over ALU operations: an integer still to be cut to the width. */
  function AluOut(w: Width, op: int, a: nat, b: nat): int {
    var shift := BigAnd(b, w - 1);
    match op
    case 0x0 => a + b
    case 0x1 => a - b
    case 0x2 => a * b
    case 0x3 => if b == 0 then 0 else a / b
    case 0x4 => BigOr(a, b)
    case 0x5 => BigAnd(a, b)
    case 0x6 => Shl(a, shift)
    case 0x7 => Shr(a, shift)
    case 0x8 => -(a as int)
    case 0x9 => if b == 0 then a else a % b
    case 0xa => BigXor(a, b)
    case 0xb => b
    case _ => Shr(SignedWord(w, a), shift)
  }

  function Operand(w: Width, i: Insn, regs: Registers): u64
    requires UsesRegister(i) ==> i.src <= 10
  {
    Word(w, if UsesRegister(i) then regs[i.src] else i.imm)
  }

  predicate Taken(w: Width, op: int, a: nat, b: nat) {
    var sa := SignedWord(w, a);
    var sb := SignedWord(w, b);
    match op
    case 0x1 => a == b
    case 0x2 => a > b
    case 0x3 => a >= b
    case 0x4 => BigAnd(a, b) != 0
    case 0x5 => a != b
    case 0x6 => sa > sb
    case 0x7 => sa >= sb
    case 0xa => a < b
    case 0xb => a <= b
    case 0xc => sa < sb
    case _ => sa <= sb
  }

  /** Both register operands of an instruction exist. */
  predicate HasOperands(i: Insn) {
    i.dst <= 10 && (UsesRegister(i) ==> i.src <= 10)
  }

  // One step, class by class

  function StepAlu(e: Env, i: Insn, s: State): Result {
    if !HasOperands(i) then Aborted(NoSuchRegister, s)
    else
      var w: Width := if Class(i) == 7 then 64 else 32;
      var out := AluOut(w, Operation(i), Word(w, s.regs[i.dst]), Operand(w, i, s.regs));
      Next(s.(regs := s.regs[i.dst := Word(w, out)], pc := s.pc + 1))
  }

  // Helpers

  datatype HelperResult = Gives(value: int, host: Host) | Fails(why: Abort)

  function MapAt(e: Env, h: Host, fd: u64): Option<nat> {
    if fd < |e.fds| && e.fds[fd] < |h.maps| then Some(e.fds[fd]) else None
  }

  function MapHelper(e: Env, h: Host, id: int, fd: u64, key: u64, value: u64): HelperResult
    requires 1 <= id <= 3
  {
    match MapAt(e, h, fd)
    case None => Fails(NoMapAtFd)
    case Some(m) =>
      var before := h.maps[m];
      if id == 1 then Gives(GetOr0(before, key), h)
      else
        var after := if id == 2 then Put(before, key, value) else Plus(before, key, value);
        Gives(if Refuses(before, key) then -1 else 0, h.(maps := h.maps[m := after]))
  }

  function Helper(e: Env, h: Host, id: int, r1: u64, r2: u64, r3: u64): HelperResult {
    if 1 <= id <= 3 then MapHelper(e, h, id, r1, r2, r3)
    else if id == 4 then Gives(0, h.(trace := h.trace + [r1]))
    else if id == 5 then Gives(e.clock(h.ticks), h.(ticks := h.ticks + 1))
    else Fails(NoSuchHelper)
  }

  function StepCall(e: Env, id: int, s: State): Result {
    match Helper(e, s.host, id, s.regs[1], s.regs[2], s.regs[3])
    case Fails(why) => Aborted(why, s)
    case Gives(value, host) =>
      Next(State(s.pc + 1, Clobbered(s.regs, U64(value)), s.stack, host))
  }

  /** A call returns in r0 and clears its argument registers. */
  function Clobbered(r: Registers, value: u64): Registers {
    r[0 := value][1 := 0][2 := 0][3 := 0][4 := 0][5 := 0]
  }

  function StepJump(e: Env, i: Insn, s: State): Result {
    if Class(i) == 5 && Operation(i) == 8 then StepCall(e, i.imm, s)
    else if Class(i) == 5 && Operation(i) == 9 then Returned(s.regs[0], s)
    else if Class(i) == 5 && Operation(i) == 0 then Next(s.(pc := s.pc + 1 + i.off))
    else if !HasOperands(i) then Aborted(NoSuchRegister, s)
    else
      var w: Width := if Class(i) == 5 then 64 else 32;
      var take := Taken(w, Operation(i), Word(w, s.regs[i.dst]), Operand(w, i, s.regs));
      Next(s.(pc := if take then s.pc + 1 + i.off else s.pc + 1))
  }

  function StepLddw(p: seq<Insn>, i: Insn, s: State): Result {
    if s.pc + 1 >= |p| || s.pc + 1 < 0 then Aborted(NoSuchInstruction, s)
    else if i.dst > 10 then Aborted(NoSuchRegister, s)
    else
      var lo := i.imm % TWO32;
      var hi := p[s.pc + 1].imm % TWO32;
      Next(s.(regs := s.regs[i.dst := Word(64, BigOr(lo, Shl(hi, 32)))], pc := s.pc + 2))
  }

  function StepLoad(e: Env, i: Insn, s: State): Result {
    if i.src > 10 || i.dst > 10 then Aborted(NoSuchRegister, s)
    else
      var size := SizeOf(i);
      match Resolve(EffectiveAddress(s.regs[i.src], i.off), size, false, |e.ctx|)
      case Fault(why) => Aborted(why, s)
      case InCtx(o) => Loaded(i, s, e.ctx[o..o + size])
      case InStack(o) => Loaded(i, s, s.stack[o..o + size])
  }

  function Loaded(i: Insn, s: State, bytes: seq<byte>): Result
    requires i.dst <= 10
  {
    Next(s.(regs := s.regs[i.dst := Word(64, LeValue(bytes))], pc := s.pc + 1))
  }

  function StepStore(e: Env, i: Insn, s: State): Result {
    if i.dst > 10 || (Class(i) == 3 && i.src > 10) then Aborted(NoSuchRegister, s)
    else
      var size := SizeOf(i);
      var value := if Class(i) == 3 then s.regs[i.src] else i.imm;
      match Resolve(EffectiveAddress(s.regs[i.dst], i.off), size, true, |e.ctx|)
      case Fault(why) => Aborted(why, s)
      case InStack(o) => Next(s.(stack := Splice(s.stack, o, LeBytes(value, size)), pc := s.pc + 1))
      case InCtx(_) => Aborted(ContextWrite, s)
  }

  function Step(p: seq<Insn>, e: Env, s: State): Result {
    if !(0 <= s.pc < |p|) then Aborted(NoSuchInstruction, s)
    else
      var i := p[s.pc];
      match Class(i)
      case 7 => StepAlu(e, i, s)
      case 4 => StepAlu(e, i, s)
      case 5 => StepJump(e, i, s)
      case 6 => StepJump(e, i, s)
      case 0 => StepLddw(p, i, s)
      case 1 => StepLoad(e, i, s)
      case _ => StepStore(e, i, s)
  }

  /** The loop: at most `budget` steps. */
  function Run(p: seq<Insn>, e: Env, s: State, budget: nat): (r: Result)
    ensures !r.Next?
    decreases budget
  {
    if budget == 0 then Aborted(BudgetExceeded, s)
    else
      match Step(p, e, s)
      case Next(t) => Run(p, e, t, budget - 1)
      case Returned(r0, t) => Returned(r0, t)
      case Aborted(why, t) => Aborted(why, t)
  }

  function Start(host: Host): State {
    State(0, [0, CTX_BASE, 0, 0, 0, 0, 0, 0, 0, 0, STACK_TOP], ZeroBytes(512), host)
  }

  /** `min(max(requested, 1), 1_000_000)`, 100_000 when nothing is requested. */
  function Budget(requested: Option<int>): nat {
    var n := if requested.Some? then requested.value else 100_000;
    var atLeastOne := if n < 1 then 1 else n;
    if atLeastOne > 1_000_000 then 1_000_000 else atLeastOne
  }
}
