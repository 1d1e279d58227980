/**
 * The Python interpreter, written after ebpf.py on its own: masks instead of residues, a tagged `resolve`, a store that
 * computes its own offset, a step counter, and a verifier that looks targets up in a list. It shares with the
 * TypeScript model the shape of instructions, states and outcomes, and the operators the two languages have in common.
 */
module PythonVm {
  import opened Words
  import opened Codec
  import opened Options
  import opened Verifier
  import opened Maps
  import opened Machine

  // Python integers

  /** `x & mask`, with x in infinite two's complement. */
  function And(x: int, mask: nat): (r: nat)
    ensures r <= mask
    decreases mask
  {
    if mask == 0 then 0
    else 2 * And(x / 2, mask / 2) + (if x % 2 == 1 && mask % 2 == 1 then 1 else 0)
  }

  /** `_trunc` */
  function Truncate(value: int, bits: nat): (r: nat)
    ensures r < Pow2(bits)
  {
    And(value, Pow2(bits) - 1)
  }

  /** `_to_signed` */
  function ToSigned(value: int, bits: nat): int
    requires bits > 0
  {
    var v := Truncate(value, bits);
    if And(v, Pow2(bits - 1)) != 0 then v - Pow2(bits) else v
  }

  /** `_u64` */
  function Mask64(value: int): u64 {
    And(value, TWO64 - 1)
  }

  /** `struct.unpack` of a little-endian signed field: the last byte carries the sign. */
  function Unpack(b: seq<byte>): int
    requires b != []
  {
    if b[|b| - 1] >= 0x80 then LeValue(b) - Pow2(8 * |b|) else LeValue(b)
  }

  // Verification

  datatype Raw = Raw(opcode: int, dst: int, src: int, off: int, imm: int)

  /** One turn of the loop of `_decode`. */
  function DecodeRaw(b: Slot): Raw {
    Raw(b[0], And(b[1], 0x0f), And(Shr(b[1], 4), 0x0f), Unpack(b[2..4]), Unpack(b[4..8]))
  }

  /** `_check` */
  function Check(i: Insn, index: int, count: nat, isLddwSecond: seq<bool>): Option<VerifyError>
    requires |isLddwSecond| == count && 0 <= index
  {
    var cls := And(i.opcode, 0x07);
    if i.src > 10 then Some(InvalidSource(index))
    else if cls in {0x07, 0x04} then
      if Shr(i.opcode, 4) > 0x0c then Some(UnsupportedAlu(index))
      else if i.dst > 9 then Some(ReadOnlyDestination(index))
      else None
    else if cls == 0x05 then
      var jop := Shr(i.opcode, 4);
      if jop > 0x0d then Some(UnsupportedJump(index))
      else if jop == 0x08 then if i.imm !in {1, 2, 3, 4, 5} then Some(UnknownHelper(index)) else None
      else if jop != 0x09 && BadTarget(index + 1 + i.off, count, isLddwSecond) then Some(InvalidTarget(index))
      else None
    else if cls == 0x06 then
      var jop := Shr(i.opcode, 4);
      if jop in {0x00, 0x08, 0x09} || jop > 0x0d then Some(UnsupportedJump(index))
      else if BadTarget(index + 1 + i.off, count, isLddwSecond) then Some(InvalidTarget(index))
      else None
    else if cls == 0x01 then
      if And(i.opcode, 0xe0) != 0x60 then Some(UnsupportedLoad(index))
      else if i.dst > 9 then Some(ReadOnlyDestination(index))
      else None
    else if cls in {0x02, 0x03} then
      if And(i.opcode, 0xe0) != 0x60 then Some(UnsupportedStore(index)) else None
    else
      if i.opcode != 0x18 then Some(UnsupportedLd(index))
      else if i.dst > 9 then Some(ReadOnlyDestination(index))
      else None
  }

  predicate BadTarget(target: int, count: nat, isLddwSecond: seq<bool>)
    requires |isLddwSecond| == count
  {
    target < 0 || target >= count || isLddwSecond[target]
  }

  // Memory

  datatype Place = InContext(offset: int) | OnStack(offset: int) | Raises(why: Abort)

  const CONTEXT := 0x1000_0000
  const STACK := 0x2000_0000

  function Locate(addr: int, size: nat, write: bool, ctxLen: nat): (r: Place)
    ensures r.InContext? ==> !write && 0 <= r.offset && r.offset + size <= ctxLen
    ensures r.OnStack? ==> 0 <= r.offset == addr - STACK && r.offset + size <= 512
  {
    var end := addr + size;
    if CONTEXT <= addr && end <= CONTEXT + ctxLen then
      if write then Raises(ContextWrite) else InContext(addr - CONTEXT)
    else if STACK <= addr && end <= STACK + 512 then OnStack(addr - STACK)
    else Raises(OutOfBounds)
  }

  datatype Loading = Loads(value: nat) | LoadRaises(why: Abort)

  function Load(ctx: seq<byte>, stack: Stack, addr: int, size: nat): (r: Loading)
    ensures r.Loads? && size <= 8 ==> r.value < TWO64
  {
    BytesFit();
    match Locate(addr, size, false, |ctx|)
    case Raises(why) => LoadRaises(why)
    case InContext(offset) => Loads(LeValue(ctx[offset..offset + size]))
    case OnStack(offset) => Loads(LeValue(stack[offset..offset + size]))
  }

  datatype Storing = Stores(stack: Stack) | StoreRaises(why: Abort)

  function Store(ctxLen: nat, stack: Stack, addr: int, size: nat, value: int): Storing {
    var r := Locate(addr, size, true, ctxLen);
    if r.Raises? then StoreRaises(r.why)
    else
      var offset := addr - STACK;
      Stores(stack[..offset] + LeBytes(Truncate(value, size * 8), size) + stack[offset + size..])
  }

  /** `_size_of`: a lookup with 8 as the default. */
  function SizeOfOpcode(opcode: byte): (n: nat)
    ensures n in {1, 2, 4, 8}
  {
    var bits := And(opcode, 0x18);
    if bits == 0x00 then 4 else if bits == 0x08 then 2 else if bits == 0x10 then 1 else 8
  }

  // Helpers

  function MapFor(e: Env, h: Host, fd: int): Option<nat> {
    if fd < 0 || fd >= |e.fds| || e.fds[fd] >= |h.maps| then None else Some(e.fds[fd])
  }

  function Lookup(m: MapState, key: int): Option<u64> {
    var k := Mask64(key);
    if k in m.entries.Keys then Some(m.entries[k]) else None
  }

  datatype Written = Written(ok: bool, m: MapState)

  function SetEntry(m: MapState, key: int, value: int): Written {
    var k := Mask64(key);
    if k !in m.entries.Keys && |m.entries| >= m.maxEntries then Written(false, m)
    else Written(true, m.(entries := m.entries[k := Mask64(value)]))
  }

  function AddEntry(m: MapState, key: int, delta: int): Written {
    var k := Mask64(key);
    if k !in m.entries.Keys && |m.entries| >= m.maxEntries then Written(false, m)
    else
      var held := if k in m.entries.Keys then m.entries[k] else 0;
      Written(true, m.(entries := m.entries[k := Mask64(held + delta)]))
  }

  function CallHelper(e: Env, h: Host, id: int, r1: u64, r2: u64, r3: u64): HelperResult {
    if id == 1 then
      var m := MapFor(e, h, r1);
      if m.None? then Fails(NoMapAtFd)
      else
        var held := Lookup(h.maps[m.value], r2);
        Gives(if held.Some? then held.value else 0, h)
    else if id == 2 || id == 3 then
      var m := MapFor(e, h, r1);
      if m.None? then Fails(NoMapAtFd)
      else
        var w := if id == 2 then SetEntry(h.maps[m.value], r2, r3) else AddEntry(h.maps[m.value], r2, r3);
        Gives(if w.ok then 0 else TWO64 - 1, h.(maps := h.maps[m.value := w.m]))
    else if id == 4 then Gives(0, h.(trace := h.trace + [r1]))
    else if id == 5 then Gives(Mask64(e.clock(h.ticks)), h.(ticks := h.ticks + 1))
    else Fails(NoSuchHelper)
  }

  // What is assigned fits a register

  lemma WidthsFit()
    ensures Pow2(32) == TWO32 && Pow2(64) == TWO64
  {
    Pow2Values();
  }

  lemma HalvesFit(lo: nat, hi: nat)
    requires lo < TWO32 && hi < TWO32
    ensures Shl(hi, 32) >= 0
    ensures 0 <= BigOr(lo, Shl(hi, 32)) == lo + TWO32 * hi < TWO64
  {
    hide Pow2, Shl, BigOr;
    Pow2Values();
    OrOfDisjoint(32, lo, hi);
    ShlIsProduct(hi, 32);
  }

  lemma BytesFit()
    ensures forall b: seq<byte> :: |b| <= 8 ==> LeValue(b) < TWO64
  {
    forall b: seq<byte> | |b| <= 8
      ensures LeValue(b) < TWO64
    {
      BytesFitIn(b, 8);
      Pow2Values();
    }
  }

  lemma {:induction false} BytesFitIn(b: seq<byte>, n: nat)
    requires |b| <= n
    ensures LeValue(b) < Pow2(8 * n)
  {
    if b != [] {
      BytesFitIn(b[1..], n - 1);
      Pow2Plus8(8 * (n - 1));
    }
  }

  // One turn of the loop of `run`

  function AluValue(op: int, width: Width, a: nat, b: nat): int {
    var shift := And(b, width - 1);
    if op == 0x0 then a + b
    else if op == 0x1 then a - b
    else if op == 0x2 then a * b
    else if op == 0x3 then if b == 0 then 0 else a / b
    else if op == 0x4 then BigOr(a, b)
    else if op == 0x5 then And(a, b)
    else if op == 0x6 then Shl(a, shift)
    else if op == 0x7 then Shr(a, shift)
    else if op == 0x8 then -(a as int)
    else if op == 0x9 then if b == 0 then a else a % b
    else if op == 0xa then BigXor(a, b)
    else if op == 0xb then b
    else Shr(ToSigned(a, width), shift)
  }

  predicate Take(jop: int, width: Width, ua: nat, ub: nat) {
    var sa := ToSigned(ua, width);
    var sb := ToSigned(ub, width);
    if jop == 0x1 then ua == ub
    else if jop == 0x2 then ua > ub
    else if jop == 0x3 then ua >= ub
    else if jop == 0x4 then And(ua, ub) != 0
    else if jop == 0x5 then ua != ub
    else if jop == 0x6 then sa > sb
    else if jop == 0x7 then sa >= sb
    else if jop == 0xa then ua < ub
    else if jop == 0xb then ua <= ub
    else if jop == 0xc then sa < sb
    else sa <= sb
  }

  /** `regs` has eleven entries; a higher index raises. */
  predicate Readable(i: Insn) {
    i.dst < 11 && (And(i.opcode, 0x08) != 0 ==> i.src < 11)
  }

  function Right(i: Insn, width: Width, s: State): nat
    requires Readable(i)
  {
    Truncate(if And(i.opcode, 0x08) != 0 then s.regs[i.src] else i.imm, width)
  }

  function Assigned(s: State, dst: nat, value: nat, pc: int): Result
    requires dst < 11 && value < TWO64
  {
    Next(s.(regs := s.regs[dst := value], pc := pc))
  }

  function Alu(i: Insn, s: State): Result {
    if !Readable(i) then Aborted(NoSuchRegister, s)
    else
      var width: Width := if And(i.opcode, 0x07) == 0x07 then 64 else 32;
      var out := AluValue(Shr(i.opcode, 4), width, Truncate(s.regs[i.dst], width), Right(i, width, s));
      WidthsFit();
      Assigned(s, i.dst, Truncate(out, width), s.pc + 1)
  }

  function Jmp(e: Env, i: Insn, s: State): Result {
    var jop := Shr(i.opcode, 4);
    var wide := And(i.opcode, 0x07) == 0x05;
    if wide && jop == 0x08 then
      match CallHelper(e, s.host, i.imm, s.regs[1], s.regs[2], s.regs[3])
      case Fails(why) => Aborted(why, s)
      case Gives(value, host) =>
        Next(State(s.pc + 1, s.regs[0 := Mask64(value)][5 := 0][4 := 0][3 := 0][2 := 0][1 := 0], s.stack, host))
    else if wide && jop == 0x09 then Returned(s.regs[0], s)
    else if wide && jop == 0x00 then Next(s.(pc := s.pc + (1 + i.off)))
    else if !Readable(i) then Aborted(NoSuchRegister, s)
    else
      var width: Width := if wide then 64 else 32;
      var take := Take(jop, width, Truncate(s.regs[i.dst], width), Right(i, width, s));
      Next(s.(pc := s.pc + if take then 1 + i.off else 1))
  }

  /** Indexing a list: negative indices count from the end. */
  function At(p: seq<Insn>, pc: int): Option<Insn> {
    if 0 <= pc < |p| then Some(p[pc]) else if -|p| <= pc < 0 then Some(p[|p| + pc]) else None
  }

  function Wide(p: seq<Insn>, i: Insn, s: State): Result {
    match At(p, s.pc + 1)
    case None => Aborted(NoSuchInstruction, s)
    case Some(second) =>
      if i.dst >= 11 then Aborted(NoSuchRegister, s)
      else
        var lo := And(i.imm, 0xffff_ffff);
        var hi := And(second.imm, 0xffff_ffff);
        HalvesFit(lo, hi);
        Assigned(s, i.dst, BigOr(lo, Shl(hi, 32)), s.pc + 2)
  }

  function Ldx(e: Env, i: Insn, s: State): Result {
    if i.src >= 11 then Aborted(NoSuchRegister, s)
    else
      match Load(e.ctx, s.stack, Mask64(s.regs[i.src] + i.off), SizeOfOpcode(i.opcode))
      case LoadRaises(why) => Aborted(why, s)
      case Loads(value) =>
        if i.dst >= 11 then Aborted(NoSuchRegister, s) else Assigned(s, i.dst, value, s.pc + 1)
  }

  function St(e: Env, i: Insn, s: State, immediate: bool): Result {
    if i.dst >= 11 || (!immediate && i.src >= 11) then Aborted(NoSuchRegister, s)
    else
      var value := if immediate then i.imm else s.regs[i.src];
      match Store(|e.ctx|, s.stack, Mask64(s.regs[i.dst] + i.off), SizeOfOpcode(i.opcode), value)
      case StoreRaises(why) => Aborted(why, s)
      case Stores(stack) => Next(s.(stack := stack, pc := s.pc + 1))
  }

  function PythonStep(p: seq<Insn>, e: Env, s: State): Result {
    match At(p, s.pc)
    case None => Aborted(NoSuchInstruction, s)
    case Some(i) =>
      var cls := And(i.opcode, 0x07);
      if cls in {0x07, 0x04} then Alu(i, s)
      else if cls in {0x05, 0x06} then Jmp(e, i, s)
      else if cls == 0x00 then Wide(p, i, s)
      else if cls == 0x01 then Ldx(e, i, s)
      else St(e, i, s, cls == 0x02)
  }

  /** The loop: the counter is raised before it is compared. */
  function PythonRun(p: seq<Insn>, e: Env, s: State, steps: nat, maxInstructions: nat): Result
    decreases maxInstructions - steps
  {
    if steps + 1 > maxInstructions then Aborted(BudgetExceeded, s)
    else
      match PythonStep(p, e, s)
      case Next(t) => PythonRun(p, e, t, steps + 1, maxInstructions)
      case Returned(r0, t) => Returned(r0, t)
      case Aborted(why, t) => Aborted(why, t)
  }

  // The start of `run`

  function Zeros(n: nat): (r: seq<int>)
    ensures |r| == n && forall i :: 0 <= i < n ==> r[i] == 0
  {
    seq(n, _ => 0)
  }

  /** `bytearray(512)`; `[0] * 11`, then regs[1] and regs[10] */
  function PythonStart(host: Host): State {
    var regs := Zeros(11)[1 := CONTEXT][10 := STACK + 512];
    State(0, seq(11, i requires 0 <= i < 11 => regs[i] as u64), seq(512, _ => 0), host)
  }

  /** `min(max(max_instructions, 1), 1_000_000)`, the parameter's default being 100_000 */
  function PythonBudget(maxInstructions: Option<int>): nat {
    var requested := if maxInstructions.Some? then maxInstructions.value else 100_000;
    var raised := if requested > 1 then requested else 1;
    if raised < 1_000_000 then raised else 1_000_000
  }
}
