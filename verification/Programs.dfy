/**
 * The instruction builder's operations, the three programs of hooks.ts and the README's run counter, assembled to
 * bytes, and what the machine computes when it runs those bytes.
 */
module Programs {
  import opened Words
  import opened Codec

  function Op(opcode: int, dst: int, src: int, off: int, imm: int): Slot {
    EncodeSlot(Fields(opcode, dst, src, off, imm))
  }

  function MovImm(dst: int, imm: int): Slot { Op(0xb7, dst, 0, 0, imm) }
  function MovReg(dst: int, src: int): Slot { Op(0xbf, dst, src, 0, 0) }
  function AddImm(dst: int, imm: int): Slot { Op(0x07, dst, 0, 0, imm) }
  function ModReg(dst: int, src: int): Slot { Op(0x9f, dst, src, 0, 0) }
  function LdxDw(dst: int, src: int, off: int): Slot { Op(0x79, dst, src, off, 0) }
  function JeqImm(dst: int, imm: int, off: int): Slot { Op(0x15, dst, 0, off, imm) }
  function Call(id: int): Slot { Op(0x85, 0, 0, 0, id) }
  function ExitOp(): Slot { Op(0x95, 0, 0, 0, 0) }

  /** Two slots: the low half as the first immediate, the high half as the second. */
  function Lddw(dst: int, value: int): seq<byte> {
    var v := value % TWO64;
    Op(0x18, dst, 0, 0, v % TWO32) + Op(0x00, 0, 0, 0, v / TWO32)
  }

  const INGRESS_ADDR: int := 0

  function DenyEastWestChunks(): seq<seq<byte>> {
    [LdxDw(2, 1, 0), LdxDw(3, 1, 8), MovImm(0, 0), JeqImm(2, INGRESS_ADDR, 2), JeqImm(3, INGRESS_ADDR, 1),
     MovImm(0, 1), ExitOp()]
  }

  function DenyEastWest(): seq<byte> {
    Concat(DenyEastWestChunks())
  }

  function RoundRobinChunks(): seq<seq<byte>> {
    [MovReg(9, 1), MovImm(1, 0), MovImm(2, 0), Call(1), MovReg(6, 0),
     MovImm(1, 0), MovImm(2, 0), MovReg(3, 6), AddImm(3, 1), Call(2),
     LdxDw(2, 9, 32), MovReg(0, 6), ModReg(0, 2), ExitOp()]
  }

  function RoundRobin(): seq<byte> {
    Concat(RoundRobinChunks())
  }

  function HashBalancerChunks(): seq<seq<byte>> {
    [LdxDw(0, 1, 24), LdxDw(2, 1, 32), ModReg(0, 2), ExitOp()]
  }

  function HashBalancer(): seq<byte> {
    Concat(HashBalancerChunks())
  }

  function RunCounterChunks(): seq<seq<byte>> {
    [MovImm(1, 0), MovImm(2, 0), MovImm(3, 1), Call(3), MovImm(0, 0), ExitOp()]
  }

  function RunCounter(): seq<byte> {
    Concat(RunCounterChunks())
  }

  // Their instructions

  function Chunks(insns: seq<Insn>): (chunks: seq<seq<byte>>)
    ensures |chunks| == |insns|
    ensures forall k :: 0 <= k < |insns| ==> chunks[k] == EncodeSlot(insns[k])
  {
    seq(|insns|, k requires 0 <= k < |insns| => EncodeSlot(insns[k]))
  }

  lemma {:induction false} SlotsOfChunks(insns: seq<Insn>)
    ensures |Concat(Chunks(insns))| % 8 == 0
    ensures Slots(Concat(Chunks(insns))) == insns
  {
    if insns != [] {
      SlotsOfChunks(insns[1..]);
      SlotsOfOne(insns[0]);
      SlotsAppend(EncodeSlot(insns[0]), Concat(Chunks(insns[1..])));
      assert Chunks(insns)[1..] == Chunks(insns[1..]);
    }
  }

  const DENY: seq<Insn> :=
    [Insn(0x79, 2, 1, 0, 0), Insn(0x79, 3, 1, 8, 0), Insn(0xb7, 0, 0, 0, 0), Insn(0x15, 2, 0, 2, 0),
     Insn(0x15, 3, 0, 1, 0), Insn(0xb7, 0, 0, 0, 1), Insn(0x95, 0, 0, 0, 0)]

  const ROUND_ROBIN: seq<Insn> :=
    [Insn(0xbf, 9, 1, 0, 0), Insn(0xb7, 1, 0, 0, 0), Insn(0xb7, 2, 0, 0, 0), Insn(0x85, 0, 0, 0, 1),
     Insn(0xbf, 6, 0, 0, 0), Insn(0xb7, 1, 0, 0, 0), Insn(0xb7, 2, 0, 0, 0), Insn(0xbf, 3, 6, 0, 0),
     Insn(0x07, 3, 0, 0, 1), Insn(0x85, 0, 0, 0, 2), Insn(0x79, 2, 9, 32, 0), Insn(0xbf, 0, 6, 0, 0),
     Insn(0x9f, 0, 2, 0, 0), Insn(0x95, 0, 0, 0, 0)]

  const HASH: seq<Insn> :=
    [Insn(0x79, 0, 1, 24, 0), Insn(0x79, 2, 1, 32, 0), Insn(0x9f, 0, 2, 0, 0), Insn(0x95, 0, 0, 0, 0)]

  const COUNTER: seq<Insn> :=
    [Insn(0xb7, 1, 0, 0, 0), Insn(0xb7, 2, 0, 0, 0), Insn(0xb7, 3, 0, 0, 1), Insn(0x85, 0, 0, 0, 3),
     Insn(0xb7, 0, 0, 0, 0), Insn(0x95, 0, 0, 0, 0)]

  /** The bytes of each program decode to these instructions. */
  lemma DenyDecodes()
    ensures Decode(DenyEastWest()) == Decoded(DENY)
  {
    hide EncodeSlot, Slots, Concat;
    SlotsOfChunks(DENY);
    assert DenyEastWestChunks() == Chunks(DENY);
  }

  lemma RoundRobinDecodes()
    ensures Decode(RoundRobin()) == Decoded(ROUND_ROBIN)
  {
    hide EncodeSlot, Slots, Concat;
    SlotsOfChunks(ROUND_ROBIN);
    assert RoundRobinChunks() == Chunks(ROUND_ROBIN);
  }

  lemma HashDecodes()
    ensures Decode(HashBalancer()) == Decoded(HASH)
  {
    hide EncodeSlot, Slots, Concat;
    SlotsOfChunks(HASH);
    assert HashBalancerChunks() == Chunks(HASH);
  }

  lemma CounterDecodes()
    ensures Decode(RunCounter()) == Decoded(COUNTER)
  {
    hide EncodeSlot, Slots, Concat;
    SlotsOfChunks(COUNTER);
    assert RunCounterChunks() == Chunks(COUNTER);
  }
}
