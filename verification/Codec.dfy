/** The eight-byte instruction encoding: the decoder of vm.ts and the builder of asm.ts. */
module Codec {
  import opened Words

  type nibble = x: int | 0 <= x < 0x10
  type i16 = x: int | -0x8000 <= x < 0x8000
  type i32 = x: int | -0x8000_0000 <= x < 0x8000_0000

  datatype Insn = Insn(opcode: byte, dst: nibble, src: nibble, off: i16, imm: i32)

  /** An 8-byte slot. */
  type Slot = b: seq<byte> | |b| == 8 witness [0, 0, 0, 0, 0, 0, 0, 0]

  // How a DataView's setters and getters and `imm | 0` cut numbers to their field.

  function Wrap16(x: int): i16 {
    (x + 0x8000) % 0x1_0000 - 0x8000
  }

  function Wrap32(x: int): i32 {
    (x + 0x8000_0000) % 0x1_0000_0000 - 0x8000_0000
  }

  function DecodeSlot(b: Slot): Insn {
    Insn(b[0], b[1] % 16, b[1] / 16, Wrap16(LeValue(b[2..4])), Wrap32(LeValue(b[4..8])))
  }

  /** The instruction the builder's arguments denote once every field is cut to its width. */
  function Fields(opcode: int, dst: int, src: int, off: int, imm: int): Insn {
    Insn(opcode % 0x100, dst % 16, src % 16, Wrap16(off), Wrap32(imm))
  }

  function EncodeSlot(i: Insn): Slot {
    [i.opcode, 16 * i.src + i.dst] + LeBytes(i.off, 2) + LeBytes(i.imm, 4)
  }

  /** `insn`: fill a fresh eight-byte buffer through a DataView. */
  method EncodeInsn(opcode: int, dst: int, src: int, off: int, imm: int) returns (out: array<byte>)
    ensures fresh(out) && out[..] == EncodeSlot(Fields(opcode, dst, src, off, imm))
  {
    out := new byte[8](_ => 0);
    out[0] := opcode % 0x100;
    out[1] := 16 * (src % 16) + dst % 16;
    ghost var i := Fields(opcode, dst, src, off, imm);
    SameBytes16(off, i.off);
    PutLe(out, 2, off, 2);
    PutLe(out, 4, Wrap32(imm), 4);
    assert out[..] == [i.opcode, 16 * i.src + i.dst] + LeBytes(i.off, 2) + LeBytes(i.imm, 4);
  }

  lemma SameBytes16(x: int, y: int)
    requires x % 0x1_0000 == y % 0x1_0000
    ensures LeBytes(x, 2) == LeBytes(y, 2)
  {
    LeFieldWidths(x);
    LeFieldWidths(y);
    LeInjective(LeBytes(x, 2), LeBytes(y, 2));
  }

  /** The layout, byte by byte: dst in the low half of the second byte, offset and immediate signed, low byte first. */
  lemma SlotLayout(b: Slot)
    ensures var i := DecodeSlot(b);
            var off := 256 * b[3] as int + b[2];
            var imm := 256 * (256 * (256 * b[7] as int + b[6]) + b[5]) + b[4];
            && i.opcode == b[0] && b[1] as int == 16 * i.src as int + i.dst
            && i.off == (if b[3] < 0x80 then off else off - 0x1_0000)
            && i.imm == (if b[7] < 0x80 then imm else imm - 0x1_0000_0000)
  {
    hide LeValue;
    LowFirst(b[2..4]);
    LowFirst(b[3..4]);
    LowFirst(b[4..8]);
    LowFirst(b[5..8]);
    LowFirst(b[6..8]);
    LowFirst(b[7..8]);
    assert b[2..4][1..] == b[3..4] && b[4..8][1..] == b[5..8] && b[5..8][1..] == b[6..8] && b[6..8][1..] == b[7..8];
  }

  lemma LowFirst(b: seq<byte>)
    requires b != []
    ensures LeValue(b) == b[0] as int + 256 * LeValue(b[1..])
    ensures |b| == 1 ==> LeValue(b) == b[0] as int
  {
  }

  /** Decoding undoes encoding, for every instruction. */
  lemma DecodeAfterEncode(i: Insn)
    ensures DecodeSlot(EncodeSlot(i)) == i
  {
    var b := EncodeSlot(i);
    assert b[2..4] == LeBytes(i.off, 2) && b[4..8] == LeBytes(i.imm, 4);
    LeFieldWidths(i.off);
    LeFieldWidths(i.imm);
    Wrap16Inverts(i.off);
    Wrap32Inverts(i.imm);
  }

  lemma Wrap16Inverts(x: i16)
    ensures Wrap16(x % 0x1_0000) == x
  {
  }

  lemma Wrap32Inverts(x: i32)
    ensures Wrap32(x % 0x1_0000_0000) == x
  {
  }

  /** Encoding undoes decoding: every slot is the encoding of what it decodes to. */
  lemma EncodeAfterDecode(b: Slot)
    ensures EncodeSlot(DecodeSlot(b)) == b
  {
    var i := DecodeSlot(b);
    Wrap16Bytes(b[2..4]);
    Wrap32Bytes(b[4..8]);
    assert EncodeSlot(i) == [b[0], b[1]] + b[2..4] + b[4..8];
  }

  lemma Wrap16Bytes(b: seq<byte>)
    requires |b| == 2
    ensures LeBytes(Wrap16(LeValue(b)), |b|) == b
  {
    hide Pow2, LeBytes, LeValue;
    Pow2Values();
    LeBytesOfValue(b);
    SameResidueSameBytes(b, Wrap16(LeValue(b)), 0x1_0000);
  }

  lemma Wrap32Bytes(b: seq<byte>)
    requires |b| == 4
    ensures LeBytes(Wrap32(LeValue(b)), |b|) == b
  {
    hide Pow2, LeBytes, LeValue;
    Pow2Values();
    LeBytesOfValue(b);
    SameResidueSameBytes(b, Wrap32(LeValue(b)), 0x1_0000_0000);
  }

  lemma SameResidueSameBytes(b: seq<byte>, x: int, m: int)
    requires m == Pow2(8 * |b|)
    requires x % m == LeValue(b)
    ensures LeBytes(x, |b|) == b
  {
    LeValueOfBytes(x, |b|);
    LeInjective(LeBytes(x, |b|), b);
  }

  // Whole programs

  datatype DecodeResult = Decoded(insns: seq<Insn>) | BadLength

  function SlotAt(b: seq<byte>, i: nat): Slot
    requires 8 * i + 8 <= |b|
  {
    b[8 * i..8 * i + 8]
  }

  /** The instructions of a byte string whose length is a multiple of eight. */
  function Slots(b: seq<byte>): (insns: seq<Insn>)
    requires |b| % 8 == 0
    ensures |insns| == |b| / 8
    ensures forall i :: 0 <= i < |insns| ==> insns[i] == DecodeSlot(SlotAt(b, i))
  {
    seq(|b| / 8, i requires 0 <= i < |b| / 8 => DecodeSlot(SlotAt(b, i)))
  }

  function Decode(b: seq<byte>): DecodeResult {
    if |b| == 0 || |b| % 8 != 0 then BadLength else Decoded(Slots(b))
  }

  method DecodeProgram(program: seq<byte>) returns (r: DecodeResult)
    ensures r == Decode(program)
  {
    if |program| == 0 || |program| % 8 != 0 {
      return BadLength;
    }
    var insns: seq<Insn> := [];
    var i := 0;
    while i < |program|
      invariant 0 <= i <= |program| && i % 8 == 0
      invariant |insns| == i / 8
      invariant forall k :: 0 <= k < i / 8 ==> insns[k] == DecodeSlot(SlotAt(program, k))
    {
      var b := program[i..i + 8];
      assert b == SlotAt(program, i / 8);
      insns := insns + [DecodeSlot(b)];
      i := i + 8;
    }
    assert insns == Slots(program);
    return Decoded(insns);
  }

  function Concat(chunks: seq<seq<byte>>): seq<byte> {
    if chunks == [] then [] else chunks[0] + Concat(chunks[1..])
  }

  lemma {:induction false} ConcatSnoc(chunks: seq<seq<byte>>, last: seq<byte>)
    ensures Concat(chunks + [last]) == Concat(chunks) + last
  {
    if chunks == [] {
      assert chunks + [last] == [last];
    } else {
      ConcatSnoc(chunks[1..], last);
      assert (chunks + [last])[1..] == chunks[1..] + [last];
    }
  }

  lemma {:induction false} ConcatPrefix(chunks: seq<seq<byte>>, n: nat)
    requires n < |chunks|
    ensures Concat(chunks[..n + 1]) == Concat(chunks[..n]) + chunks[n]
    ensures |Concat(chunks[..n + 1])| <= |Concat(chunks)|
  {
    assert chunks[..n + 1] == chunks[..n] + [chunks[n]];
    ConcatSnoc(chunks[..n], chunks[n]);
    ConcatAppend(chunks[..n + 1], chunks[n + 1..]);
    assert chunks == chunks[..n + 1] + chunks[n + 1..];
  }

  lemma {:induction false} ConcatAppend(a: seq<seq<byte>>, b: seq<seq<byte>>)
    ensures Concat(a + b) == Concat(a) + Concat(b)
  {
    if a == [] {
      assert a + b == b;
    } else {
      var s := a + b;
      assert s[0] == a[0] && s[1..] == a[1..] + b;
      calc {
        Concat(s);
        a[0] + Concat(a[1..] + b);
        { ConcatAppend(a[1..], b); }
        a[0] + (Concat(a[1..]) + Concat(b));
        Concat(a) + Concat(b);
      }
    }
  }

  /** `assemble`: size one buffer for all chunks, then copy them in at a running offset. */
  method Assemble(chunks: seq<seq<byte>>) returns (out: array<byte>)
    ensures fresh(out) && out[..] == Concat(chunks)
  {
    var total := 0;
    for i := 0 to |chunks|
      invariant total == |Concat(chunks[..i])|
    {
      ConcatPrefix(chunks, i);
      total := total + |chunks[i]|;
    }
    assert chunks[..|chunks|] == chunks;
    out := new byte[total](_ => 0);
    var offset := 0;
    for i := 0 to |chunks|
      invariant offset == |Concat(chunks[..i])| <= total
      invariant out[..offset] == Concat(chunks[..i])
    {
      ConcatPrefix(chunks, i);
      var chunk := chunks[i];
      forall k | 0 <= k < |chunk| {
        out[offset + k] := chunk[k];
      }
      assert out[..offset + |chunk|] == Concat(chunks[..i]) + chunk;
      offset := offset + |chunk|;
    }
    assert out[..] == out[..offset];
  }

  lemma SlotsAppend(a: seq<byte>, b: seq<byte>)
    requires |a| % 8 == 0 && |b| % 8 == 0
    ensures Slots(a + b) == Slots(a) + Slots(b)
  {
    var n := |a| / 8;
    forall i | 0 <= i < |Slots(a + b)|
      ensures Slots(a + b)[i] == (Slots(a) + Slots(b))[i]
    {
      if i < n {
        assert SlotAt(a + b, i) == SlotAt(a, i);
      } else {
        assert SlotAt(a + b, i) == SlotAt(b, i - n);
      }
    }
  }

  function FlatSlots(chunks: seq<seq<byte>>): seq<Insn>
    requires forall c :: c in chunks ==> |c| % 8 == 0
  {
    if chunks == [] then [] else Slots(chunks[0]) + FlatSlots(chunks[1..])
  }

  /** Decoding an assembled program yields the decoded chunks, one after the other. */
  lemma {:induction false} DecodeOfAssembly(chunks: seq<seq<byte>>)
    requires forall c :: c in chunks ==> |c| % 8 == 0
    ensures |Concat(chunks)| % 8 == 0
    ensures Slots(Concat(chunks)) == FlatSlots(chunks)
  {
    if chunks == [] {
    } else {
      DecodeOfAssembly(chunks[1..]);
      SlotsAppend(chunks[0], Concat(chunks[1..]));
    }
  }

  function EncodeAll(insns: seq<Insn>): (b: seq<byte>)
    ensures |b| == 8 * |insns|
  {
    if insns == [] then [] else EncodeSlot(insns[0]) + EncodeAll(insns[1..])
  }

  lemma SlotsOfOne(i: Insn)
    ensures Slots(EncodeSlot(i)) == [i]
  {
    DecodeAfterEncode(i);
    assert SlotAt(EncodeSlot(i), 0) == EncodeSlot(i);
  }

  lemma {:induction false} DecodeAfterEncodeAll(insns: seq<Insn>)
    ensures Slots(EncodeAll(insns)) == insns
  {
    if insns == [] {
    } else {
      DecodeAfterEncodeAll(insns[1..]);
      SlotsOfOne(insns[0]);
      SlotsAppend(EncodeSlot(insns[0]), EncodeAll(insns[1..]));
    }
  }

  /** Re-encoding any decoded program reproduces its bytes. */
  lemma {:induction false} EncodeAllAfterDecode(b: seq<byte>)
    requires |b| % 8 == 0
    ensures EncodeAll(Slots(b)) == b
    decreases |b|
  {
    if b == [] {
    } else {
      var head, tail := b[..8], b[8..];
      EncodeAllAfterDecode(tail);
      EncodeAfterDecode(head);
      SlotsAppend(head, tail);
      assert b == head + tail;
      assert SlotAt(head, 0) == head;
      assert Slots(b)[1..] == Slots(tail);
    }
  }

  /** Every non-empty program, and nothing else, is the encoding of what it decodes to. */
  lemma DecodeInverts(b: seq<byte>, insns: seq<Insn>)
    requires insns != []
    ensures Decode(b) == Decoded(insns) <==> b == EncodeAll(insns)
  {
    DecodeAfterEncodeAll(insns);
    if Decode(b) == Decoded(insns) {
      EncodeAllAfterDecode(b);
    }
  }
}
