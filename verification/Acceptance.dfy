/**
 * What the verifier lets pass, byte by byte: the opcodes, what it asks of the other fields for each kind of them, and
 * the shape of whole programs.
 */
module Acceptance {
  import opened Words
  import opened Codec
  import opened Options
  import opened Verifier

  // Opcodes

  /** add, sub, mul, div, or, and, lsh, rsh, neg, mod, xor, mov, arsh; 32 and 64 bits; immediate and register */
  predicate AluOpcode(b: byte) {
    b in {0x04, 0x07, 0x0c, 0x0f, 0x14, 0x17, 0x1c, 0x1f, 0x24, 0x27, 0x2c, 0x2f, 0x34, 0x37, 0x3c, 0x3f, 0x44,
          0x47, 0x4c, 0x4f, 0x54, 0x57, 0x5c, 0x5f, 0x64, 0x67, 0x6c, 0x6f, 0x74, 0x77, 0x7c, 0x7f, 0x84, 0x87,
          0x8c, 0x8f, 0x94, 0x97, 0x9c, 0x9f, 0xa4, 0xa7, 0xac, 0xaf, 0xb4, 0xb7, 0xbc, 0xbf, 0xc4, 0xc7, 0xcc,
          0xcf}
  }

  /** jeq, jgt, jge, jset, jne, jsgt, jsge, jlt, jle, jslt, jsle; 64 and 32 bits; immediate and register */
  predicate BranchOpcode(b: byte) {
    b in {0x15, 0x16, 0x1d, 0x1e, 0x25, 0x26, 0x2d, 0x2e, 0x35, 0x36, 0x3d, 0x3e, 0x45, 0x46, 0x4d, 0x4e, 0x55,
          0x56, 0x5d, 0x5e, 0x65, 0x66, 0x6d, 0x6e, 0x75, 0x76, 0x7d, 0x7e, 0xa5, 0xa6, 0xad, 0xae, 0xb5, 0xb6,
          0xbd, 0xbe, 0xc5, 0xc6, 0xcd, 0xce, 0xd5, 0xd6, 0xdd, 0xde}
  }

  /** `ldxw`, `ldxh`, `ldxb`, `ldxdw` */
  predicate LoadOpcode(b: byte) {
    b in {0x61, 0x69, 0x71, 0x79}
  }

  /** `stw`, `sth`, `stb`, `stdw`, `stxw`, `stxh`, `stxb`, `stxdw` */
  predicate StoreOpcode(b: byte) {
    b in {0x62, 0x6a, 0x72, 0x7a, 0x63, 0x6b, 0x73, 0x7b}
  }

  /** What passes: one of these opcodes, and for each kind what the other fields must be. */
  predicate Passes(p: seq<Insn>, at: nat)
    requires at < |p|
  {
    var i := p[at];
    var target := at + 1 + i.off;
    && i.src <= 10
    && (|| (AluOpcode(i.opcode) && i.dst <= 9)
        || (LoadOpcode(i.opcode) && i.dst <= 9)
        || (i.opcode == 0x18 && i.dst <= 9)
        || StoreOpcode(i.opcode)
        || ((BranchOpcode(i.opcode) || i.opcode in {0x05, 0x0d}) && 0 <= target < |p| && !IsSecond(p, target))
        || (i.opcode in {0x85, 0x8d} && i.imm in {1, 2, 3, 4, 5})
        || i.opcode in {0x95, 0x9d})
  }

  /** An opcode's parts by its two halves. */
  lemma Highs(b: byte)
    ensures b == 16 * (b / 16) + b % 16 && b % 8 == b % 16 % 8 && b / 8 % 2 == b % 16 / 8
    ensures 0 <= b / 16 <= 15 && 0 <= b % 16 <= 15
  {
    var high: int, low: int := b / 16, b % 16;
    var bit, rest := low / 8, low % 8;
    assert low == 8 * bit + rest && 0 <= bit <= 1;
    ModUnique(b, 8, 2 * high + bit, rest);
    ModUnique(2 * high + bit, 2, high, bit);
  }

  lemma AluOpcodes(b: byte)
    ensures AluOpcode(b) <==> b % 8 in {4, 7} && b / 16 <= 12
  {
    hide AluOpcode;
    if b / 16 <= 6 {
      AluOpcodesBelow(b);
    } else {
      AluOpcodesAbove(b);
    }
  }

  lemma AluOpcodesBelow(b: byte)
    requires b / 16 <= 6
    ensures AluOpcode(b) <==> b % 8 in {4, 7}
  {
    Highs(b);
  }

  lemma AluOpcodesAbove(b: byte)
    requires b / 16 > 6
    ensures AluOpcode(b) <==> b % 8 in {4, 7} && b / 16 <= 12
  {
    Highs(b);
  }

  lemma BranchOpcodes(b: byte)
    ensures BranchOpcode(b) <==> b % 8 in {5, 6} && b / 16 in {1, 2, 3, 4, 5, 6, 7, 10, 11, 12, 13}
  {
    Highs(b);
  }

  lemma MemoryOpcodes(b: byte)
    ensures LoadOpcode(b) <==> b % 8 == 1 && b / 32 == 3
    ensures StoreOpcode(b) <==> b % 8 in {2, 3} && b / 32 == 3
  {
    Highs(b);
  }

  lemma JumpOpcodes(b: byte)
    ensures b in {0x05, 0x0d} <==> b % 8 == 5 && b / 16 == 0
    ensures b in {0x85, 0x8d} <==> b % 8 == 5 && b / 16 == 8
    ensures b in {0x95, 0x9d} <==> b % 8 == 5 && b / 16 == 9
  {
    Highs(b);
  }

  /** Each instruction the verifier checks passes exactly so. */
  lemma PassesExactly(p: seq<Insn>, at: nat)
    requires at < |p| && !IsSecond(p, at)
    ensures CheckInsn(p, at).None? <==> Passes(p, at)
  {
    hide IsSecond, AluOpcode, BranchOpcode, LoadOpcode, StoreOpcode;
    var b := p[at].opcode;
    Highs(b);
    AluOpcodes(b);
    BranchOpcodes(b);
    MemoryOpcodes(b);
    JumpOpcodes(b);
  }

  /** And a refusal says for what: the first of these, in this order, that is not as it must be. */
  lemma RefusesFor(p: seq<Insn>, at: nat)
    requires at < |p| && !IsSecond(p, at)
    ensures var i, error := p[at], CheckInsn(p, at);
            var b, target := i.opcode, at + 1 + i.off;
            var jump := BranchOpcode(b) || b in {0x05, 0x0d};
            if i.src > 10 then error == Some(InvalidSource(at))
            else if AluOpcode(b) || LoadOpcode(b) || b == 0x18
            then error == if i.dst > 9 then Some(ReadOnlyDestination(at)) else None
            else if StoreOpcode(b) || b in {0x95, 0x9d} then error == None
            else if jump
            then error == if 0 <= target < |p| && !IsSecond(p, target) then None else Some(InvalidTarget(at))
            else if b in {0x85, 0x8d} then error == if 1 <= i.imm <= 5 then None else Some(UnknownHelper(at))
            else if b % 8 in {4, 7} then error == Some(UnsupportedAlu(at))
            else if b % 8 in {5, 6} then error == Some(UnsupportedJump(at))
            else if b % 8 == 1 then error == Some(UnsupportedLoad(at))
            else if b % 8 in {2, 3} then error == Some(UnsupportedStore(at))
            else error == Some(UnsupportedLd(at))
  {
    hide IsSecond, AluOpcode, BranchOpcode, LoadOpcode, StoreOpcode;
    var b := p[at].opcode;
    Highs(b);
    AluOpcodes(b);
    BranchOpcodes(b);
    MemoryOpcodes(b);
    JumpOpcodes(b);
  }

  /** A slot that begins an instruction: it passes, and if it is an lddw a blank slot follows. */
  predicate Sound(p: seq<Insn>, at: nat)
    requires at < |p|
  {
    Passes(p, at) && (p[at].opcode == 0x18 ==> at + 1 < |p| && p[at + 1].opcode == 0)
  }

  lemma SoundExactly(p: seq<Insn>, at: nat)
    requires at < |p| && !IsSecond(p, at)
    ensures Sound(p, at) <==> !Unpaired(p, at) && CheckInsn(p, at).None?
  {
    hide Passes, CheckInsn;
    PassesExactly(p, at);
  }

  /**
   * A program is accepted exactly if it has 1 to 4096 slots, every one that begins an instruction is sound, and the
   * last instruction is EXIT.
   */
  lemma AcceptsExactly(p: seq<Insn>)
    ensures Accepted(p)
            <==> && 1 <= |p| <= 4096
                 && (forall at :: 0 <= at < |p| && !IsSecond(p, at) ==> Sound(p, at))
                 && !IsSecond(p, |p| - 1) && p[|p| - 1].opcode == 0x95
  {
    hide IsSecond, CheckInsn, Sound, Unpaired;
    forall at | 0 <= at < |p| && !IsSecond(p, at)
      ensures Sound(p, at) <==> !Unpaired(p, at) && CheckInsn(p, at).None?
    {
      SoundExactly(p, at);
    }
    assert forall at :: 0 <= at < |p| && IsSecond(p, at) ==> !Unpaired(p, at) by { SecondsArePaired(p); }
    if forall at :: 0 <= at < |p| && !IsSecond(p, at) ==> Sound(p, at) {
      assert AllPaired(p) && AllChecked(p);
    }
    if AllPaired(p) && AllChecked(p) {
      assert forall at :: 0 <= at < |p| && !IsSecond(p, at) ==> Sound(p, at);
    }
  }

  lemma SecondsArePaired(p: seq<Insn>)
    ensures forall at :: 0 <= at < |p| && IsSecond(p, at) ==> !Unpaired(p, at)
  {
  }

  /** An lddw that no blank slot follows. */
  predicate Broken(p: seq<Insn>, at: nat) {
    at < |p| && !IsSecond(p, at) && p[at].opcode == 0x18 && !(at + 1 < |p| && p[at + 1].opcode == 0)
  }

  /** An instruction that does not pass. */
  predicate Bad(p: seq<Insn>, at: nat) {
    at < |p| && !IsSecond(p, at) && !Passes(p, at)
  }

  /**
   * A refusal names the first of: the size, the first lddw without its blank slot, the first instruction that does not
   * pass, the end.
   */
  lemma ReasonsInOrder(p: seq<Insn>, error: VerifyError)
    requires p != [] && Explains(error, p)
    ensures error.TooLarge? <==> |p| > 4096
    ensures |p| <= 4096 && (exists at: nat :: Broken(p, at)) ==>
              exists at: nat :: Broken(p, at) && error == LddwUnpaired(at) && forall k: nat :: k < at ==> !Broken(p, k)
    ensures |p| <= 4096 && !(exists at: nat :: Broken(p, at)) && (exists at: nat :: Bad(p, at)) ==>
              exists at: nat :: Bad(p, at) && Some(error) == CheckInsn(p, at) && forall k: nat :: k < at ==> !Bad(p, k)
    ensures |p| <= 4096 && !(exists at: nat :: Broken(p, at)) && !(exists at: nat :: Bad(p, at)) ==>
              error == NoFinalExit && (IsSecond(p, |p| - 1) || p[|p| - 1].opcode != 0x95)
  {
    hide IsSecond, CheckInsn, Passes;
    forall at: nat
      ensures Broken(p, at) <==> at < |p| && Unpaired(p, at)
    {
    }
    forall at: nat
      ensures Bad(p, at) <==> at < |p| && !IsSecond(p, at) && CheckInsn(p, at).Some?
    {
      if at < |p| && !IsSecond(p, at) {
        PassesExactly(p, at);
      }
    }
    ErrorKinds(p);
  }

  /** What the checks report is never one of the other passes' errors. */
  lemma ErrorKinds(p: seq<Insn>)
    ensures forall at: nat :: at < |p| && CheckInsn(p, at).Some? ==>
              var error := CheckInsn(p, at).value;
              !error.TooLarge? && !error.LddwUnpaired? && !error.NoFinalExit? && !error.EmptyOrMisaligned?
  {
  }
}
