/** The static pass: instruction fields, lddw pairing, the per-instruction checks, and the verifier loop. */
module Verifier {
  import opened Words
  import opened Codec
  import opened Options

  const MAX_PROGRAM_INSNS := 4096

  datatype VerifyError =
    | EmptyOrMisaligned
    | TooLarge
    | LddwUnpaired(at: nat)
    | InvalidSource(at: nat)
    | UnsupportedAlu(at: nat)
    | ReadOnlyDestination(at: nat)
    | UnsupportedJump(at: nat)
    | UnknownHelper(at: nat)
    | InvalidTarget(at: nat)
    | UnsupportedLoad(at: nat)
    | UnsupportedStore(at: nat)
    | UnsupportedLd(at: nat)
    | NoFinalExit

  datatype VerifyResult = Verified(insns: seq<Insn>) | Rejected(error: VerifyError)

  // Opcode fields: the class is the low three bits, the source flag bit 3, the operation the high four.

  function Class(i: Insn): int { i.opcode % 8 }

  function Operation(i: Insn): int { i.opcode / 16 }

  predicate UsesRegister(i: Insn) { i.opcode / 8 % 2 == 1 }

  predicate MemMode(i: Insn) { i.opcode / 32 == 3 }

  const LDDW: byte := 0x18
  const EXIT: byte := 0x95

  /** Slot i holds the upper half of a 64-bit immediate that starts at i - 1. */
  predicate IsSecond(p: seq<Insn>, i: nat)
    requires i <= |p|
    decreases i
  {
    i > 0 && p[i - 1].opcode == LDDW && !IsSecond(p, i - 1)
  }

  predicate IsTarget(p: seq<Insn>, t: int) {
    0 <= t < |p| && !IsSecond(p, t)
  }

  /** An lddw first slot whose second slot is absent or not blank. */
  predicate Unpaired(p: seq<Insn>, i: nat)
    requires i < |p|
  {
    !IsSecond(p, i) && p[i].opcode == LDDW && (i + 1 >= |p| || p[i + 1].opcode != 0)
  }

  function CheckAlu(i: Insn, at: nat): Option<VerifyError> {
    if Operation(i) > 0xc then Some(UnsupportedAlu(at))
    else if i.dst > 9 then Some(ReadOnlyDestination(at))
    else None
  }

  function CheckJump(p: seq<Insn>, i: Insn, at: nat): Option<VerifyError> {
    if Operation(i) > 0xd then Some(UnsupportedJump(at))
    else if Operation(i) == 8 then if 1 <= i.imm <= 5 then None else Some(UnknownHelper(at))
    else if Operation(i) != 9 && !IsTarget(p, at + 1 + i.off) then Some(InvalidTarget(at))
    else None
  }

  function CheckJump32(p: seq<Insn>, i: Insn, at: nat): Option<VerifyError> {
    if Operation(i) in {0, 8, 9} || Operation(i) > 0xd then Some(UnsupportedJump(at))
    else if !IsTarget(p, at + 1 + i.off) then Some(InvalidTarget(at))
    else None
  }

  function CheckInsn(p: seq<Insn>, at: nat): Option<VerifyError>
    requires at < |p|
  {
    var i := p[at];
    if i.src > 10 then Some(InvalidSource(at))
    else if Class(i) == 7 || Class(i) == 4 then CheckAlu(i, at)
    else if Class(i) == 5 then CheckJump(p, i, at)
    else if Class(i) == 6 then CheckJump32(p, i, at)
    else if Class(i) == 1 then
      if !MemMode(i) then Some(UnsupportedLoad(at)) else if i.dst > 9 then Some(ReadOnlyDestination(at)) else None
    else if Class(i) == 2 || Class(i) == 3 then
      if !MemMode(i) then Some(UnsupportedStore(at)) else None
    else
      if i.opcode != LDDW then Some(UnsupportedLd(at)) else if i.dst > 9 then Some(ReadOnlyDestination(at)) else None
  }

  ghost predicate AllPaired(p: seq<Insn>) {
    forall i :: 0 <= i < |p| ==> !Unpaired(p, i)
  }

  ghost predicate AllChecked(p: seq<Insn>) {
    forall i :: 0 <= i < |p| && !IsSecond(p, i) ==> CheckInsn(p, i).None?
  }

  predicate EndsWithExit(p: seq<Insn>)
    requires p != []
  {
    !IsSecond(p, |p| - 1) && p[|p| - 1].opcode == EXIT
  }

  /** What a program must satisfy to be run. */
  ghost predicate Accepted(p: seq<Insn>) {
    0 < |p| <= MAX_PROGRAM_INSNS && AllPaired(p) && AllChecked(p) && EndsWithExit(p)
  }

  ghost predicate FirstUnpaired(p: seq<Insn>, at: nat) {
    at < |p| && Unpaired(p, at) && forall k :: 0 <= k < at ==> !Unpaired(p, k)
  }

  ghost predicate FirstFailing(p: seq<Insn>, at: nat, error: VerifyError) {
    && at < |p| && !IsSecond(p, at) && CheckInsn(p, at) == Some(error)
    && forall k :: 0 <= k < at && !IsSecond(p, k) ==> CheckInsn(p, k).None?
  }

  /** The error names the first offence of the first pass that finds one. */
  ghost predicate Explains(error: VerifyError, p: seq<Insn>)
    requires p != []
  {
    match error
    case EmptyOrMisaligned => false
    case TooLarge => |p| > MAX_PROGRAM_INSNS
    case LddwUnpaired(at) => |p| <= MAX_PROGRAM_INSNS && FirstUnpaired(p, at)
    case NoFinalExit => |p| <= MAX_PROGRAM_INSNS && AllPaired(p) && AllChecked(p) && !EndsWithExit(p)
    case _ => |p| <= MAX_PROGRAM_INSNS && AllPaired(p) && exists at :: FirstFailing(p, at, error)
  }

  /** The pairing pass: mark second slots, stop at the first unpaired lddw. */
  method MarkSecondSlots(p: seq<Insn>) returns (isLddwSecond: array<bool>, unpaired: Option<nat>)
    ensures fresh(isLddwSecond) && isLddwSecond.Length == |p|
    ensures match unpaired
            case Some(at) => FirstUnpaired(p, at)
            case None => AllPaired(p) && forall k :: 0 <= k < |p| ==> isLddwSecond[k] == IsSecond(p, k)
  {
    isLddwSecond := new bool[|p|](_ => false);
    for i := 0 to |p|
      invariant forall k :: 0 <= k < |p| ==> isLddwSecond[k] == (k <= i && IsSecond(p, k))
      invariant forall k :: 0 <= k < i ==> !Unpaired(p, k)
    {
      if !isLddwSecond[i] && p[i].opcode == LDDW {
        if i + 1 >= |p| || p[i + 1].opcode != 0 {
          return isLddwSecond, Some(i);
        }
        isLddwSecond[i + 1] := true;
      }
    }
    unpaired := None;
  }

  /** The checking pass: the error of the first instruction that has one. */
  method CheckAll(p: seq<Insn>, isLddwSecond: array<bool>) returns (error: Option<VerifyError>)
    requires isLddwSecond.Length == |p|
    requires forall k :: 0 <= k < |p| ==> isLddwSecond[k] == IsSecond(p, k)
    ensures match error
            case None => AllChecked(p)
            case Some(e) =>
              && (exists at :: FirstFailing(p, at, e))
              && e !in {EmptyOrMisaligned, TooLarge, NoFinalExit} && !e.LddwUnpaired?
  {
    for i := 0 to |p|
      invariant forall k :: 0 <= k < i && !IsSecond(p, k) ==> CheckInsn(p, k).None?
    {
      if !isLddwSecond[i] {
        error := CheckInsn(p, i);
        if error.Some? {
          assert FirstFailing(p, i, error.value);
          return;
        }
      }
    }
    return None;
  }

  /** The passes over decoded instructions, in order. */
  method VerifyInsns(p: seq<Insn>) returns (r: VerifyResult)
    requires p != []
    ensures r == Verified(p) || (r.Rejected? && Explains(r.error, p))
    ensures r.Verified? <==> Accepted(p)
  {
    if |p| > MAX_PROGRAM_INSNS {
      return Rejected(TooLarge);
    }
    var isLddwSecond, unpaired := MarkSecondSlots(p);
    if unpaired.Some? {
      return Rejected(LddwUnpaired(unpaired.value));
    }
    var failed := CheckAll(p, isLddwSecond);
    if failed.Some? {
      return Rejected(failed.value);
    }
    var last := |p| - 1;
    if isLddwSecond[last] || p[last].opcode != EXIT {
      return Rejected(NoFinalExit);
    }
    return Verified(p);
  }

  /** `verifyProgram`: accepts exactly the well-formed programs, and otherwise reports the first offence. */
  method VerifyProgram(program: seq<byte>) returns (r: VerifyResult)
    ensures match Decode(program)
            case BadLength => r == Rejected(EmptyOrMisaligned)
            case Decoded(p) =>
              if Accepted(p) then r == Verified(p) else r.Rejected? && Explains(r.error, p)
  {
    var decoded := DecodeProgram(program);
    match decoded
    case BadLength => r := Rejected(EmptyOrMisaligned);
    case Decoded(p) => r := VerifyInsns(p);
  }
}
