/**
 * What holds of every state a verified program reaches: the program counter stays on first slots, r10 stays at the top
 * of the stack, and the only ways out are EXIT and the five named aborts. Then what a budget means, and why a program
 * that only jumps forward never needs one.
 */
module Safety {
  import opened Words
  import opened Codec
  import opened Options
  import opened Verifier
  import opened Maps
  import opened Machine

  ghost predicate Good(p: seq<Insn>, s: State) {
    IsTarget(p, s.pc) && s.regs[10] == STACK_TOP
  }

  /** The aborts a verified program can meet at run time. */
  predicate Named(why: Abort) {
    why in {BudgetExceeded, OutOfBounds, ContextWrite, NoMapAtFd, NoSuchRegister}
  }

  /**
   * A register above r10 where one is read: the verifier bounds the destinations of everything but jumps and stores,
   * and of the jumps JA, CALL and EXIT do not look at theirs.
   */
  predicate BadDestination(i: Insn) {
    i.dst > 10 && (Class(i) in {2, 3, 6} || (Class(i) == 5 && Operation(i) !in {0, 8, 9}))
  }

  lemma ClassFacts(i: Insn)
    ensures 0 <= Class(i) <= 7 && 0 <= Operation(i) <= 15
  {
  }

  /** The instruction after a first slot that is neither EXIT nor the last of its kind is again a first slot. */
  lemma FallThrough(p: seq<Insn>, at: nat)
    requires Accepted(p) && IsTarget(p, at) && p[at].opcode != EXIT
    ensures IsTarget(p, at + if p[at].opcode == LDDW then 2 else 1)
  {
    assert CheckInsn(p, at).None?;
    if p[at].opcode == LDDW {
      assert !Unpaired(p, at);
      assert IsSecond(p, at + 1);
    }
  }

  lemma StepIsSafe(p: seq<Insn>, e: Env, s: State)
    requires Accepted(p) && Good(p, s)
    ensures match Step(p, e, s)
            case Next(t) => Good(p, t)
            case Returned(r0, t) => t == s && r0 == s.regs[0] && Class(p[s.pc]) == 5 && Operation(p[s.pc]) == 9
            case Aborted(why, t) =>
              t == s && Named(why) && why != BudgetExceeded
    ensures BadDestination(p[s.pc]) <==> Step(p, e, s) == Aborted(NoSuchRegister, s)
  {
    hide Splice, EffectiveAddress, Taken, AluOut, Operand, Word, LeBytes, LeValue, BigOr, Shl;
    var i := p[s.pc];
    ClassFacts(i);
    assert CheckInsn(p, s.pc).None?;
    if i.opcode != EXIT {
      FallThrough(p, s.pc);
    }
  }

  /** Such a program exists: a comparison of r12, accepted and aborted in its first step. */
  lemma UncheckedDestination(e: Env, host: Host)
    ensures var p := [Insn(0x15, 12, 0, 0, 0), Insn(EXIT, 0, 0, 0, 0)];
            Accepted(p) && Step(p, e, Start(host)) == Aborted(NoSuchRegister, Start(host))
  {
    var p := [Insn(0x15, 12, 0, 0, 0), Insn(EXIT, 0, 0, 0, 0)];
    assert !IsSecond(p, 0) && !IsSecond(p, 1);
  }

  // Whole runs

  /** The state after n steps, if none of them stopped. */
  function After(p: seq<Insn>, e: Env, s: State, n: nat): Option<State>
    decreases n
  {
    if n == 0 then Some(s)
    else
      match Step(p, e, s)
      case Next(t) => After(p, e, t, n - 1)
      case _ => None
  }

  /** Every reachable state of a verified program is good. */
  lemma {:induction false} ReachableIsGood(p: seq<Insn>, e: Env, s: State, n: nat)
    requires Accepted(p) && Good(p, s)
    ensures After(p, e, s, n).Some? ==> Good(p, After(p, e, s, n).value)
    decreases n
  {
    hide Step, Accepted, Good;
    if n > 0 {
      StepIsSafe(p, e, s);
      if Step(p, e, s).Next? {
        ReachableIsGood(p, e, Step(p, e, s).s, n - 1);
      }
    }
  }

  lemma StartIsGood(p: seq<Insn>, host: Host)
    requires Accepted(p)
    ensures Good(p, Start(host))
  {
  }

  /**
   * A run of a verified program stops by EXIT with r0, or by a named abort; the budget is what stops it exactly when
   * all of its steps were taken.
   */
  lemma {:induction false} RunIsSafe(p: seq<Insn>, e: Env, s: State, budget: nat)
    requires Accepted(p) && Good(p, s)
    ensures var r := Run(p, e, s, budget);
            && Good(p, r.s)
            && (r.Returned? ==> Class(p[r.s.pc]) == 5 && Operation(p[r.s.pc]) == 9 && r.r0 == r.s.regs[0])
            && (r.Aborted? ==> Named(r.why))
            && (r.Aborted? && r.why != BudgetExceeded ==>
                  (r.why == NoSuchRegister <==> BadDestination(p[r.s.pc])))
    ensures var r := Run(p, e, s, budget);
            r.Aborted? && r.why == BudgetExceeded <==> After(p, e, s, budget).Some?
    decreases budget
  {
    hide Step, Accepted, Good;
    StepIsSafe(p, e, s);
    if budget > 0 && Step(p, e, s).Next? {
      RunIsSafe(p, e, Step(p, e, s).s, budget - 1);
    }
  }

  /** A run that ends within its budget took fewer steps than the budget, and ended as its last state's step says. */
  lemma {:induction false} RunEndsWithin(p: seq<Insn>, e: Env, s: State, budget: nat)
    requires After(p, e, s, budget).None?
    ensures exists n :: 0 <= n < budget && After(p, e, s, n).Some?
                     && Run(p, e, s, budget) == Step(p, e, After(p, e, s, n).value)
    decreases budget
  {
    hide Step;
    if Step(p, e, s).Next? {
      var t := Step(p, e, s).s;
      RunEndsWithin(p, e, t, budget - 1);
      var n :| 0 <= n < budget - 1 && After(p, e, t, n).Some?
            && Run(p, e, t, budget - 1) == Step(p, e, After(p, e, t, n).value);
      assert After(p, e, s, n + 1) == After(p, e, t, n);
    } else {
      assert After(p, e, s, 0) == Some(s);
    }
  }

  /** A larger budget gives the same answer, the same maps and the same trace, unless the smaller one ran out. */
  lemma {:induction false} BudgetMonotone(p: seq<Insn>, e: Env, s: State, small: nat, large: nat)
    requires small <= large
    requires After(p, e, s, small).None?
    ensures Run(p, e, s, large) == Run(p, e, s, small)
    decreases small
  {
    hide Step;
    if Step(p, e, s).Next? {
      BudgetMonotone(p, e, Step(p, e, s).s, small - 1, large - 1);
    }
  }

  predicate Jumps(i: Insn) {
    Class(i) == 6 || (Class(i) == 5 && Operation(i) != 8 && Operation(i) != 9)
  }

  ghost predicate ForwardOnly(p: seq<Insn>) {
    forall i :: 0 <= i < |p| && !IsSecond(p, i) && Jumps(p[i]) ==> p[i].off >= 0
  }

  /** A verified program without backward jumps stops within as many steps as it has instructions. */
  lemma {:induction false} ForwardTerminates(p: seq<Insn>, e: Env, s: State, budget: nat)
    requires Accepted(p) && Good(p, s) && ForwardOnly(p)
    requires budget >= |p| - s.pc
    ensures After(p, e, s, budget).None?
    decreases budget
  {
    hide Step, Accepted, ForwardOnly, IsSecond;
    StepIsSafe(p, e, s);
    StepMovesForward(p, e, s);
    if budget > 0 {
      match Step(p, e, s) {
        case Next(t) => ForwardTerminates(p, e, t, budget - 1);
        case _ =>
      }
    }
  }

  lemma StepMovesForward(p: seq<Insn>, e: Env, s: State)
    requires IsTarget(p, s.pc) && ForwardOnly(p)
    ensures Step(p, e, s).Next? ==> Step(p, e, s).s.pc > s.pc
  {
  }

  /** So it never meets the default budget. */
  lemma ForwardNeverExceedsDefault(p: seq<Insn>, e: Env, host: Host)
    requires Accepted(p) && ForwardOnly(p)
    ensures var r := Run(p, e, Start(host), Budget(None));
            r.Aborted? ==> r.why != BudgetExceeded
    ensures Run(p, e, Start(host), Budget(None)) == Run(p, e, Start(host), |p|)
  {
    StartIsGood(p, host);
    ForwardTerminates(p, e, Start(host), |p|);
    BudgetMonotone(p, e, Start(host), |p|, Budget(None));
    RunIsSafe(p, e, Start(host), |p|);
  }

  // Memory over a whole run

  datatype Write = Write(at: nat, bytes: seq<byte>)

  /** What the instruction at pc is about to store, when it is a store into the stack. */
  function PendingWrite(p: seq<Insn>, e: Env, s: State): (w: Option<Write>)
    ensures w.Some? ==> w.value.at + |w.value.bytes| <= STACK_SIZE && |w.value.bytes| in {1, 2, 4, 8}
  {
    if !(0 <= s.pc < |p|) || Class(p[s.pc]) !in {2, 3} then None
    else
      var i := p[s.pc];
      if i.dst > 10 || (Class(i) == 3 && i.src > 10) then None
      else
        var r := Resolve(EffectiveAddress(s.regs[i.dst], i.off), SizeOf(i), true, |e.ctx|);
        if r.InStack? then Some(Write(r.offset, LeBytes(if Class(i) == 3 then s.regs[i.src] else i.imm, SizeOf(i))))
        else None
  }

  /** The stores of the first n steps, oldest first. */
  function Writes(p: seq<Insn>, e: Env, s: State, n: nat): seq<Write>
    decreases n
  {
    if n == 0 then []
    else
      match Step(p, e, s)
      case Next(t) =>
        OneOrNone(PendingWrite(p, e, s)) + Writes(p, e, t, n - 1)
      case _ => []
  }

  function OneOrNone(w: Option<Write>): seq<Write> {
    if w.Some? then [w.value] else []
  }

  /** The byte the latest covering store left at k. */
  function Latest(writes: seq<Write>, k: nat, initial: byte): byte {
    if writes == [] then initial else Latest(writes[1..], k, Overwritten(writes[0], k, initial))
  }

  function Overwritten(w: Write, k: nat, initial: byte): byte {
    if w.at <= k < w.at + |w.bytes| then w.bytes[k - w.at] else initial
  }

  lemma SpliceAt(buffer: seq<byte>, w: Write, k: nat)
    requires w.at + |w.bytes| <= |buffer| && k < |buffer|
    ensures Splice(buffer, w.at, w.bytes)[k] == Overwritten(w, k, buffer[k])
  {
  }

  lemma LatestCons(first: Option<Write>, rest: seq<Write>, k: nat, initial: byte)
    ensures Latest(OneOrNone(first) + rest, k, initial)
         == Latest(rest, k, if first.Some? then Overwritten(first.value, k, initial) else initial)
  {
    assert first.None? ==> OneOrNone(first) + rest == rest;
  }

  /** Each stack byte is what the latest store covering it wrote, whatever the widths and overlaps of the stores. */
  lemma {:induction false} StackIsLatestWrites(p: seq<Insn>, e: Env, s: State, n: nat, k: nat)
    requires k < STACK_SIZE && After(p, e, s, n).Some?
    ensures After(p, e, s, n).value.stack[k] == Latest(Writes(p, e, s, n), k, s.stack[k])
    decreases n
  {
    hide Step, PendingWrite;
    if n > 0 {
      var t := Step(p, e, s).s;
      StackIsLatestWrites(p, e, t, n - 1, k);
      StepWrites(p, e, s);
      var w := PendingWrite(p, e, s);
      LatestCons(w, Writes(p, e, t, n - 1), k, s.stack[k]);
      if w.Some? {
        SpliceAt(s.stack, w.value, k);
      }
    }
  }

  lemma StepWrites(p: seq<Insn>, e: Env, s: State)
    ensures match Step(p, e, s)
            case Next(t) =>
              (match PendingWrite(p, e, s)
               case None => t.stack == s.stack
               case Some(w) => t.stack == Splice(s.stack, w.at, w.bytes))
            case Returned(_, t) => t.stack == s.stack
            case Aborted(_, t) => t == s
  {
  }

  /** Where a load looks. */
  function Loading(p: seq<Insn>, e: Env, t: State): Region
    requires 0 <= t.pc < |p| && p[t.pc].src <= 10
  {
    Resolve(EffectiveAddress(t.regs[p[t.pc].src], p[t.pc].off), SizeOf(p[t.pc]), false, |e.ctx|)
  }

  predicate LoadsStack(p: seq<Insn>, e: Env, t: State) {
    && 0 <= t.pc < |p| && Class(p[t.pc]) == 1 && p[t.pc].src <= 10 && p[t.pc].dst <= 10
    && Loading(p, e, t).InStack?
  }

  /**
   * Loads see stores: after n steps, byte k of a register loaded from the stack is what the latest store covering that
   * byte wrote, whatever the widths and overlaps of loads and stores; the bytes above the load's width are zero.
   */
  lemma LoadReads(p: seq<Insn>, e: Env, s: State, n: nat, k: nat)
    ensures match After(p, e, s, n)
            case None => true
            case Some(t) =>
              LoadsStack(p, e, t) && k < SizeOf(p[t.pc]) ==>
                var i, o := p[t.pc], Loading(p, e, t).offset;
                && Step(p, e, t).Next?
                && var value := Step(p, e, t).s.regs[i.dst];
                   && value < Pow2(8 * SizeOf(i))
                   && LeBytes(value, SizeOf(i))[k] == Latest(Writes(p, e, s, n), o + k, s.stack[o + k])
  {
    hide Writes, Latest, Pow2, LeBytes, LeValue, After, Resolve, Word;
    var after := After(p, e, s, n);
    if after.Some? && LoadsStack(p, e, after.value) && k < SizeOf(p[after.value.pc]) {
      var t := after.value;
      var o, size := Loading(p, e, t).offset, SizeOf(p[t.pc]);
      var bytes := t.stack[o..o + size];
      StackIsLatestWrites(p, e, s, n, o + k);
      LeBytesOfValue(bytes);
      FitsRegister(bytes);
    }
  }

  lemma FitsRegister(bytes: seq<byte>)
    requires |bytes| in {1, 2, 4, 8}
    ensures Word(64, LeValue(bytes)) == LeValue(bytes)
  {
    hide LeValue, Pow2;
    LeBytesOfValue(bytes);
    Pow2Values();
  }

  /**
   * The context is tested first, so the stack can be stored to exactly while the context ends at or below the stack's
   * base: for contexts of at most 2^28 bytes.
   */
  lemma StackReachableExactly(ctxLen: nat)
    ensures (forall a :: STACK_BASE <= a < STACK_BASE + STACK_SIZE ==> Resolve(a, 1, true, ctxLen).InStack?)
            <==> ctxLen <= 0x1000_0000
  {
    if ctxLen > 0x1000_0000 {
      assert Resolve(STACK_BASE, 1, true, ctxLen) == Fault(ContextWrite);
    }
  }

  // Maps over a whole run

  predicate WithinCapacity(m: MapState) {
    |m.entries| <= m.maxEntries
  }

  /** A run can touch only the maps its fds name, never changes a capacity and never exceeds one. */
  lemma {:induction false} MapFrame(p: seq<Insn>, e: Env, s: State, budget: nat, m: nat)
    requires m < |s.host.maps|
    ensures var t := Run(p, e, s, budget).s;
            && |t.host.maps| == |s.host.maps|
            && t.host.maps[m].maxEntries == s.host.maps[m].maxEntries
            && (m !in e.fds ==> t.host.maps[m] == s.host.maps[m])
            && (WithinCapacity(s.host.maps[m]) ==> WithinCapacity(t.host.maps[m]))
    decreases budget
  {
    hide Step, WithinCapacity;
    if budget > 0 {
      StepMapFrame(p, e, s, m);
      if Step(p, e, s).Next? {
        MapFrame(p, e, Step(p, e, s).s, budget - 1, m);
      }
    }
  }

  lemma StepMapFrame(p: seq<Insn>, e: Env, s: State, m: nat)
    requires m < |s.host.maps|
    ensures var t := Step(p, e, s).s;
            && |t.host.maps| == |s.host.maps|
            && t.host.maps[m].maxEntries == s.host.maps[m].maxEntries
            && (m !in e.fds ==> t.host.maps[m] == s.host.maps[m])
            && (WithinCapacity(s.host.maps[m]) ==> WithinCapacity(t.host.maps[m]))
  {
    hide Resolve, Splice, EffectiveAddress, Taken, AluOut, Operand, Word, LeBytes, LeValue, BigOr, Shl;
  }
}
