/** What the assembled programs compute, derived one machine step at a time. */
module ProgramRuns {
  import opened Words
  import opened Codec
  import opened Verifier
  import opened Maps
  import opened Machine
  import opened Programs

  // Context structs: little-endian u64 fields, field k at byte offset 8k

  function Pack(fields: seq<int>): (b: seq<byte>)
    ensures |b| == 8 * |fields|
  {
    if fields == [] then [] else LeBytes(fields[0], 8) + Pack(fields[1..])
  }

  lemma {:induction false} FieldAt(fields: seq<int>, k: nat)
    requires k < |fields|
    ensures LeValue(Pack(fields)[8 * k..8 * k + 8]) == U64(fields[k])
  {
    hide LeBytes, LeValue, Pow2;
    if k == 0 {
      assert Pack(fields)[0..8] == LeBytes(fields[0], 8);
      LeValueOfBytes(fields[0], 8);
      Pow2Values();
    } else {
      FieldAt(fields[1..], k - 1);
      assert Pack(fields)[8 * k..8 * k + 8] == Pack(fields[1..])[8 * (k - 1)..8 * (k - 1) + 8];
    }
  }

  // Single instructions

  predicate At(p: seq<Insn>, s: State, i: Insn) {
    0 <= s.pc < |p| && p[s.pc] == i
  }

  function With(s: State, d: nat, v: u64): State
    requires d < 11
  {
    s.(regs := s.regs[d := v], pc := s.pc + 1)
  }

  /** Which case of the step function an instruction selects. */
  lemma Dispatch(p: seq<Insn>, e: Env, s: State, i: Insn)
    requires At(p, s, i)
    ensures Class(i) == 7 ==> Step(p, e, s) == StepAlu(e, i, s)
    ensures Class(i) == 5 ==> Step(p, e, s) == StepJump(e, i, s)
    ensures Class(i) == 1 ==> Step(p, e, s) == StepLoad(e, i, s)
    ensures Class(i) == 0 ==> Step(p, e, s) == StepLddw(p, i, s)
  {
    hide StepAlu, StepJump, StepLoad, StepLddw, StepStore;
  }

  /** A 64-bit ALU instruction whose operation yields `out`. */
  lemma ExecAlu64(p: seq<Insn>, e: Env, s: State, i: Insn, out: int)
    requires At(p, s, i) && Class(i) == 7 && i.dst <= 9 && i.src <= 10
    requires out == AluOut(64, Operation(i), s.regs[i.dst],
                           if UsesRegister(i) then s.regs[i.src] else U64(i.imm))
    ensures Step(p, e, s) == Next(With(s, i.dst, U64(out)))
  {
    hide Step, AluOut;
    Dispatch(p, e, s, i);
  }

  lemma AluOuts(a: nat, b: nat)
    ensures AluOut(64, 0, a, b) == a + b
    ensures AluOut(64, 9, a, b) == if b == 0 then a else a % b
    ensures AluOut(64, 0xb, a, b) == b
  {
    hide BigAnd, BigOr, BigXor, Shl, Shr, SignedWord;
  }

  lemma ExecMovImm(p: seq<Insn>, e: Env, s: State, d: nat, imm: i32)
    requires d <= 9 && 0 <= imm && At(p, s, Insn(0xb7, d, 0, 0, imm))
    ensures Step(p, e, s) == Next(With(s, d, imm))
  {
    hide Step, AluOut, Taken;
    AluOuts(s.regs[d], imm);
    ExecAlu64(p, e, s, Insn(0xb7, d, 0, 0, imm), imm);
  }

  lemma ExecMovReg(p: seq<Insn>, e: Env, s: State, d: nat, r: nat)
    requires d <= 9 && r <= 10 && At(p, s, Insn(0xbf, d, r, 0, 0))
    ensures Step(p, e, s) == Next(With(s, d, s.regs[r]))
  {
    hide Step, AluOut, Taken;
    var i := Insn(0xbf, d, r, 0, 0);
    assert Class(i) == 7 && UsesRegister(i) && Operation(i) == 0xb;
    AluOuts(s.regs[d], s.regs[r]);
    ExecAlu64(p, e, s, i, s.regs[r]);
  }

  lemma ExecAddImm(p: seq<Insn>, e: Env, s: State, d: nat, imm: i32)
    requires d <= 9 && 0 <= imm && At(p, s, Insn(0x07, d, 0, 0, imm))
    ensures Step(p, e, s) == Next(With(s, d, U64(s.regs[d] as int + imm)))
  {
    hide Step, AluOut, Taken;
    AluOuts(s.regs[d], imm);
    ExecAlu64(p, e, s, Insn(0x07, d, 0, 0, imm), s.regs[d] as int + imm);
  }

  lemma ExecModReg(p: seq<Insn>, e: Env, s: State, d: nat, r: nat)
    requires d <= 9 && r <= 10 && At(p, s, Insn(0x9f, d, r, 0, 0))
    ensures Step(p, e, s) == Next(With(s, d, Remainder(s.regs[d], s.regs[r])))
  {
    hide Step, AluOut, Taken;
    AluOuts(s.regs[d], s.regs[r]);
    ExecAlu64(p, e, s, Insn(0x9f, d, r, 0, 0), Remainder(s.regs[d], s.regs[r]));
  }

  /** BPF's modulo: a zero divisor leaves the dividend. */
  function Remainder(a: u64, b: u64): u64 {
    if b == 0 then a else a % b
  }

  /** `ldxdw d, [r + 8k]` with the context pointer in r reads field k. */
  lemma ExecLoadField(p: seq<Insn>, e: Env, s: State, d: nat, r: nat, fields: seq<int>, k: nat)
    requires d <= 9 && r <= 10 && k < |fields| <= 16 && At(p, s, Insn(0x79, d, r, 8 * k, 0))
    requires s.regs[r] == CTX_BASE && e.ctx == Pack(fields)
    ensures Step(p, e, s) == Next(With(s, d, U64(fields[k])))
  {
    hide Step, LeValue, Pack;
    var i := Insn(0x79, d, r, 8 * k, 0);
    Dispatch(p, e, s, i);
    assert Class(i) == 1 && SizeOf(i) == 8;
    assert Resolve(EffectiveAddress(s.regs[r], i.off), 8, false, |e.ctx|) == InCtx(8 * k);
    FieldAt(fields, k);
  }

  lemma ExecJeqImm(p: seq<Insn>, e: Env, s: State, d: nat, imm: i32, off: i16)
    requires d <= 9 && 0 <= imm && At(p, s, Insn(0x15, d, 0, off, imm))
    ensures Step(p, e, s) == Next(s.(pc := if s.regs[d] == imm then s.pc + 1 + off else s.pc + 1))
  {
    hide Step, Taken;
    UnsignedTests(s.regs[d], imm);
    U64Small(imm);
    ExecBranchImm(p, e, s, Insn(0x15, d, 0, off, imm), 1);
  }

  lemma ExecJltImm(p: seq<Insn>, e: Env, s: State, d: nat, imm: i32, off: i16)
    requires d <= 9 && 0 <= imm && At(p, s, Insn(0xa5, d, 0, off, imm))
    ensures Step(p, e, s) == Next(s.(pc := if s.regs[d] < imm then s.pc + 1 + off else s.pc + 1))
  {
    hide Step, Taken;
    UnsignedTests(s.regs[d], imm);
    U64Small(imm);
    ExecBranchImm(p, e, s, Insn(0xa5, d, 0, off, imm), 0xa);
  }

  lemma ExecJleImm(p: seq<Insn>, e: Env, s: State, d: nat, imm: i32, off: i16)
    requires d <= 9 && 0 <= imm && At(p, s, Insn(0xb5, d, 0, off, imm))
    ensures Step(p, e, s) == Next(s.(pc := if s.regs[d] <= imm then s.pc + 1 + off else s.pc + 1))
  {
    hide Step, Taken;
    UnsignedTests(s.regs[d], imm);
    U64Small(imm);
    ExecBranchImm(p, e, s, Insn(0xb5, d, 0, off, imm), 0xb);
  }

  lemma UnsignedTests(a: nat, b: nat)
    ensures Taken(64, 1, a, b) <==> a == b
    ensures Taken(64, 0xa, a, b) <==> a < b
    ensures Taken(64, 0xb, a, b) <==> a <= b
  {
    hide BigAnd, SignedWord;
  }

  lemma ExecBranchImm(p: seq<Insn>, e: Env, s: State, i: Insn, op: int)
    requires At(p, s, i) && Class(i) == 5 && Operation(i) == op && op !in {0, 8, 9} && !UsesRegister(i) && i.dst <= 9
    ensures Step(p, e, s)
         == Next(s.(pc := if Taken(64, op, s.regs[i.dst], U64(i.imm)) then s.pc + 1 + i.off else s.pc + 1))
  {
    hide Step, StepCall, Taken;
    Dispatch(p, e, s, i);
  }

  lemma ExecExit(p: seq<Insn>, e: Env, s: State)
    requires At(p, s, Insn(0x95, 0, 0, 0, 0))
    ensures Step(p, e, s) == Returned(s.regs[0], s)
  {
  }

  /** A map helper on an fd that names map m. */
  lemma ExecMapCall(p: seq<Insn>, e: Env, s: State, id: i32, m: nat)
    requires 1 <= id <= 3 && At(p, s, Insn(0x85, 0, 0, 0, id))
    requires s.regs[1] < |e.fds| && e.fds[s.regs[1]] == m < |s.host.maps|
    ensures var key, value, before := s.regs[2], s.regs[3], s.host.maps[m];
            var result := if id == 1 then GetOr0(before, key) else if Refuses(before, key) then U64(-1) else 0;
            var after := if id == 1 then before
                         else if id == 2 then Put(before, key, value)
                         else Plus(before, key, value);
            Step(p, e, s) == Next(State(s.pc + 1, Clobbered(s.regs, result), s.stack,
                                        s.host.(maps := s.host.maps[m := after])))
  {
    hide Step, Put, Plus, GetOr0, Refuses, Clobbered;
    Dispatch(p, e, s, Insn(0x85, 0, 0, 0, id));
    if id == 1 {
      assert s.host.maps[m := s.host.maps[m]] == s.host.maps;
    }
  }

  /** One step of a run. */
  lemma Unroll(p: seq<Insn>, e: Env, s: State, budget: nat, t: State)
    requires budget > 0 && Step(p, e, s) == Next(t)
    ensures Run(p, e, s, budget) == Run(p, e, t, budget - 1)
  {
  }

  lemma UnrollExit(p: seq<Insn>, e: Env, s: State, budget: nat)
    requires budget > 0 && At(p, s, Insn(0x95, 0, 0, 0, 0))
    ensures Run(p, e, s, budget) == Returned(s.regs[0], s)
  {
    ExecExit(p, e, s);
  }

  // deny-east-west

  lemma DenyAccepted()
    ensures Accepted(DENY)
  {
    assert forall k :: 0 <= k <= 6 ==> !IsSecond(DENY, k);
  }

  /** The verdict: 1 exactly when both addresses are nonzero; the host is not touched. */
  lemma DenyVerdict(e: Env, host: Host, fields: seq<int>, budget: nat)
    requires 2 <= |fields| <= 16 && e.ctx == Pack(fields) && budget >= 7
    ensures var r := Run(DENY, e, Start(host), budget);
            && r.Returned? && r.s.host == host
            && r.r0 == if U64(fields[0]) != 0 && U64(fields[1]) != 0 then 1 else 0
  {
    hide Run, Step, Pack;
    var s0 := Start(host);
    ExecLoadField(DENY, e, s0, 2, 1, fields, 0);
    var s1 := With(s0, 2, U64(fields[0]));
    Unroll(DENY, e, s0, budget, s1);
    ExecLoadField(DENY, e, s1, 3, 1, fields, 1);
    var s2 := With(s1, 3, U64(fields[1]));
    Unroll(DENY, e, s1, budget - 1, s2);
    ExecMovImm(DENY, e, s2, 0, 0);
    var s3 := With(s2, 0, 0);
    Unroll(DENY, e, s2, budget - 2, s3);
    ExecJeqImm(DENY, e, s3, 2, 0, 2);
    if U64(fields[0]) == 0 {
      var s6 := s3.(pc := 6);
      Unroll(DENY, e, s3, budget - 3, s6);
      UnrollExit(DENY, e, s6, budget - 4);
    } else {
      var s4 := s3.(pc := 4);
      Unroll(DENY, e, s3, budget - 3, s4);
      DenySecondTest(e, s4, budget - 4);
    }
  }

  lemma DenySecondTest(e: Env, s: State, budget: nat)
    requires s.pc == 4 && s.regs[0] == 0 && budget >= 3
    ensures var r := Run(DENY, e, s, budget);
            r.Returned? && r.s.host == s.host && r.r0 == if s.regs[3] == 0 then 0 else 1
  {
    hide Run, Step;
    ExecJeqImm(DENY, e, s, 3, 0, 1);
    if s.regs[3] == 0 {
      Unroll(DENY, e, s, budget, s.(pc := 6));
      UnrollExit(DENY, e, s.(pc := 6), budget - 1);
    } else {
      var s5 := s.(pc := 5);
      Unroll(DENY, e, s, budget, s5);
      ExecMovImm(DENY, e, s5, 0, 1);
      Unroll(DENY, e, s5, budget - 1, With(s5, 0, 1));
      UnrollExit(DENY, e, With(s5, 0, 1), budget - 2);
    }
  }

  // Round robin

  lemma RoundRobinAccepted()
    ensures Accepted(ROUND_ROBIN)
  {
    assert forall k :: 0 <= k <= 13 ==> !IsSecond(ROUND_ROBIN, k);
  }

  /** Instructions 0 to 2 set up the call: the context pointer moves to r9, fd and key are 0. */
  lemma RoundRobinStarts(e: Env, host: Host, budget: nat) returns (t: State)
    requires budget >= 3
    ensures Run(ROUND_ROBIN, e, Start(host), budget) == Run(ROUND_ROBIN, e, t, budget - 3)
    ensures t.pc == 3 && t.host == host && t.regs[1] == 0 && t.regs[2] == 0 && t.regs[9] == CTX_BASE
  {
    hide Run, Step;
    var p := ROUND_ROBIN;
    var s0 := Start(host);
    ExecMovReg(p, e, s0, 9, 1);
    var s1 := With(s0, 9, CTX_BASE);
    Unroll(p, e, s0, budget, s1);
    ExecMovImm(p, e, s1, 1, 0);
    var s2 := With(s1, 1, 0);
    Unroll(p, e, s1, budget - 1, s2);
    ExecMovImm(p, e, s2, 2, 0);
    t := With(s2, 2, 0);
    Unroll(p, e, s2, budget - 2, t);
  }

  /** Instructions 0 to 4 leave the counter in r6 and the context pointer in r9. */
  lemma RoundRobinReads(e: Env, host: Host, budget: nat, m: nat) returns (t: State)
    requires budget >= 5 && |e.fds| > 0 && e.fds[0] == m < |host.maps|
    ensures Run(ROUND_ROBIN, e, Start(host), budget) == Run(ROUND_ROBIN, e, t, budget - 5)
    ensures t.pc == 5 && t.host == host && t.regs[6] == GetOr0(host.maps[m], 0) && t.regs[9] == CTX_BASE
  {
    hide Run, Step, Put, Plus, Refuses, GetOr0;
    var p := ROUND_ROBIN;
    var s3 := RoundRobinStarts(e, host, budget);
    ExecMapCall(p, e, s3, 1, m);
    var c := GetOr0(host.maps[m], 0);
    assert host.(maps := host.maps[m := host.maps[m]]) == host;
    var s4 := State(4, Clobbered(s3.regs, c), s3.stack, host);
    Unroll(p, e, s3, budget - 3, s4);
    ExecMovReg(p, e, s4, 6, 0);
    t := With(s4, 6, c);
    Unroll(p, e, s4, budget - 4, t);
  }

  /** Instructions 5 to 8 set up the second call, the incremented counter being its value. */
  lemma RoundRobinPrepares(e: Env, s: State, budget: nat) returns (t: State)
    requires budget >= 4 && s.pc == 5
    ensures Run(ROUND_ROBIN, e, s, budget) == Run(ROUND_ROBIN, e, t, budget - 4)
    ensures t.pc == 9 && t.host == s.host && t.regs[1] == 0 && t.regs[2] == 0
    ensures t.regs[3] == U64(s.regs[6] as int + 1) && t.regs[6] == s.regs[6] && t.regs[9] == s.regs[9]
  {
    hide Run, Step, U64;
    var p := ROUND_ROBIN;
    ExecMovImm(p, e, s, 1, 0);
    var s1 := With(s, 1, 0);
    Unroll(p, e, s, budget, s1);
    ExecMovImm(p, e, s1, 2, 0);
    var s2 := With(s1, 2, 0);
    Unroll(p, e, s1, budget - 1, s2);
    ExecMovReg(p, e, s2, 3, 6);
    var s3 := With(s2, 3, s.regs[6]);
    Unroll(p, e, s2, budget - 2, s3);
    ExecAddImm(p, e, s3, 3, 1);
    t := With(s3, 3, U64(s.regs[6] as int + 1));
    Unroll(p, e, s3, budget - 3, t);
  }

  /** Instructions 5 to 9 store the incremented counter. */
  lemma RoundRobinWrites(e: Env, s: State, budget: nat, m: nat) returns (t: State)
    requires budget >= 5 && |e.fds| > 0 && e.fds[0] == m < |s.host.maps|
    requires s.pc == 5 && s.regs[9] == CTX_BASE
    ensures Run(ROUND_ROBIN, e, s, budget) == Run(ROUND_ROBIN, e, t, budget - 5)
    ensures t.pc == 10 && t.regs[6] == s.regs[6] && t.regs[9] == CTX_BASE
    ensures t.host == s.host.(maps := s.host.maps[m := Put(s.host.maps[m], 0, s.regs[6] as int + 1)])
  {
    hide Run, Step, Put, Plus, Refuses, GetOr0, U64;
    var p := ROUND_ROBIN;
    var s4 := RoundRobinPrepares(e, s, budget);
    ExecMapCall(p, e, s4, 2, m);
    PutReduces(s.host.maps[m], 0, s.regs[6] as int + 1);
    t := Step(p, e, s4).s;
    Unroll(p, e, s4, budget - 4, t);
  }

  lemma PutReduces(m: MapState, key: u64, value: int)
    ensures Put(m, key, U64(value)) == Put(m, key, value)
  {
  }

  /** Instructions 10 to 13 return the counter modulo the backend count. */
  lemma RoundRobinReturns(e: Env, s: State, fields: seq<int>, budget: nat)
    requires 5 <= |fields| <= 16 && e.ctx == Pack(fields) && budget >= 4
    requires s.pc == 10 && s.regs[9] == CTX_BASE && U64(fields[4]) != 0
    ensures var r := Run(ROUND_ROBIN, e, s, budget);
            r.Returned? && r.s.host == s.host && r.r0 == s.regs[6] % U64(fields[4])
  {
    hide Run, Step, Pack;
    var p := ROUND_ROBIN;
    ExecLoadField(p, e, s, 2, 9, fields, 4);
    var s1 := With(s, 2, U64(fields[4]));
    Unroll(p, e, s, budget, s1);
    ExecMovReg(p, e, s1, 0, 6);
    var s2 := With(s1, 0, s.regs[6]);
    Unroll(p, e, s1, budget - 1, s2);
    ExecModReg(p, e, s2, 0, 2);
    var s3 := Step(p, e, s2).s;
    Unroll(p, e, s2, budget - 2, s3);
    UnrollExit(p, e, s3, budget - 3);
  }

  /** One run: returns the counter modulo the pool size, and stores the counter plus one (unless the map is full). */
  lemma RoundRobinRun(e: Env, host: Host, fields: seq<int>, budget: nat, m: nat)
    requires 5 <= |fields| <= 16 && e.ctx == Pack(fields) && budget >= 14 && U64(fields[4]) != 0
    requires |e.fds| > 0 && e.fds[0] == m < |host.maps|
    ensures var r := Run(ROUND_ROBIN, e, Start(host), budget);
            var c := GetOr0(host.maps[m], 0);
            && r.Returned? && r.r0 == c % U64(fields[4])
            && r.s.host == host.(maps := host.maps[m := Put(host.maps[m], 0, c + 1)])
  {
    hide Run, Step, Pack, Start, GetOr0, Put, U64;
    var t := RoundRobinReads(e, host, budget, m);
    var v := RoundRobinWrites(e, t, budget - 5, m);
    RoundRobinReturns(e, v, fields, budget - 10);
  }

  // Sticky hashing

  lemma HashAccepted()
    ensures Accepted(HASH)
  {
    assert forall k :: 0 <= k <= 3 ==> !IsSecond(HASH, k);
  }

  lemma HashRun(e: Env, host: Host, fields: seq<int>, budget: nat)
    requires 5 <= |fields| <= 16 && e.ctx == Pack(fields) && budget >= 4 && U64(fields[4]) != 0
    ensures var r := Run(HASH, e, Start(host), budget);
            r.Returned? && r.s.host == host && r.r0 == U64(fields[3]) % U64(fields[4])
  {
    hide Run, Step, Pack;
    var p := HASH;
    var s := Start(host);
    ExecLoadField(p, e, s, 0, 1, fields, 3);
    var s1 := With(s, 0, U64(fields[3]));
    Unroll(p, e, s, budget, s1);
    ExecLoadField(p, e, s1, 2, 1, fields, 4);
    var s2 := With(s1, 2, U64(fields[4]));
    Unroll(p, e, s1, budget - 1, s2);
    ExecModReg(p, e, s2, 0, 2);
    var s3 := Step(p, e, s2).s;
    Unroll(p, e, s2, budget - 2, s3);
    UnrollExit(p, e, s3, budget - 3);
  }

  // The run counter

  lemma CounterAccepted()
    ensures Accepted(COUNTER)
  {
    assert forall k :: 0 <= k <= 5 ==> !IsSecond(COUNTER, k);
  }

  /** Adds one to key 0 of its map and allows. */
  lemma CounterRun(e: Env, host: Host, budget: nat, m: nat)
    requires budget >= 6 && |e.fds| > 0 && e.fds[0] == m < |host.maps|
    ensures var r := Run(COUNTER, e, Start(host), budget);
            r.Returned? && r.r0 == 0 && r.s.host == host.(maps := host.maps[m := Plus(host.maps[m], 0, 1)])
  {
    hide Run, Step, Put, Plus, Refuses, GetOr0;
    var p := COUNTER;
    var s := Start(host);
    ExecMovImm(p, e, s, 1, 0);
    var s1 := With(s, 1, 0);
    Unroll(p, e, s, budget, s1);
    ExecMovImm(p, e, s1, 2, 0);
    var s2 := With(s1, 2, 0);
    Unroll(p, e, s1, budget - 1, s2);
    ExecMovImm(p, e, s2, 3, 1);
    var s3 := With(s2, 3, 1);
    Unroll(p, e, s2, budget - 2, s3);
    ExecMapCall(p, e, s3, 3, m);
    var s4 := Step(p, e, s3).s;
    Unroll(p, e, s3, budget - 3, s4);
    ExecMovImm(p, e, s4, 0, 0);
    var s5 := With(s4, 0, 0);
    Unroll(p, e, s4, budget - 4, s5);
    UnrollExit(p, e, s5, budget - 5);
  }

  // The shortest refusal

  /** Returns 1 whatever it is shown. */
  const REFUSER: seq<Insn> := [Insn(0xb7, 0, 0, 0, 1), Insn(EXIT, 0, 0, 0, 0)]

  lemma RefuserRun(e: Env, host: Host, budget: nat)
    requires budget >= 2
    ensures Accepted(REFUSER)
    ensures Run(REFUSER, e, Start(host), budget) == Returned(1, With(Start(host), 0, 1))
  {
    hide Run, Step;
    var p := REFUSER;
    assert !IsSecond(p, 0) && !IsSecond(p, 1);
    var s := Start(host);
    ExecMovImm(p, e, s, 0, 1);
    Unroll(p, e, s, budget, With(s, 0, 1));
    UnrollExit(p, e, With(s, 0, 1), budget - 1);
  }

  // 64-bit immediates

  /** `lddw d, v` leaves v modulo 2^64 in d, for every integer v. */
  lemma LddwLoads(p: seq<Insn>, e: Env, s: State, d: nat, v: int)
    requires d <= 9 && 0 <= s.pc && s.pc + 2 <= |p|
    requires p[s.pc..s.pc + 2] == Slots(Lddw(d, v))
    ensures Step(p, e, s) == Next(s.(regs := s.regs[d := U64(v)], pc := s.pc + 2))
  {
    hide Step, Slots, Lddw, U64, Wrap32, BigOr, Shl, Word;
    var u := U64(v);
    LddwSlots(d, v);
    assert p[s.pc] == p[s.pc..s.pc + 2][0] && p[s.pc + 1] == p[s.pc..s.pc + 2][1];
    LddwStep(p, e, s, Insn(0x18, d, 0, 0, Wrap32(u % TWO32)), Insn(0x00, 0, 0, 0, Wrap32(u / TWO32)));
    Joined(u);
  }

  lemma LddwSlots(d: nat, v: int)
    requires d <= 9
    ensures |Lddw(d, v)| % 8 == 0
    ensures Slots(Lddw(d, v))
         == [Insn(0x18, d, 0, 0, Wrap32(U64(v) % TWO32)), Insn(0x00, 0, 0, 0, Wrap32(U64(v) / TWO32))]
  {
    hide Slots, EncodeSlot, Wrap32;
    var first, second := Insn(0x18, d, 0, 0, Wrap32(U64(v) % TWO32)), Insn(0x00, 0, 0, 0, Wrap32(U64(v) / TWO32));
    SlotsOfOne(first);
    SlotsOfOne(second);
    SlotsAppend(EncodeSlot(first), EncodeSlot(second));
  }

  lemma LddwStep(p: seq<Insn>, e: Env, s: State, first: Insn, second: Insn)
    requires 0 <= s.pc && s.pc + 2 <= |p| && p[s.pc] == first && p[s.pc + 1] == second
    requires first.opcode == LDDW && first.dst <= 9
    ensures Step(p, e, s)
         == Next(s.(regs := s.regs[first.dst := Word(64, BigOr(first.imm % TWO32, Shl(second.imm % TWO32, 32)))],
                    pc := s.pc + 2))
  {
    hide Step;
    Dispatch(p, e, s, first);
  }

  lemma Joined(u: u64)
    ensures Word(64, BigOr(Wrap32(u % TWO32) % TWO32, Shl(Wrap32(u / TWO32) % TWO32, 32))) == u
  {
    hide Pow2, BigOr, Shl;
    var lo, hi := u % TWO32, u / TWO32;
    Pow2Values();
    HalfWraps(lo);
    HalfWraps(hi);
    OrOfDisjoint(32, lo, hi);
    ShlIsProduct(hi, 32);
  }

  lemma HalfWraps(x: int)
    requires 0 <= x < TWO32
    ensures Wrap32(x) % TWO32 == x
  {
  }
}
