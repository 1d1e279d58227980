/**
 * Programs that read one field of their context: a gate that returns whether the field exceeds a limit, a counter keyed
 * by the field, and one that returns the field. Through them each host's context layout is seen.
 */
module Readers {
  import opened Codec
  import opened Verifier
  import opened Maps
  import opened Machine
  import opened ProgramRuns

  /** `ldxdw r2, [r1 + 8k]; mov r0, 0; jle r2, limit, +1; mov r0, 1; exit` */
  function Gate(k: nat, limit: nat): seq<Insn>
    requires k <= 4095 && limit < 0x8000_0000
  {
    [Insn(0x79, 2, 1, 8 * k, 0), Insn(0xb7, 0, 0, 0, 0), Insn(0xb5, 2, 0, 1, limit), Insn(0xb7, 0, 0, 0, 1),
     Insn(EXIT, 0, 0, 0, 0)]
  }

  /** `ldxdw r2, [r1 + 8k]; mov r1, fd; mov r3, 1; call 3; mov r0, 0; exit` */
  function Keyed(k: nat, fd: nat): seq<Insn>
    requires k <= 4095 && fd < 0x8000_0000
  {
    [Insn(0x79, 2, 1, 8 * k, 0), Insn(0xb7, 1, 0, 0, fd), Insn(0xb7, 3, 0, 0, 1), Insn(0x85, 0, 0, 0, 3),
     Insn(0xb7, 0, 0, 0, 0), Insn(EXIT, 0, 0, 0, 0)]
  }

  /** `ldxdw r0, [r1 + 8k]; exit` */
  function Returning(k: nat): seq<Insn>
    requires k <= 4095
  {
    [Insn(0x79, 0, 1, 8 * k, 0), Insn(EXIT, 0, 0, 0, 0)]
  }

  lemma GateAccepted(k: nat, limit: nat)
    requires k <= 4095 && limit < 0x8000_0000
    ensures Accepted(Gate(k, limit))
  {
    var p := Gate(k, limit);
    assert forall at :: 0 <= at <= 4 ==> !IsSecond(p, at);
  }

  lemma KeyedAccepted(k: nat, fd: nat)
    requires k <= 4095 && fd < 0x8000_0000
    ensures Accepted(Keyed(k, fd))
  {
    var p := Keyed(k, fd);
    assert forall at :: 0 <= at <= 5 ==> !IsSecond(p, at);
  }

  lemma ReturningAccepted(k: nat)
    requires k <= 4095
    ensures Accepted(Returning(k))
  {
    var p := Returning(k);
    assert !IsSecond(p, 0) && !IsSecond(p, 1);
  }

  /** Nonzero exactly when the field exceeds the limit; the host is not touched. */
  lemma GateRun(k: nat, limit: nat, e: Env, host: Host, fields: seq<int>, budget: nat)
    requires k < |fields| <= 16 && limit < 0x8000_0000 && e.ctx == Pack(fields) && budget >= 5
    ensures var r := Run(Gate(k, limit), e, Start(host), budget);
            r.Returned? && r.s.host == host && r.r0 == if U64(fields[k]) > limit then 1 else 0
  {
    hide Run, Step, Pack;
    var p, s := Gate(k, limit), Start(host);
    ExecLoadField(p, e, s, 2, 1, fields, k);
    var s1 := With(s, 2, U64(fields[k]));
    Unroll(p, e, s, budget, s1);
    ExecMovImm(p, e, s1, 0, 0);
    var s2 := With(s1, 0, 0);
    Unroll(p, e, s1, budget - 1, s2);
    ExecJleImm(p, e, s2, 2, limit, 1);
    if U64(fields[k]) <= limit {
      var s4 := s2.(pc := 4);
      Unroll(p, e, s2, budget - 2, s4);
      UnrollExit(p, e, s4, budget - 3);
    } else {
      var s3 := s2.(pc := 3);
      Unroll(p, e, s2, budget - 2, s3);
      ExecMovImm(p, e, s3, 0, 1);
      Unroll(p, e, s3, budget - 3, With(s3, 0, 1));
      UnrollExit(p, e, With(s3, 0, 1), budget - 4);
    }
  }

  /** Adds one to the map at its fd, at the field's value, and returns 0. */
  lemma KeyedRun(k: nat, fd: nat, e: Env, host: Host, fields: seq<int>, budget: nat, m: nat)
    requires k < |fields| <= 16 && e.ctx == Pack(fields) && budget >= 6
    requires fd < 0x8000_0000 && fd < |e.fds| && e.fds[fd] == m < |host.maps|
    ensures var r := Run(Keyed(k, fd), e, Start(host), budget);
            && r.Returned? && r.r0 == 0
            && r.s.host == host.(maps := host.maps[m := Plus(host.maps[m], U64(fields[k]), 1)])
  {
    hide Run, Step, Pack, Put, Plus, Refuses, GetOr0, U64;
    var p, s := Keyed(k, fd), Start(host);
    ExecLoadField(p, e, s, 2, 1, fields, k);
    var s1 := With(s, 2, U64(fields[k]));
    Unroll(p, e, s, budget, s1);
    ExecMovImm(p, e, s1, 1, fd);
    var s2 := With(s1, 1, fd);
    Unroll(p, e, s1, budget - 1, s2);
    ExecMovImm(p, e, s2, 3, 1);
    var s3 := With(s2, 3, 1);
    Unroll(p, e, s2, budget - 2, s3);
    ExecMapCall(p, e, s3, 3, m);
    var s4 := Step(p, e, s3).s;
    Unroll(p, e, s3, budget - 3, s4);
    ExecMovImm(p, e, s4, 0, 0);
    var s5 := With(s4, 0, 0);
    Unroll(p, e, s4, budget - 4, s5);
    UnrollExit(p, e, s5, budget - 5);
  }

  lemma ReturningRun(k: nat, e: Env, host: Host, fields: seq<int>, budget: nat)
    requires k < |fields| <= 16 && e.ctx == Pack(fields) && budget >= 2
    ensures var r := Run(Returning(k), e, Start(host), budget);
            r.Returned? && r.s.host == host && r.r0 == U64(fields[k])
  {
    hide Run, Step, Pack;
    var p, s := Returning(k), Start(host);
    ExecLoadField(p, e, s, 0, 1, fields, k);
    var t := With(s, 0, U64(fields[k]));
    Unroll(p, e, s, budget, t);
    UnrollExit(p, e, t, budget - 1);
  }
}
