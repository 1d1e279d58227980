/** The built-in programs run everywhere alike: they use only what the RFC defines, and terminate by their shape. */
module BuiltIns {
  import opened Codec
  import opened Verifier
  import opened Machine
  import opened Safety
  import opened Addresses
  import opened Ports
  import PythonVm
  import opened Isa
  import opened Refinement
  import opened Conformance
  import opened Programs
  import opened ProgramRuns

  ghost predicate BuiltIn(p: seq<Insn>) {
    p == DENY || p == ROUND_ROBIN || p == HASH || p == COUNTER
  }

  lemma Conform(p: seq<Insn>)
    requires BuiltIn(p)
    ensures Accepted(p) && Conformant(p) && ForwardOnly(p)
  {
    hide Conformant, ForwardOnly, Accepted, ListedForward;
    DenyAccepted();
    RoundRobinAccepted();
    HashAccepted();
    CounterAccepted();
    BuiltInsAreListed(p);
    ConformantIfListed(p);
  }

  /** Listed instructions whose ignored fields are zero, with offsets that never point back. */
  ghost predicate ListedForward(p: seq<Insn>) {
    forall at :: 0 <= at < |p| ==> Read(p, at).Some? && Ordinary(p[at]) && p[at].off >= 0
  }

  /** The eight opcodes the programs are made of. */
  predicate Simple(i: Insn) {
    && i.opcode in {0xb7, 0xbf, 0x07, 0x9f, 0x79, 0x15, 0x85, 0x95}
    && i.dst <= 10 && i.src <= 10 && i.off >= 0
    && (i.opcode in {0xb7, 0xbf, 0x07, 0x9f} ==> i.off == 0)
    && (i.opcode == 0x85 ==> i.src == 0)
  }

  lemma SimpleIsListed(p: seq<Insn>, at: nat)
    requires at < |p| && Simple(p[at])
    ensures Read(p, at).Some? && Ordinary(p[at])
  {
  }

  ghost predicate AllSimple(p: seq<Insn>) {
    forall at :: 0 <= at < |p| ==> Simple(p[at])
  }

  lemma BuiltInsAreSimple(p: seq<Insn>)
    requires BuiltIn(p)
    ensures AllSimple(p)
  {
    assert AllSimple(DENY);
    assert AllSimple(ROUND_ROBIN);
    assert AllSimple(HASH);
    assert AllSimple(COUNTER);
  }

  lemma BuiltInsAreListed(p: seq<Insn>)
    requires BuiltIn(p)
    ensures ListedForward(p)
  {
    hide Read, Ordinary, BuiltIn;
    BuiltInsAreSimple(p);
    forall at | 0 <= at < |p|
      ensures Read(p, at).Some? && Ordinary(p[at])
    {
      SimpleIsListed(p, at);
    }
  }

  lemma ConformantIfListed(p: seq<Insn>)
    requires Accepted(p) && ListedForward(p)
    ensures Conformant(p) && ForwardOnly(p)
  {
    hide Accepted, Ordinary, Read;
  }

  /**
   * In either interpreter, under any budget of at least their length, they do what the RFC's machine does, and they
   * return or abort for a reason other than the budget.
   */
  lemma RunAlike(p: seq<Insn>, e: Env, host: Host, budget: nat)
    requires BuiltIn(p) && CtxFits(e) && budget >= |p|
    ensures var r := Run(p, e, Start(host), budget);
            && RepResult(r) == IsaRun(p, e, Rep(Start(host)), budget)
            && r == PythonVm.PythonRun(p, e, Start(host), 0, budget)
            && (r.Aborted? ==> r.why != BudgetExceeded)
  {
    hide Run, IsaRun, PythonVm.PythonRun, Rep, Accepted, Conformant, ForwardOnly, BuiltIn;
    Conform(p);
    StartIsGood(p, host);
    RunRefines(p, e, Start(host), budget);
    PortsAgree(p, e, Start(host), 0, budget);
    ForwardTerminates(p, e, Start(host), budget);
    RunIsSafe(p, e, Start(host), budget);
  }
}
