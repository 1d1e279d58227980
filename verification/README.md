# Verified model of the Webkaya sandbox runtime

A Dafny model of the parts of the sandbox runtime whose behaviour is hard to see by reading: the userspace eBPF machine,
the programs and hosts built on it, and the protocols around guest execution. `dafny verify dfyconfig.toml` checks all
of it.

**The eBPF machine.** `Codec` is the byte format and the assembler, `Verifier` the static checks, `Machine` one step
and one run of the interpreter as total functions, `Maps` the bounded u64 maps. `Vm` is the interpreter in the source's
own form, a class with register and stack arrays and a loop, proved to compute `Machine.Run`. `Safety` proves what a
verified program can and cannot do. `Acceptance` says opcode by opcode what is verified, and `SmallPrograms` what a run
starts with and what each helper does, as programs of a few instructions see it.

Two other machines are compared with it. `PythonVm` is the Python interpreter, written after its own source with
masks, a tagged `resolve` and its own verifier; `Ports` proves that both accept the same programs and run them to the
same ends. `Isa` is RFC 9669 as a machine over bit vectors, from sections 4.1, 4.3, 5.1 and 5.4 (`BitVectors`:
sequences of bits with a ripple-carry adder, shift-and-add multiplication, long division and two's complement by the
sign bit's weight; the two machines have no arithmetic operation in common). `Refinement` proves instruction by
instruction that the interpreter does what the RFC says, and `Conformance` exactly of which instructions that is true.

**Programs and hosts.** `Programs` assembles the three built-in network programs and the run counter of the
repository's README; `ProgramRuns` follows them through the machine, instruction by instruction, to their verdicts;
`BuiltIns` shows they stay within the RFC and terminate by their shape. `Balancing`, `Fabric` and `Probes` are the load
balancer, the fabric and the probe registry as classes over the machine, so that fairness, denial and metering are
consequences of the bytecode; `Ingress` joins balancer and fabric into one history. `Readers` are programs that read one
field of their context: run by each host, they show its layout. `Firing` tells a firing from the runs of the attached
probes alone. `Hash` is the request hash in both languages.

**Protocols.** `Executor` is the worker executor under any interleaving of calls, replies, timers, failing posts and
dispose. `Blackboard` is agent phases under any order of completion. `MemoryTier` is the lazily expiring key/value
tier, keys in insertion order; `Lifetimes` says how long its entries live, and `EagerTier` compares it with a store
that expires at once. `Retries` holds the two retry loops and the boundary a worker stands behind, `PythonRuns` the
loop of the Python sandbox, `Policy` the normalisation of policies, and `Sandboxing` a sandbox with its run log,
probes, automatic snapshots and replay. `RunOutcomes` is what one run of it comes to, case by case, and `Tracepoints`
what programs see of it at each tracepoint. `Replays`, `Metering` and `Overlaps` are about histories of runs: when
replay reproduces them, what a run counter counts, and what happens when runs overlap; `FailingHistories` holds the
shortest histories in which they part, and `Widening` lets runs under changing probes share one store.

Classes follow one pattern: methods tie the new state to a specification function of the old one, and lemmas prove what
that function does over whole histories.

Where the code and a plain reading of its purpose differ, the model follows the code and a lemma says exactly where:

- a conditional jump or a store may name a destination above r10 and then aborts at run time; JA, CALL and EXIT do not
  look at theirs (`Safety.StepIsSafe`, `Safety.UncheckedDestination`);
- the offset of ALU instructions and the source field of CALL and lddw are ignored, so some of what RFC 9669 lists is
  done differently: signed divisions, unless their divisor is the dividend's register or the immediate 0 or 1;
  sign-extending moves, unless 32 bits of r10; local and BTF calls; symbolic immediates (`Conformance.AgreesExactly`);
- the stack is fully reachable only beside contexts of at most 2^28 bytes (`Safety.StackReachableExactly`);
- the fabric looks for the endpoint before it runs the policy, although its own comment says otherwise: a request to a
  missing endpoint is told so even where the policy would deny it (`Fabric.UnknownExactly`);
- round robin is fair over histories of any length only for pools whose size divides 2^64 (`Balancing.FairExactly`);
- `del` reports an expired entry as deleted, and an expired key that is set again keeps its old place in `keys`: lazy
  expiry shows by these two and nothing else (`EagerTier.LazyRefinesEager`, `EagerTier.RevivedKeyKeepsItsPlace`);
- a phase's board depends on the order of completion unless the write sets agree (`Blackboard.ConfluentExactly`);
- dispose drops the resolvers of running calls, which then end by their own timers (`Executor.StrandedCallsTimeOut`);
- inline retries continue on the state a failed attempt left, worker retries do not; what cannot be cloned never leaves
  the worker; and inline replaces what was thrown but is no error by a fixed text. So the two modes are alike for all
  guests that throw errors only, exactly without retries and where everything can be cloned
  (`Retries.ModesAgreeExactly`, `Retries.UncloneableStateDiffers`, `Retries.ThrownTextDiffers`);
- the Python sandbox takes its automatic snapshot inside the retry loop, so one that fails makes it run the guest again
  on the state it has just committed, with another record; retries are atomic there if and only if no due snapshot can
  fail (`PythonRuns.RetriesAreAtomicExactly`, `PythonRuns.FailedSnapshotRepeatsRun`). The TypeScript sandbox takes it
  after the loop, and throws (`Sandboxing.Sandbox.Run`);
- replay executes runs that a probe had refused, and tells results that a failed snapshot kept from the caller
  (`Replays.ReplayReproducesExactly`, `Replays.ToldExactly`; `FailingHistories.RefusedRunIsReplayed`,
  `FailingHistories.FailedSnapshotIsNotTold`);
- a veto by a probe attached under the empty name refuses nothing (`Replays.RefusedExactly`,
  `Replays.EmptyNameRefusesNothing`);
- a run whose state cannot be cloned fails before run:start although it passed the code scan, so a meter does not count
  it (`Metering.MeterCountsScannedExactly`, `FailingHistories.UncloneableIsNotCounted`);
- runs that overlap on one sandbox lose each other's states, and replay only if none finishes on a state another one may
  have replaced; a run above the memory budget replaces none, but is itself told differently in replay if the state has
  since become one that cannot be cloned (`Overlaps.LastSuccessWins`, `Overlaps.OverlapsReplayExactly`).

## Model

| member | source | states |
|---|---|---|
| `Words.LeValueOfBytes` | src/ebpf/vm.ts:204-223 | the little-endian bytes of any integer read back as that integer modulo 2^(8n) |
| `Words.LeBytesOfValue` | src/ebpf/vm.ts:204-223 | any n bytes are the little-endian bytes of the number they read as, which is below 2^(8n) |
| `Words.PutLe` | src/ebpf/vm.ts:214-223 | writing an n-byte value into a buffer replaces exactly those n bytes |
| `Codec.EncodeInsn` | src/ebpf/asm.ts:7-15 | the buffer filled by `insn` is the slot of the fields, each cut to its width |
| `Codec.SlotLayout` | src/ebpf/vm.ts:58-74 | byte by byte: opcode, dst in the low half of the second byte and src in the high one, offset and immediate signed with the low byte first |
| `Codec.DecodeAfterEncode` | src/ebpf/asm.ts:7-15 | decoding an encoded instruction gives it back, for all in-range fields |
| `Codec.EncodeAfterDecode` | src/ebpf/vm.ts:58-74 | encoding a decoded slot gives the same eight bytes, for all bytes |
| `Codec.DecodeProgram` | src/ebpf/vm.ts:58-74 | the decode loop is `Decode`: one instruction per slot, or the refusal of empty and misaligned input |
| `Codec.Assemble` | src/ebpf/asm.ts:59-68 | the running-offset copy loop yields the concatenation of its chunks |
| `Codec.DecodeOfAssembly` | src/ebpf/asm.ts:59-68 | decoding an assembly is the concatenation of what its chunks decode to |
| `Codec.DecodeAfterEncodeAll` | src/ebpf/asm.ts:7-15 | encoding any instruction list and decoding it gives the list back |
| `Codec.EncodeAllAfterDecode` | src/ebpf/vm.ts:58-74 | re-encoding a decoded program gives the same bytes |
| `Codec.DecodeInverts` | src/ebpf/vm.ts:58-74 | bytes decode to a non-empty list if and only if they are its encoding |
| `Verifier.MarkSecondSlots` | src/ebpf/vm.ts:139-148 | the pairing pass marks exactly the second slots of lddw pairs, or reports the first lddw without one |
| `Verifier.CheckAll` | src/ebpf/vm.ts:150-153 | the per-instruction loop finds no offence exactly when every first slot passes its check, else reports the first |
| `Verifier.VerifyInsns` | src/ebpf/vm.ts:133-160 | verification passes exactly the accepted programs, and a refusal names the first offence that explains it |
| `Verifier.VerifyProgram` | src/ebpf/vm.ts:133-160 | the same from bytes, undecodable input included |
| `Acceptance.PassesExactly` | src/ebpf/vm.ts:76-126 | the opcodes that pass, listed, and what each kind of them demands of the other fields |
| `Acceptance.RefusesFor` | src/ebpf/vm.ts:76-126 | for which offence each other instruction is refused |
| `Acceptance.AcceptsExactly` | src/ebpf/vm.ts:133-160 | 1 to 4096 slots, every instruction passes, a blank slot after every lddw, EXIT at the end: that and nothing else is accepted |
| `Acceptance.ReasonsInOrder` | src/ebpf/vm.ts:133-160 | a refusal names the first of: the size, the first lddw without its blank slot, the first instruction that does not pass, the end |
| `Maps.EbpfMap.Get` | src/ebpf/maps.ts:15-17 | the value at the key modulo 2^64, with whether there is one |
| `Maps.EbpfMap.Set` | src/ebpf/maps.ts:19-24 | stores modulo 2^64, unless the key is new and the map is full: then it is refused and nothing changes |
| `Maps.EbpfMap.Add` | src/ebpf/maps.ts:26-32 | adds modulo 2^64 to the value or to 0, with the same refusal |
| `Maps.EbpfMap.Delete` | src/ebpf/maps.ts:34-36 | removes the one key and reports whether it was there |
| `Maps.TallyCounts` | src/ebpf/maps.ts:26-32 | after any history of add-one calls, a key present holds its starting value plus its count in the history, modulo 2^64 |
| `Maps.FullStaysFull` | src/ebpf/maps.ts:19-32 | a full map turns away every new key over any history of additions |
| `Safety.StepIsSafe` | src/ebpf/vm.ts:251-347 | one step of an accepted program keeps pc on a first slot and r10 at the top of the stack, or ends by EXIT or a named abort with the state as it was; it aborts for a missing register if and only if a conditional jump or a store names a destination above r10 |
| `Safety.UncheckedDestination` | src/ebpf/vm.ts:76-126 | a concrete accepted program that aborts so in its first step |
| `Safety.ReachableIsGood` | src/ebpf/vm.ts:76-160 | that invariant holds of every state any number of steps reaches |
| `Safety.RunIsSafe` | src/ebpf/vm.ts:251-347 | a run of an accepted program ends by EXIT with r0 or by one of five named aborts, and by the budget exactly if all its steps were possible |
| `Safety.RunEndsWithin` | src/ebpf/vm.ts:251-256 | a run that ends otherwise than by its budget took fewer steps than it and ends as its last state's step says |
| `Safety.BudgetMonotone` | src/ebpf/vm.ts:251-256 | a run that ended within a budget is the same run, maps and trace included, under every larger one |
| `Safety.ForwardTerminates` | src/ebpf/vm.ts:32-34 | an accepted program without backward jumps ends within as many steps as instructions remain |
| `Safety.ForwardNeverExceedsDefault` | src/ebpf/vm.ts:175-181 | such a program never meets the default budget, and its length is budget enough |
| `Safety.StackIsLatestWrites` | src/ebpf/vm.ts:214-223 | after any number of steps each stack byte is what the latest store covering it wrote, across widths and overlaps |
| `Safety.StepWrites` | src/ebpf/vm.ts:340-345 | each step changes the stack by its own store only, and only in the bytes of that store |
| `Safety.LoadReads` | src/ebpf/vm.ts:204-223 | after any number of steps, each byte of a register loaded from the stack is what the latest store covering that byte wrote, and the bytes above the load's width are zero |
| `Safety.StackReachableExactly` | src/ebpf/vm.ts:192-202 | every stack byte can be stored to if and only if the context is at most 2^28 bytes long |
| `Safety.MapFrame` | src/ebpf/vm.ts:225-249 | a run touches only maps its fds name, never changes a capacity and never exceeds one |
| `SmallPrograms.ExitReturnsZero` | src/ebpf/vm.ts:184-190 | EXIT alone returns 0, whatever the host, the environment and the budget |
| `SmallPrograms.RegisterAtStart` | src/ebpf/vm.ts:184-190 | every register starts as 0, r1 and r10 as the addresses of the context and of the top of the stack |
| `SmallPrograms.ContextWord` | src/ebpf/vm.ts:192-212 | `ldxdw r0, [r1 + off]; exit` returns the context's bytes there, or aborts if they are not all inside |
| `SmallPrograms.StackWord` | src/ebpf/vm.ts:192-212 | `ldxdw r0, [r10 + off]; exit` returns 0 in the 512 bytes below r10, and aborts elsewhere unless a huge context reaches there |
| `SmallPrograms.ContextIsReadOnly` | src/ebpf/vm.ts:192-202 | a store into the context aborts for being one, outside it for being out of bounds |
| `SmallPrograms.StackKeeps` | src/ebpf/vm.ts:204-223 | what is stored on the stack is read back |
| `SmallPrograms.MapCallDoes` | src/ebpf/vm.ts:225-249 | what each map helper returns and does to the entries of its map, the full map included |
| `SmallPrograms.MapCallMisses` | src/ebpf/vm.ts:225-229 | it aborts on an fd beyond the maps given |
| `SmallPrograms.ClockReads` | src/ebpf/vm.ts:242-245 | helper 5 returns the next reading of the clock |
| `SmallPrograms.TraceAppends` | src/ebpf/vm.ts:239-241 | helper 4 traces r1 and returns 0 |
| `SmallPrograms.RegisterAcrossCall` | src/ebpf/vm.ts:291-297 | a call clears r1 to r5 and keeps r6 to r9 |
| `SmallPrograms.SpinRun` | src/ebpf/vm.ts:251-256 | a padded loop returns if and only if the budget is at least the steps it takes |
| `SmallPrograms.LoadAndRun` | src/ebpf/vm.ts:171-348 | all these of a machine loaded from bytes and run, the budget asked for, its default and its bounds included |
| `Addresses.AddressesAgree` | python/src/webkaya/ebpf.py:326-334 | wrapped and unwrapped effective addresses resolve alike |
| `Addresses.AddressesAgreeExactly` | python/src/webkaya/ebpf.py:195-203 | they do for all bases, offsets, sizes and modes if and only if the context ends 2^15 below 2^64 |
| `Ports.MaskIsResidue` | python/src/webkaya/ebpf.py:36-41 | masking with 2^k - 1 leaves the residue, of negative integers too |
| `Ports.SignedAgrees` | python/src/webkaya/ebpf.py:44-46 | testing the top bit and subtracting gives the signed number `BigInt.asIntN` gives |
| `Ports.DecodeProgram` | python/src/webkaya/ebpf.py:92-101 | the Python decoder, with its masks and signed unpacking, gives the instructions the TypeScript decoder gives |
| `Ports.ChecksAlike` | python/src/webkaya/ebpf.py:104-145 | the two per-instruction checks report the same error or none |
| `Ports.PairLddw` | python/src/webkaya/ebpf.py:153-160 | the while loop marks exactly the second slots, or reports the first lddw without one |
| `Ports.VerifyProgram` | python/src/webkaya/ebpf.py:148-169 | the Python verifier meets the TypeScript verifier's contract: it accepts exactly the accepted programs and explains refusals |
| `Ports.OneReason` | python/src/webkaya/ebpf.py:148-169 | that contract determines the error, so both refuse a program for the same reason |
| `Ports.AluAlike` | python/src/webkaya/ebpf.py:245-320 | both chains of cases compute the same ALU results and branch decisions on all operands |
| `Ports.HelpersAlike` | python/src/webkaya/ebpf.py:215-233 | the helpers give the same register value, maps, trace and clock readings, or fail alike |
| `Ports.StoredAlike` | python/src/webkaya/ebpf.py:210-213 | truncating before `to_bytes` stores the same bytes |
| `Ports.StepsAgree` | python/src/webkaya/ebpf.py:237-334 | on every first slot of an accepted program, from every state, both take the same step |
| `Ports.NegativeCounterDiffers` | python/src/webkaya/ebpf.py:241 | off the program they need not: a negative index counts from the end of a Python list |
| `Ports.PortsAgree` | python/src/webkaya/ebpf.py:237-334 | the same r0, final maps and trace, or the same abort, for every accepted program, every good state and so every start, every clock and every budget |
| `Ports.StartsAlike` | python/src/webkaya/ebpf.py:183-193 | both ports start with the same registers and stack and clamp budgets alike |
| `Ports.RunsAlike` | python/src/webkaya/ebpf.py:183-334 | so from their own starts and under their own budgets every accepted program ends alike in both |
| `BitVectors.AddMeaning` | src/ebpf/vm.ts:271 | the ripple-carry adder adds modulo 2^w |
| `BitVectors.MultiplyMeaning` | src/ebpf/vm.ts:273 | shift-and-add multiplies modulo 2^w |
| `BitVectors.DivideMeaning` | src/ebpf/vm.ts:274 | long division from the top bit down yields quotient and remainder |
| `BitVectors.SignedDivideMeaning` | src/ebpf/vm.ts:274 | dividing magnitudes and fixing signs is division toward zero with the dividend's sign on the remainder |
| `BitVectors.TwosComplementOfBits` | src/ebpf/vm.ts:308-309 | the sign bit weighed negatively is the signed reading of the low w bits |
| `Refinement.AluRefines` | src/ebpf/vm.ts:266-285 | each of the thirteen ALU operations, both widths, division by zero and masked shifts included, is the RFC's operation on bit vectors |
| `Refinement.BranchRefines` | src/ebpf/vm.ts:304-324 | each of the eleven conditions is the RFC's test on bit vectors |
| `Refinement.LddwValue` | src/ebpf/vm.ts:327-333 | a wide immediate is its two halves side by side, whatever their signs |
| `Refinement.FlatOfLe` | src/ebpf/vm.ts:204-223 | little-endian byte order lays a value's bits out in one line |
| `Refinement.StepRefines` | src/ebpf/vm.ts:251-347 | a step on an instruction the RFC lists, with the fields the interpreter ignores at zero, is the RFC's step |
| `Conformance.AgreesExactly` | src/ebpf/vm.ts:261-333 | of every accepted instruction that the RFC lists: its step is the RFC's in all good states and environments if and only if a test on its fields holds, which handles divisors 0, 1 and the dividend's own register, and r10 |
| `Conformance.OffsetStep` | src/ebpf/vm.ts:261-288 | on an instruction with an offset the interpreter and the RFC agree in a state exactly when plain and signed operation give the same word there |
| `Conformance.RunRefines` | src/ebpf/vm.ts:251-347 | whole runs of accepted programs whose instructions pass that test are runs of the RFC's machine |
| `Conformance.ChecksExactly` | src/ebpf/vm.ts:76-126 | of the listed encodings the verifier's check passes exactly those that do not write r10, jump to first slots and call known helpers |
| `Conformance.SignedDivisionIsNot` | src/ebpf/vm.ts:274 | a concrete accepted program: -6 divided by 2 is -3 on the RFC's machine and near 2^63 on the interpreter |
| `Vm.EbpfVm.Load` | src/ebpf/vm.ts:171-181 | a machine is made of exactly the byte strings that decode to accepted programs, with the clamped budget; for any other the first offence is named |
| `Vm.EbpfVm.Run` | src/ebpf/vm.ts:184-348 | the imperative run returns or throws what `Machine.Run` says, the map objects end with its maps even if two fds name one, and the context is untouched |
| `Vm.EbpfVm.Loop` | src/ebpf/vm.ts:251-347 | the loop over register and stack arrays follows the specification turn by turn to its end |
| `Vm.EbpfVm.Turn` | src/ebpf/vm.ts:257-347 | one pass of the loop body is one step |
| `Vm.EbpfVm.ExecuteAlu` | src/ebpf/vm.ts:261-288 | the ALU case writes one register |
| `Vm.EbpfVm.ExecuteJump` | src/ebpf/vm.ts:289-326 | the branch cases move pc, or fault on a register that does not exist |
| `Vm.EbpfVm.ExecuteLddw` | src/ebpf/vm.ts:327-333 | the wide load fills one register from two slots |
| `Vm.EbpfVm.ExecuteLoad` | src/ebpf/vm.ts:334-339 | the load case fills one register from context or stack, or faults and changes nothing |
| `Vm.EbpfVm.ExecuteStore` | src/ebpf/vm.ts:340-345 | the store cases write the stack, or fault and change nothing |
| `Vm.EbpfVm.ReadMemory` | src/ebpf/vm.ts:192-212 | which region an address is in, and the value there |
| `Vm.EbpfVm.WriteMemory` | src/ebpf/vm.ts:192-223 | the stack bytes stored, or the fault: the context is read-only |
| `Vm.EbpfVm.CallMap` | src/ebpf/vm.ts:225-239 | the three map helpers on the object behind an fd, seen through every fd that names it |
| `Vm.EbpfVm.CallHelper` | src/ebpf/vm.ts:231-249 | all five helpers: result, maps, trace and clock reading |
| `Vm.EbpfVm.ExecuteCall` | src/ebpf/vm.ts:291-297 | the helper's result goes to r0 and r1 to r5 are cleared |
| `ProgramRuns.LddwLoads` | src/ebpf/asm.ts:31-37 | executing an assembled `lddw(d, v)` leaves v modulo 2^64 in d, for every integer v |
| `ProgramRuns.FieldAt` | src/net/load-balancer.ts:112-119 | field k of a packed context reads back as its value modulo 2^64 |
| `Programs.DenyDecodes` | src/net/hooks.ts:23-33 | the bytes of the policy program decode to its listing |
| `Programs.RoundRobinDecodes` | src/net/hooks.ts:39-56 | the bytes of the round-robin program decode to its listing |
| `Programs.HashDecodes` | src/net/hooks.ts:62-69 | the bytes of the hash program decode to its listing |
| `Programs.CounterDecodes` | README.md:81-94 | the bytes of the run counter decode to its listing |
| `ProgramRuns.DenyVerdict` | src/net/hooks.ts:23-33 | the policy program returns 0 if either address is 0 and 1 otherwise, on every context, and touches no map |
| `ProgramRuns.RoundRobinRun` | src/net/hooks.ts:39-56 | the round-robin program returns the counter modulo the pool and leaves the counter one higher |
| `ProgramRuns.HashRun` | src/net/hooks.ts:62-69 | the hash program returns the request hash modulo the pool and touches no map |
| `ProgramRuns.CounterRun` | README.md:81-94 | the run counter adds one to key 0 of its map and returns 0 |
| `ProgramRuns.RefuserRun` | src/sandbox/probes.ts:84-96 | the shortest refusal, a program that returns 1 whatever it is shown |
| `Readers.GateRun` | tests/probes.test.ts:85-92 | a gate returns 1 if its field exceeds its limit, else 0 |
| `Readers.KeyedRun` | tests/probes.test.ts:42-52 | a keyed counter adds one at its field's value in the map at its fd |
| `BuiltIns.Conform` | src/net/hooks.ts:18-69 | all four programs are accepted, conform to the RFC and only jump forward |
| `BuiltIns.RunAlike` | src/net/hooks.ts:18-69 | in both interpreters they do what the RFC's machine does, and never end by the budget |
| `Hash.RoundsAgree` | src/net/load-balancer.ts:24-31 | one signed `Math.imul` round and one Python round leave the same residue modulo 2^32 |
| `Hash.KnownAnswers` | src/net/load-balancer.ts:24-31 | the hash of the empty text and of two code units is the known one |
| `Hash.Fnv1aTypeScript` | src/net/load-balancer.ts:24-31 | the signed 32-bit loop computes FNV-1a modulo 2^32 on every text of 16-bit units |
| `Hash.Fnv1aPython` | python/src/webkaya/net.py:135-140 | so does the masked loop, on every text of code points; on texts of the basic plane the two hash alike |
| `Balancing.LoadBalancer.Create` | src/net/load-balancer.ts:49-54 | with a program it is made exactly if that is accepted; by default it runs the round-robin program over one fresh counter map |
| `Balancing.LoadBalancer.AddBackend` | src/net/load-balancer.ts:56-58 | appends unless present, so backends stay distinct |
| `Balancing.LoadBalancer.RemoveBackend` | src/net/load-balancer.ts:60-63 | removes exactly that backend and keeps the order of the rest |
| `Balancing.LoadBalancer.SetProgram` | src/net/load-balancer.ts:70-72 | installs exactly the accepted programs, else keeps the old one; the bytes of the hash balancer make it sticky |
| `Balancing.LoadBalancer.SelectBackend` | src/net/load-balancer.ts:112-130 | the index is what the program's run on the packed fields selects, always within the pool, and the maps are the run's |
| `Balancing.LoadBalancer.Handle` | src/net/load-balancer.ts:84-107 | up to the hand-over to the fabric: routes first, then the empty pool, then the program; round robin decides by the counter and bumps it, the hash program sends equal hashes, given or computed, to equal in-range backends and never drops; a program that returns a field of its context selects by address, port, path hash, request hash or pool size, all ones drop, and one that crashes drops |
| `Balancing.ServedInTurn` | src/net/load-balancer.ts:84-110 | over any mix of requests from any counter, a non-static request goes to the backend whose number is the count of such requests before it, modulo 2^64, modulo the pool |
| `Balancing.ReceivedCounted` | src/net/load-balancer.ts:112-130 | exactly how many of a history's requests each backend receives, over any number of wraps of the counter |
| `Balancing.RoundRobinIsFair` | src/net/hooks.ts:35-56 | no two backends' shares of a history differ by more than one before the counter wraps |
| `Balancing.FairExactly` | src/net/hooks.ts:35-56 | they never do, over histories of any length, if and only if the size of the pool divides 2^64 |
| `Fabric.SandboxFabric.constructor` | src/net/fabric.ts:54-67 | a new fabric has no endpoints, no policy and two empty counters |
| `Fabric.SandboxFabric.Create` | src/net/fabric.ts:63-66 | with a policy program it is made exactly if that is accepted; the bytes of deny-east-west give a fabric under that policy |
| `Fabric.SandboxFabric.InstallPolicy` | src/net/fabric.ts:69-71 | a policy is installed if and only if it is an accepted program; the bytes of deny-east-west install that policy |
| `Fabric.SandboxFabric.JoinEndpoint` | src/net/fabric.ts:73-82 | hands out the next address |
| `Fabric.SandboxFabric.LeaveEndpoint` | src/net/fabric.ts:84-86 | removes the endpoint and reports whether there was one |
| `Fabric.SandboxFabric.RunPolicy` | src/net/fabric.ts:140-155 | the verdict is the program's run on the packed header; a program that throws denies |
| `Fabric.SandboxFabric.BeginRequest` | src/net/fabric.ts:102-122 | 404, 403 or a started handler, and a drop counted in the first two cases |
| `Fabric.SandboxFabric.CompleteRequest` | src/net/fabric.ts:124-138 | a delivery is counted when a started handler's run has ended well or badly, and not when it threw |
| `Fabric.CountersAreTallies` | src/net/fabric.ts:102-138 | over any interleaved history the two maps are the tallies of what was dropped and delivered |
| `Fabric.CountersAreExact` | src/net/fabric.ts:102-138 | per address: a counter is the exact count modulo 2^64, and an address without one was refused by a map of 1024 |
| `Fabric.Conservation` | src/net/fabric.ts:102-138 | over any interleaving, with at most 1024 addresses per counter: totals dropped and delivered, runs that threw and requests in flight add up to the requests made, modulo 2^64 |
| `Fabric.RequestsAccounted` | src/net/fabric.ts:102-138 | every request is dropped, delivered, thrown or still in flight, and only what started can end |
| `Fabric.AddressesStayDistinct` | src/net/fabric.ts:73-82 | over any history every endpoint's address is at least 1 and below the next one |
| `Fabric.DenyAnswers` | src/net/hooks.ts:18-33 | with the policy installed a request to a live endpoint passes if and only if it comes from the ingress address |
| `Fabric.NoEastWestTraffic` | src/net/hooks.ts:18-33 | while it stays installed no history starts a handler for a request between two nonzero addresses |
| `Fabric.EndpointsExactly` | src/net/fabric.ts:73-86 | over any history an address names an endpoint if and only if it was given to one that joined, the n-th getting n, and has not been left since |
| `Fabric.UnknownExactly` | src/net/fabric.ts:102-111 | so a request gets 404 if and only if nobody who joined still holds its address |
| `Fabric.GateAnswers` | src/net/fabric.ts:140-155 | under a gate on any field of the header, requests go through if and only if the field does not exceed the limit |
| `Fabric.CrashDenies` | src/net/fabric.ts:150-154 | a policy that crashes denies everything |
| `Fabric.MapPolicyDenies` | src/net/fabric.ts:149 | so does one that uses a map |
| `Fabric.SpinAnswers` | src/net/fabric.ts:69-71 | a policy runs under the default budget: one that would allow denies if it takes more than 100,000 steps |
| `Ingress.Handle` | src/net/load-balancer.ts:84-110 | the decision and the request it makes of the fabric, with the counter and the fabric's state after both |
| `Ingress.FabricsPart` | src/net/fabric.ts:102-128 | the fabric's part of any such history is a history of the fabric, to which its counters and conservation apply |
| `Ingress.ArrivalsAreServed` | src/net/load-balancer.ts:84-110 | under deny-east-west, at any point of any history: a request that no static route answers goes to the backend whose turn it is, and its handler starts if and only if that endpoint is there |
| `Ingress.NoneIsLost` | src/net/load-balancer.ts:84-110 | while the backends stay, the handlers started from outside are those of the balancer's turns, whatever else happens |
| `Ingress.HandlersStartFairly` | src/net/load-balancer.ts:84-110 | so handlers start in fair shares, short of the counter's wrap |
| `Ingress.GatedArrival` | src/net/load-balancer.ts:107-109 | what policies see of an arrival: ingress address, backend, source port, length, protocol 0 |
| `Probes.ProbeRegistry.Attach` | src/sandbox/probes.ts:40-59 | appends under an id no registry has used, exactly if the program is accepted; the bytes of the run counter over one map make a meter |
| `Probes.DefaultName` | src/sandbox/probes.ts:47-52 | a probe attached without a name is told as `probe-` and its id in decimal |
| `Probes.ProbeRegistry.Detach` | src/sandbox/probes.ts:61-66 | removes the one probe of that id and keeps the order of the rest |
| `Probes.ProbeRegistry.RunProbe` | src/sandbox/probes.ts:84-94 | one probe's outcome and its effect on every map, its own and others' |
| `Probes.ProbeRegistry.Fire` | src/sandbox/probes.ts:74-96 | the early-return loop over shared map objects is the fold over matching probes up to the first veto |
| `Firing.FireExactly` | src/sandbox/probes.ts:74-96 | told from the probes' runs, in the order of attachment: no veto if and only if none returns nonzero or aborts failing closed, and then all have run; else the name of the first that does, and those behind it have not run |
| `Firing.GateFires` | src/sandbox/probes.ts:74-96 | a lone gate vetoes if and only if its field exceeds its limit |
| `Firing.KeyedFires` | src/sandbox/probes.ts:74-96 | a lone keyed counter adds one in the map at its fd and touches no other map |
| `Firing.CrashFires` | src/sandbox/probes.ts:91-94 | a lone probe that crashes vetoes if and only if it fails closed |
| `Probes.StopsAtFirstVeto` | src/sandbox/probes.ts:74-96 | a veto leaves the maps as though the probes behind the vetoing one were not attached, and those before it did not veto |
| `Probes.FireNamesFirstVeto` | src/sandbox/probes.ts:74-96 | what firing returns is the name of the first probe whose run returns nonzero, or fails closed, those before it having run |
| `Probes.FireFrame` | src/sandbox/probes.ts:74-96 | firing leaves alone every map no fired probe was given |
| `Probes.MeterAddsOne` | README.md:81-94 | the counting probe adds one to its map and lets the run pass, whatever the context |
| `Probes.MeterCounts` | src/sandbox/probes.ts:74-96 | attached first, it counts each firing once whatever the probes behind it do |
| `Executor.WorkerExecutor.Begin` | src/sandbox/executor.ts:117-162 | takes the next id, makes a transport if there is none, arms the timer and registers the resolver, or rejects |
| `Executor.WorkerExecutor.AfterPost` | src/sandbox/executor.ts:164-177 | a post that threw settles its call, if nothing has |
| `Executor.WorkerExecutor.OnResult` | src/sandbox/executor.ts:101-115 | a reply settles the pending call of its id and is dropped if there is none |
| `Executor.WorkerExecutor.HardReset` | src/sandbox/executor.ts:181-188 | answers every pending call with the termination and forgets the transport |
| `Executor.WorkerExecutor.OnTimer` | src/sandbox/executor.ts:137-148 | a timer settles its call, then terminates the worker and everyone waiting on it |
| `Executor.WorkerExecutor.DisposeExecutor` | src/sandbox/executor.ts:190-194 | forgets transport and resolvers and settles nobody |
| `Executor.EventKeepsConsistent` | src/sandbox/executor.ts:91-195 | every event keeps: a call is settled or its timer is armed and not overdue, resolvers belong to unsettled calls, ids are never reused |
| `Executor.SettlesAtMostOnce` | src/sandbox/executor.ts:121-135 | over any further history an outcome, once there, stays |
| `Executor.SettlesByHardLimit` | src/sandbox/executor.ts:137-148 | no history leaves a call unsettled beyond its start plus the hard limit |
| `Executor.SettlingHasCause` | src/sandbox/executor.ts:101-188 | the one event in the one state that can settle a call with each kind of outcome |
| `Executor.SettlesExactly` | src/sandbox/executor.ts:101-188 | an event leaves an unsettled call with an outcome if and only if it causes that outcome |
| `Executor.FirstCauseIsOutcome` | src/sandbox/executor.ts:101-188 | over any history the outcome of a call is that of its first cause |
| `Executor.CallComesTo` | src/sandbox/executor.ts:117-178 | a call is rejected at once without a transport, and else comes to what the first event that concerns it says: its reply, its failed post, its own timer, another's timer; told from the sequence of events alone |
| `Executor.ReplySettles` | src/sandbox/executor.ts:101-115 | a reply before any timer, dispose or failed post is the outcome |
| `Executor.TimesOutExactly` | src/sandbox/executor.ts:130-148 | a timer ends its call max(100, timeout) + 1000 after the call's start, not before |
| `Executor.LiveExactly` | src/sandbox/executor.ts:181-194 | a transport exists if and only if one was made after the last reset and the last dispose |
| `Executor.OutcomesHaveCauses` | src/sandbox/executor.ts:101-188 | every outcome in a history has that cause in the history: a reply settles only the call that posted its id |
| `Executor.StrandedCallsTimeOut` | src/sandbox/executor.ts:190-194 | a call whose resolver dispose dropped ends by its own timer or its own failed post only |
| `Executor.ExactlyOnce` | src/sandbox/executor.ts:91-195 | of everything that may ever happen to a new executor: outcomes never change, each has its cause, stranded calls time out, and nobody waits beyond the hard limit |
| `Blackboard.Orchestrator.Snapshot` | src/orchestration/blackboard.ts:83-93 | a key is shown if and only if it is asked for by name, or is on the board and a glob asked for matches it; with its value, null if there is none |
| `Blackboard.Orchestrator.ApplyWrites` | src/orchestration/blackboard.ts:120-126 | the write loop overlays the board with the write set |
| `Blackboard.Orchestrator.BeginPhase` | src/orchestration/blackboard.ts:138-143 | every agent is shown exactly that of the board before the phase |
| `Blackboard.Orchestrator.RunPhase` | src/orchestration/blackboard.ts:138-143 | under every order of completion the result list is the same, each agent by its name with what its guest made of its reading; a key holds what the last successful agent to finish that writes it wrote, and any other key what it held |
| `Blackboard.OnlyWhatIsAskedFor` | src/orchestration/blackboard.ts:83-93 | isolation: boards that agree on every key an agent asks for show it the same, and so come to the same run |
| `Blackboard.SettledAt` | src/orchestration/blackboard.ts:96-135 | after any order an unwritten key is unchanged and a written one holds what some agent wrote |
| `Blackboard.AgreementIsConfluent` | src/orchestration/blackboard.ts:138-143 | write sets that agree where they overlap leave one board under all orders |
| `Blackboard.ConfluentExactly` | src/orchestration/blackboard.ts:138-143 | the board is independent of the order if and only if the write sets agree pairwise |
| `Blackboard.PhasesAreConfluent` | src/orchestration/blackboard.ts:138-143 | then whole sequences of phases end on one board however each was interleaved |
| `MemoryTier.Tier.Live` | src/memory/tiered-memory.ts:40-48 | an expired entry is deleted on sight, any other is returned |
| `MemoryTier.Tier.Get` | src/memory/tiered-memory.ts:50-52 | the value of a living entry, an expired one being deleted |
| `MemoryTier.Tier.Set` | src/memory/tiered-memory.ts:54-60 | replaces value and expiry, a missing or non-positive ttl meaning none; a stored key keeps its place, expired or not |
| `MemoryTier.Tier.Del` | src/memory/tiered-memory.ts:62-64 | removes the key and reports whether it was stored, expired or not |
| `MemoryTier.Tier.Incr` | src/memory/tiered-memory.ts:66-75 | counts on from the living value or 0, refuses what is not an integer, keeps the expiry |
| `MemoryTier.Tier.Expire` | src/memory/tiered-memory.ts:77-82 | sets a new expiry on a living entry only |
| `MemoryTier.Tier.Ttl` | src/memory/tiered-memory.ts:84-89 | -2, -1 or the time left |
| `MemoryTier.Tier.Keys` | src/memory/tiered-memory.ts:91-98 | the loop that deletes while it collects returns the living matches in insertion order and leaves the living entries |
| `MemoryTier.Tier.Flush` | src/memory/tiered-memory.ts:100-102 | nothing is left |
| `MemoryTier.TtlMatchesGet` | src/memory/tiered-memory.ts:84-89 | ttl is -2 if and only if get is null, which is exactly for keys not alive |
| `MemoryTier.IncrKeepsExpiry` | src/memory/tiered-memory.ts:66-75 | incr keeps a living entry's expiry and gives a new entry none |
| `Lifetimes.SetLivesExactly` | src/memory/tiered-memory.ts:54-60 | whatever happens to other keys, a key that was set is found until the ttl asked for has passed and no longer, or for good, and ttl tells what is left |
| `Lifetimes.ExpireLivesExactly` | src/memory/tiered-memory.ts:77-82 | the same of a living key given a new lifetime |
| `Lifetimes.IncrLivesExactly` | src/memory/tiered-memory.ts:66-75 | a living number counted up is found as the sum, as long as it would have lived |
| `Lifetimes.DeletedIsGone` | src/memory/tiered-memory.ts:62-64 | what was deleted or flushed is not found again |
| `EagerTier.LazyStepIsEager` | src/memory/tiered-memory.ts:40-102 | one request on the lazy and on the eager store: same living entries after it, and the same answer if and only if it is neither a `del` of an expired entry nor a `keys` whose living matches stand against the order in which they came to life |
| `EagerTier.LazyRefinesEager` | src/memory/tiered-memory.ts:40-102 | over any session under a clock that does not run back, request by request, the answers are equal if and only if it is neither of these |
| `EagerTier.SetInPlaceExactly` | src/memory/tiered-memory.ts:54-60 | setting a key and sweeping commute, order included, if and only if no expired entry is overwritten that has a living one behind it |
| `EagerTier.QuietSessionsAgree` | src/memory/tiered-memory.ts:40-102 | sessions without such a set and such a delete get the same answers throughout |
| `EagerTier.RevivedKeyKeepsItsPlace` | src/memory/tiered-memory.ts:91-98 | a concrete session of four requests: the revived key is listed first where an eager store lists it last |
| `Retries.ExecuteInline` | src/sandbox/executor.ts:62-79 | the inline loop computes its recursive specification |
| `Retries.InlineIsAChain` | src/runtime/guest-invoker.ts:61-88 | which is: at most retryCount + 1 attempts, each on the state the one before it left; the first to return decides the value, the last allowed one the error; logs are those of all attempts in order |
| `Retries.RunGuestRequest` | src/runtime/worker/worker-core.ts:59-96 | scan and budget are checked again, a state that cannot be cloned throws, and the loop starts each attempt from the original state |
| `Retries.RetriesAreAtomic` | src/runtime/worker/worker-core.ts:59-96 | success is the first returning attempt's value and state, computed from the original state alone; failure returns the original state; logs are those of all attempts in order |
| `Retries.ExecuteInWorker` | src/sandbox/executor.ts:117-178 | a call through the boundary: a request that cannot be cloned is refused; a reply that cannot be never comes, and the call ends at its hard limit without logs; any other reply is the worker loop's |
| `Retries.ModesAlikeExactly` | src/runtime/guest-invoker.ts:61-88 | per guest, under any number of retries: if the first attempt returns, the two modes give the same value, error, logs and committed state if and only if cloning gives value and state back; if it throws, if and only if the inline chain fails throughout with that text and those logs |
| `Retries.OneAttemptAlikeExactly` | src/runtime/worker/transport.ts:33-55 | without retries: if and only if cloning gives the attempt's value and state back, or what it throws is an error or reads as the fixed text |
| `Retries.UnpostableAlikeExactly` | src/sandbox/executor.ts:164-177 | on arguments or a state that cannot be cloned: if and only if the guest fails with the words of the refusal and logs nothing |
| `Retries.ModesDifferOnRetry` | src/sandbox/executor.ts:62-79 | a guest that succeeds inline and fails in the worker for every number of retries from one upwards |
| `Retries.ModesAgreeExactly` | src/sandbox/executor.ts:62-79 | the two modes are alike for all guests that throw errors only, all arguments and states, if and only if there are no retries and cloning gives everything back |
| `Retries.UncloneableStateDiffers` | src/runtime/worker/transport.ts:40-55 | without a retry: a guest that leaves an uncloneable state succeeds inline and ends at the hard limit in the worker |
| `Retries.ThrownTextDiffers` | src/runtime/guest-invoker.ts:87 | without a retry: thrown text that is no error is told by the worker and replaced inline |
| `PythonRuns.Sandbox.Run` | python/src/webkaya/sandbox.py:178-244 | the loop with commit, record and snapshot inside its try block gives the result, state and log of its specification |
| `PythonRuns.UnreachedRuns` | python/src/webkaya/sandbox.py:203-219 | a run whose guest is not reached is told why, adds one failed record and leaves the state |
| `PythonRuns.RunIsAtomicExactly` | python/src/webkaya/sandbox.py:228-244 | per guest: one record, and the effect of the deciding attempt on the original state, or on failure none, if and only if that attempt does not meet a due snapshot that fails |
| `PythonRuns.RetriesAreAtomicExactly` | python/src/webkaya/sandbox.py:228-244 | that holds for all guests if and only if no snapshot due after the run can fail, by saving or by copying |
| `PythonRuns.FailedSnapshotRepeatsRun` | python/src/webkaya/sandbox.py:230-243 | a concrete first run: reported as failed, with the state moved on by every attempt and a record for each |
| `Policy.SanitizedStays` | src/runtime/policy.ts:46-53 | cleaning an entrypoint twice is cleaning it once |
| `Policy.NormalizeIsIdempotent` | src/runtime/policy.ts:55-66 | so is normalising a policy, also with the fields replay overrides |
| `Policy.NormalizedFields` | src/runtime/policy.ts:55-66 | every number becomes the nearest one in its range, the ranges being named |
| `Policy.WordStays` | src/runtime/policy.ts:46-53 | an entrypoint of letters, digits and underscores loses the blanks around it and nothing else |
| `Policy.BlankIsMain` | src/runtime/policy.ts:46-53 | a blank one becomes `main` |
| `Policy.BlanksJoin` | src/runtime/policy.ts:46-53 | blanks inside, however many, become one underscore |
| `Policy.OthersBecomeUnderscores` | src/runtime/policy.ts:46-53 | every other character becomes one |
| `Sandboxing.Sandbox.Create` | src/sandbox/sandbox.ts:125-160 | a sandbox is made exactly if its initial state can be cloned, with a normalised policy, an empty log and no probes |
| `Sandboxing.Sandbox.RunGuest` | src/sandbox/sandbox.ts:219-284 | scan, clone, run:start verdict, guest, log and end firings: result, state, run log and every probe map are the specification's |
| `Sandboxing.Sandbox.MaybeAutoSnapshot` | src/sandbox/sandbox.ts:383-388 | when a snapshot is due, when it throws, and what its firing does to every probe map |
| `Sandboxing.Sandbox.Run` | src/sandbox/sandbox.ts:219-293 | the two together: what the caller is told, a failed snapshot being a throw, and state, log and probe maps after it |
| `RunOutcomes.RunComesTo` | src/sandbox/sandbox.ts:252-293 | what a run comes to, in order: the scan's error, the clone's, a refusal by the first refusing probe if its name is not empty, the budget's error, or what the guest makes of the state in the attempts the policy allows |
| `RunOutcomes.RunIsRecorded` | src/sandbox/sandbox.ts:219-250 | one record with the request as it was, under the name asked for or the number of the run |
| `RunOutcomes.RunIsTold` | src/sandbox/sandbox.ts:285-291 | the result, unless a snapshot is due after a success and the state cannot be cloned or saved |
| `Tracepoints.GateRefusesExactly` | src/sandbox/probes.ts:12 | of the runs that start, a gate on any field of run:start refuses those whose index, code length, memory, arguments or time exceed its limit; the others come out as their guests do |
| `Tracepoints.CrashRefusesExactly` | src/sandbox/probes.ts:91-94 | a crashing probe refuses if and only if it fails closed |
| `Tracepoints.RunCountsEnd` | src/sandbox/probes.ts:13 | a counter keyed by a field of run:end adds one at the index, the success, the duration, the number of messages or the code length of the run |
| `Tracepoints.RunCountsMessages` | src/sandbox/probes.ts:15 | one at log adds one per message, at the run's index or the message's length |
| `Tracepoints.RunCountsSnapshot` | src/sandbox/probes.ts:14 | one at snapshot adds one if and only if a snapshot is taken, at the number of runs or the size of the state |
| `Tracepoints.OutcomesCounted` | tests/probes.test.ts:42-60 | over any history a counter keyed by success holds the successful runs at 1 and the failed ones at 0 |
| `Tracepoints.FiringsInOrder` | src/sandbox/sandbox.ts:271-292 | messages are fired before the end, the end before a snapshot, as counters racing for one place show |
| `Tracepoints.StartComesFirst` | src/sandbox/sandbox.ts:259-269 | and run:start before all of them |
| `Sandboxing.Sandbox.Replay` | src/sandbox/sandbox.ts:346-369 | the replay loop runs the log without probes or snapshots from the initial state, leaves the sandbox as it was, and throws exactly if the final state cannot be cloned |
| `Replays.RefusedExactly` | src/sandbox/sandbox.ts:259-269 | a run that starts is refused if and only if the first vetoing probe's name is not empty; any other run comes out as its guest does |
| `Replays.EmptyNameRefusesNothing` | src/sandbox/sandbox.ts:259-269 | a probe that always returns 1 refuses every run, except under the empty name, where every run goes ahead |
| `Replays.OneRunReplays` | src/sandbox/sandbox.ts:346-369 | one run and the run its record asks for give the same result if and only if no probe refused it or the guest fails with the refusal's words; and then the same state |
| `Replays.RunsReplayExactly` | src/sandbox/sandbox.ts:346-369 | the same over histories, run by run, under any probes |
| `Replays.ReplayReproducesExactly` | src/sandbox/sandbox.ts:340-369 | replay returns a new sandbox's results and state if and only if every refusal is echoed and the state can be cloned |
| `Replays.ToldExactly` | src/sandbox/sandbox.ts:285-291 | the callers were told all those results if and only if no automatic snapshot failed |
| `Replays.ReplayReproduces` | src/sandbox/sandbox.ts:340-369 | so without refusals and failures replay tells what the callers were told |
| `Metering.RunIsMetered` | src/sandbox/sandbox.ts:252-314 | a run adds one to the meter's key exactly if it reaches run:start; its other firings, a snapshot's included, leave the map alone |
| `Metering.RunsAreMetered` | README.md:81-94 | over any history, whatever other probes come and go behind the meter and whatever the cadence, key 0 counts those runs modulo 2^64 |
| `Metering.MeterCountsScannedExactly` | src/sandbox/sandbox.ts:252-258 | those are the runs that passed the code scan if and only if none of them met a state that could not be cloned |
| `Metering.MeteredRunsReplay` | README.md:81-94 | a meter on its own at run:start refuses nothing, so a metered sandbox replays |
| `Overlaps.LastSuccessWins` | src/sandbox/sandbox.ts:271-292 | over any schedule of overlapping runs the final state is the one the last successful finisher made of the state it began with |
| `Overlaps.SerialReplays` | src/sandbox/sandbox.ts:346-369 | a schedule in which no run finishes after another one, within the budget, finished since it began replays, whatever the guests |
| `Overlaps.OverlapsReplayExactly` | src/sandbox/sandbox.ts:346-369 | those are exactly the schedules that replay for all guests and hosts, requests above the budget among them |
| `Widening.RunWidens` | src/sandbox/sandbox.ts:219-293 | a run does the same on every larger store of maps, and leaves the other maps alone |
| `Widening.RunOnAllMaps` | src/sandbox/probes.ts:74-96 | so a run is the specification's on any set of maps around those its registry holds |
| `FailingHistories.FailedSnapshotIsNotTold` | src/sandbox/sandbox.ts:285-291 | one run whose snapshot fails: the caller gets a throw, replay gets the result |
| `FailingHistories.RefusedRunIsReplayed` | src/sandbox/sandbox.ts:346-369 | one run that a probe refuses: replay lets it succeed and moves the state |
| `FailingHistories.UncloneableIsNotCounted` | src/sandbox/sandbox.ts:252-258 | two runs that pass the scan, of which a meter counts one |

## Left out

Assumed of the environment, and so not proved:

- the clock of a program run and of a probe firing is an arbitrary function of the number of readings; the memory tier
  reads its clock once per operation;
- timers fire before anything later than their deadline happens, so `Executor.Tick` cannot pass an armed deadline;
- structured cloning, and `deepcopy` in Python, either fail or are functions of the value, and a clone of a clone equals
  it;
- guests are functions of state and arguments; one that goes on running after its timeout, or changes its arguments
  through a shared reference, is not modelled;
- map descriptors are below 2^53, so that `Number(fd)` is exact.

Not modelled:

- the Python interpreter's updates in place: its step, its run and its maps are functions on values in `PythonVm`, while
  its decoder and verifier are methods with loops; Python's range errors when packing values are not modelled;
- what RFC 9669 lists and the verifier refuses: byte swaps, atomics, sign-extending loads, JA in the 32-bit class; of
  local calls, BTF calls and symbolic immediates only that they are not what the interpreter does;
- the TypeScript `trace` callback: traced values are collected in order instead;
- `entries`, `clear` and `size` of maps; `addresses` and `endpointName` of the fabric; payload length estimation;
- the sandbox run behind a fabric request: `Fabric` takes its end as an event;
- worker messages other than results, and the transport itself;
- what a snapshot stores, restoring it, and fork; a sandbox after dispose;
- the code scan, glob matching and number formatting: arbitrary functions here;
- blackboard values that cannot be turned into JSON, the board's key order, and expiry on the board;
- floating-point increments and fractional lifetimes in the memory tier, and its per-sandbox local tiers;
- policy inputs that are not integers or strings; white space other than space, tab and line ends in entrypoints;
- worker-mode sandboxes as a class: `Retries.ExecuteInWorker` is one call of theirs, and `Retries.ModesAlikeExactly`
  says when it ends as an inline one;
- time in retries: a worker run whose attempts together outlast the hard limit ends there instead;
- the JSON fallback where there is no structured clone;
- the Python sandbox beyond `run`: its probes, which swallow their own errors, its replay and its forks; guests that end
  by what is not an `Exception`;
- overlapping runs with probes or snapshots: `Overlaps` leaves both out;
- bound memory tiers in replay, which the repository shares between a sandbox and its replay;
- language model providers, hardware and capability detection, storage back ends and the user interface.

Weaker than might be wished:

- Retries.ModesAgreeExactly: for guests on integer states; `Retries.ModesAlikeExactly` is for all states.
- Overlaps.OverlapsReplayExactly: for guests on integer states; `Overlaps.SerialReplays` is for all states.
