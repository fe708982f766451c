# Bus fabric, core arithmetic, pipeline and privileged simulator

This project models the concurrent and arithmetic parts of a small RISC-V system and proves what
they promise, over every input and every run:

- the memory-side bus fabric of the TCM build, one clock at a time: the AXI4 slave port of the TCM
  (`tcm_mem_pmem`), its arbiter (`tcm_mem`), the CPU-to-AXI bridge (`dport_axi`), the address mux
  (`dport_mux`), and their composition;
- the core's divider, multiplier, and issue, bypass, scoreboard and pipe control, read from the
  register updates of the compiled simulation;
- the instruction-set simulator's page walk, traps, interrupts and byte-addressed memory;
- the testbench's AXI4 memory, which unrolls bursts up front.

A hardware module is a class whose fields are its registers. `Tick` computes the wires from the
inputs and then moves every register. Its contract equates the new registers with a function
`Next` of the old ones, and says what the outputs were. The theorems are about runs of `Next`,
with a log of every handshake. `dafny verify dfyconfig.toml` checks everything.

| File | Contents |
|---|---|
| `bits.dfy`, `arith.dfy`, `seqs.dfy` | register widths as integer ranges; division and bitwise or; sequences of pairs |
| `fifo.dfy` | the ring-buffer FIFO and the bounded queue it refines |
| `burst.dfy` | AXI burst addresses: the port's countdown and the testbench's unroll |
| `tcm_mem_pmem.dfy`, `tcm_mem_pmem_runs.dfy` | the AXI4 port of the TCM, and its runs burst by burst |
| `tcm_mem.dfy` | the TCM arbiter around the port |
| `tcm_mem_progress.dfy` | bounded waiting and bounded service in the TCM |
| `dport_axi.dfy`, `dport_axi_progress.dfy` | the CPU-to-AXI bridge; every request acknowledged in bounded time |
| `data_port.dfy`, `dport_mux.dfy`, `data_fabric_progress.dfy` | the CPU data port; the mux, and mux, bridge and TCM together; bounded waiting for the CPU |
| `muldiv_ref.dfy`, `divider.dfy`, `multiplier.dfy` | the M extension as the simulator has it; the two units |
| `pipeline.dfy`, `pipeline_runs.dfy`, `pipeline_progress.dfy`, `pipeline_stale.dfy` | issue to writeback; the pipeline against sequential execution; no lock-up; a division that goes wrong |
| `axi4_mem.dfy`, `axi4_mem_runs.dfy`, `axi4_mem_progress.dfy` | the testbench memory, its runs, and bounded service |
| `simple_memory.dfy` | the word-packed memory and the region scan, against a byte map |
| `sv32.dfy` | the page walk against Sv32 |
| `hart.dfy`, `hart_runs.dfy` | traps, returns, interrupts, loads and stores, and their laws |

## Assumptions

About the environment of the bus fabric:

- AXI masters keep a valid and its payload until the ready (`TcmMemPmem.Stable`).
- Every W beat taken has a nonzero WSTRB, and the W beat taken in the same cycle as its command has
  WLAST exactly when AWLEN is zero (`TcmMemPmem.WellFormed`). `CycleCorrectIff` shows that a cycle
  goes right exactly under this condition. The port looks at WLAST nowhere else.
- The RAM answers only beats it has taken (`TcmMemPmem.LegalCycle`). For the port alone this is
  assumed, at any delay. `TcmMem.ArbiterKeepsPortLegal` proves it of the arbiter.
- The AXI-Lite slave behind the bridge answers only an outstanding transaction (`DportAxi.Legal`).
- The CPU sends no flush, invalidate or writeback outside the TCM (`DataFabric.LegalFabric`).
  `RoutedStepIff` shows that this is exactly what the mux's counter needs.
- For the testbench memory, the master sends AW no later than W, and WLAST agrees with AWLEN
  (`Axi4MemRuns.LegalBeat`).

Progress needs more, and each bound says what: `TcmMemProgress.Attentive`, masters that take every
response and offer write data along with its command; `TcmMemProgress.Finishing`, masters that only finish
what they began; `DportAxiProgress.Prompt`, a slave that never idles for more than k cycles when asked;
`Axi4MemProgress.Favourable`, cycles in which no delay coin falls against the testbench memory.

About the environment of the pipeline:

- Fetch, branch redirection, the load/store unit and the CSR file are arbitrary inputs in each cycle.
  The decoder's instruction classes exclude each other.
- The CSR file raises exceptions only for the instruction in E1, and not for a load or a store.

Divisions need no assumption: `PipelineIsSequential` says of every run which of them are right, and
`PoliteIsRight` that all are when no interrupt is taken at an issuing division.

About the simulator: memory regions begin and end on word boundaries (`PhysicalMemory.Aligned`). For
`HartRuns.TakenIff`, no interrupt is enabled outside the numbers the enable register's write mask lets
through (`isa_sim/riscv_isa.h:488`, `:533`).

Where the code differs from its specification, the code is modelled and the difference is a theorem:

- a misaligned superpage is let through (`Sv32.TranslateAgreesIff`, `Sv32.MisalignedLetThrough`);
- a pointer at the last level makes the walk's unsigned loop counter wrap, and one more entry is
  read; the access then faults, or comes to an undefined shift (`Sv32.WalkOutcomeIff`,
  `Sv32.SelfPointerRunsAway`, `Sv32.SelfPointerFaults`);
- a supervisor access to a user page, or a leaf page outside memory, stops the simulator, where Sv32
  faults or translates (`Sv32.TranslateStopsIff`, `Sv32.StoppedSpec`, `Sv32.SupervisorStops`);
- with translation off, every user-mode access faults (`Sv32.BareAgreesIff`);
- a trap to machine mode does not record the faulting address;
- a start on the divider in a completing cycle yields a stale pulse (`Divider.StalePulse`), and through
  it a wrong division can retire (`PipelineStale.WrongDivisionRetires`);
- a write burst whose only W beat has no strobe never gets its B
  (`TcmMemPmemRuns.LostWritesNeverAnswered`, `TcmMemPmemRuns.ZeroStrobeLost`);
- a master that withdraws a command makes a read and a write active at once
  (`TcmMemPmem.UnstableMastersClash`);
- a write command offered without its data is never accepted, and a read command without the priority waits
  behind it (`TcmMemProgress.CommandWithoutDataStarves`);
- a flush outside the TCM shuts the CPU out of the TCM (`DataFabric.FlushShutsTcm`).

## Model

| member | source | states |
|---|---|---|
| Fifos.Fifo.constructor | top_tcm_axi_32/dport_axi.v:237-286 | reset empties a queue of 2^ADDR_W entries |
| Fifos.Fifo.Tick | top_tcm_axi_32/dport_axi.v:279-306 | the ring buffer refines the bounded queue under push, pop and both at once |
| Fifos.Fifo.AcceptO | top_tcm_axi_32/dport_axi.v:312-312 | accept is up exactly when the queue is not full |
| Fifos.Fifo.ValidO | top_tcm_axi_32/dport_axi.v:311-311 | valid is up exactly when the queue is not empty |
| Fifos.Fifo.DataOutO | top_tcm_axi_32/tcm_mem_pmem.v:438-438 | the output is the oldest element whenever there is one |
| Fifos.FifoConserves | top_tcm_axi_32/tcm_mem_pmem.v:402-438 | over any interleaving nothing is lost, duplicated or reordered, and the depth is never exceeded |
| Bursts.NextAgrees | top_tcm_axi_32/tcm_mem_pmem.v:95-130 | the port's next address is the testbench's exactly for supported burst types and for WRAP steps that do not wrap |
| Bursts.CountdownIsUnroll | top_tcm_axi_32/tcm_mem_pmem.v:151-216 | for every start address and length, the registered countdown issues the word addresses and last flags of the up-front unroll |
| Bursts.WrapVisitsContainerOnce | top_cache_axi/tb/tb_axi4_mem.cpp:127-164 | a wrapping burst of 2, 4, 8 or 16 beats meets each word of its aligned container once and returns to its start |
| Bursts.NthBeat | top_tcm_axi_32/tcm_mem_pmem.v:151-216 | beat k of a countdown is at the address after k steps, and only the last is marked |
| Bursts.IncrAddresses | top_tcm_axi_32/tcm_mem_pmem.v:95-130 | after k beats an INCR burst, or one of a type the port is built without, is at its address plus 4k, modulo 2^32 |
| Bursts.FixedAddresses | top_tcm_axi_32/tcm_mem_pmem.v:95-130 | a FIXED burst stays at its address |
| Bursts.WrapNextBits | top_tcm_axi_32/tcm_mem_pmem.v:95-130 | a WRAP step keeps the address bits above the lowest 2, 3, 4, 5 or 6, by AWLEN or ARLEN, and adds 4 below them |
| Bursts.BenchAddresses | top_cache_axi/tb/tb_axi4_mem.cpp:127-164 | the testbench's INCR bursts go on by 4 modulo 2^32, its WRAP bursts go round, and the others stay |
| TcmMemPmem.Port.constructor | top_tcm_axi_32/tcm_mem_pmem.v:151-223 | the reset state |
| TcmMemPmem.Port.RequestWires | top_tcm_axi_32/tcm_mem_pmem.v:314-336 | ready and RAM request outputs as arbitration, hold flags and burst registers demand |
| TcmMemPmem.Port.ResponseWires | top_tcm_axi_32/tcm_mem_pmem.v:281-348 | the response channels offer the oldest request with the oldest answer, by direction |
| TcmMemPmem.Port.Tick | top_tcm_axi_32/tcm_mem_pmem.v:151-352 | one clock of the whole port, and its outputs during it |
| TcmMemPmem.CommandTaken | top_tcm_axi_32/tcm_mem_pmem.v:314-322 | with room and no burst in progress, a command offered alone is taken as soon as the RAM accepts, one of two is when both are offered, and none is during a burst |
| TcmMemPmem.PinsAreLogged | top_tcm_axi_32/tcm_mem_pmem.v:314-352 | what the log of a run records is what crosses the AXI and RAM pins |
| TcmMemPmem.LeavesWhen | top_tcm_axi_32/tcm_mem_pmem.v:341-352 | an answered request leaves at once when its channel is ready, or inside a write burst, and in no other case |
| TcmMemPmem.CycleCorrectIff | top_tcm_axi_32/tcm_mem_pmem.v:163-216 | a cycle moves beats and write data exactly as the commands ask if and only if its W beat is well formed |
| TcmMemPmem.UnstableMastersClash | top_tcm_axi_32/tcm_mem_pmem.v:218-235 | a withdrawn command raises both hold flags and then activates both directions |
| TcmMemPmem.OneDirection | top_tcm_axi_32/tcm_mem_pmem.v:314-318 | a read and a write are never both active |
| TcmMemPmem.BurstExclusive | top_tcm_axi_32/tcm_mem_pmem.v:163-216 | a read burst and a write burst are never both in progress |
| TcmMemPmem.HeldPresented | top_tcm_axi_32/tcm_mem_pmem.v:218-235 | a held request is presented again |
| TcmMemPmem.HoldsStep | top_tcm_axi_32/tcm_mem_pmem.v:218-235 | the hold flags are never both set, and each stays backed by an offered request |
| TcmMemPmem.RepresentedUnchanged | top_tcm_axi_32/tcm_mem_pmem.v:313-334 | a request presented and refused is presented unchanged in the next cycle, whatever the masters offer |
| TcmMemPmem.AnswerFits | top_tcm_axi_32/tcm_mem_pmem.v:289-307 | an answer always finds room in the response FIFO |
| TcmMemPmem.MatchedStep | top_tcm_axi_32/tcm_mem_pmem.v:240-307 | each answer is matched with its own request record |
| TcmMemPmem.ResponseUntilReady | top_tcm_axi_32/tcm_mem_pmem.v:341-352 | BVALID and RVALID stay with their ID, data and RLAST until the ready |
| TcmMemPmem.RunConserves | top_tcm_axi_32/tcm_mem_pmem.v:151-352 | all of the above in every reachable state of every run |
| TcmMemPmemRuns.EveryMoment | top_tcm_axi_32/tcm_mem_pmem.v:151-352 | at every moment the RAM has had exactly the beats of the accepted bursts so far, each write with its own W data, and R and B have carried what the answered ones call for |
| TcmMemPmemRuns.QuietRunServedAll | top_tcm_axi_32/tcm_mem_pmem.v:151-352 | a drained port has given each read ARLEN+1 RAM reads and R beats with its ID, the RAM's data and RLAST on the last only, and each write AWLEN+1 RAM writes and one B, in order |
| TcmMemPmemRuns.QuietRunMatchesBench | top_cache_axi/tb/tb_axi4_mem.cpp:19-39 | the words the RAM has had are those the testbench memory unrolls for the same commands |
| TcmMemPmemRuns.LostWritesNeverAnswered | top_tcm_axi_32/tcm_mem_pmem.v:163-216 | in every run of stable masters each accepted write burst has had its B, or is still owed it, or came with a first W beat that ended it without strobes or early, and then it never gets one |
| TcmMemPmemRuns.ZeroStrobeLost | top_tcm_axi_32/tcm_mem_pmem.v:334-334 | a one-beat write without strobes is such a loss |
| TcmMem.Tcm.Tick | top_tcm_axi_32/tcm_mem.v:206-253 | one clock of the arbiter and the port, with the CPU's and the port's outputs |
| TcmMem.ArbiterKeepsPortLegal | top_tcm_axi_32/tcm_mem.v:206-253 | request count equals response count plus the acknowledge in flight, so the response FIFO never overflows and the port's RAM-side assumption always holds |
| TcmMem.TcmServesBursts | top_tcm_axi_32/tcm_mem.v:120-165 | with nothing asked but of the external masters, a drained TCM has served every burst |
| TcmMem.TcmReadsZero | top_tcm_axi_32/tcm_mem.v:168-168 | every R beat of every run carries zero |
| TcmMem.WaitsAtMostOneCycle | top_tcm_axi_32/tcm_mem.v:211-222 | an external beat waits at most one cycle, unchanged, and the CPU is kept out then |
| TcmMem.AckedNextCycle | top_tcm_axi_32/tcm_mem.v:224-236 | every CPU request is acknowledged once, with its tag, in the next cycle |
| TcmMemProgress.ReadPassedAtMostTwice | top_tcm_axi_32/tcm_mem_pmem.v:314-318 | a read command that waits is passed by at most two write commands |
| TcmMemProgress.WritePassedAtMostTwice | top_tcm_axi_32/tcm_mem_pmem.v:314-318 | a write command that waits is passed by at most two read commands |
| TcmMemProgress.AcceptedInTime | top_tcm_axi_32/tcm_mem.v:120-253 | after any run, with masters that take their responses and offer write data with its command, no command of either direction waits more than 3863 cycles, whatever the CPU does |
| TcmMemProgress.CommandWithoutDataStarves | top_tcm_axi_32/tcm_mem_pmem.v:314-336 | at rest, a write command offered without data is never accepted, and neither is a read command that has not the priority |
| TcmMemProgress.CpuAccepted | top_tcm_axi_32/tcm_mem.v:211-236 | the CPU is accepted, and acknowledged with its tag in the next cycle, after any cycle in which the external port had nothing to do |
| TcmMemProgress.DrainStep | top_tcm_axi_32/tcm_mem.v:211-253 | while masters only finish what they began, every cycle brings the TCM closer to idle |
| TcmMemProgress.ServedInTime | top_tcm_axi_32/tcm_mem.v:120-253 | 1293 such cycles serve every accepted burst completely |
| DportAxi.Bridge.constructor | top_tcm_axi_32/dport_axi.v:182-227 | the reset state |
| DportAxi.Bridge.Wires | top_tcm_axi_32/dport_axi.v:138-219 | the CPU and AXI outputs, and when the head request completes |
| DportAxi.Bridge.Tick | top_tcm_axi_32/dport_axi.v:99-230 | one clock of the bridge |
| DportAxi.BridgeConserves | top_tcm_axi_32/dport_axi.v:99-230 | accepted requests are issued once each, in order, at most one outstanding; the tag FIFO holds one tag more than the request FIFO while one is; the k-th acknowledge carries the k-th request's tag |
| DportAxi.WritesHandedOverOnce | top_tcm_axi_32/dport_axi.v:171-230 | for every order of AWREADY and WREADY each write hands over address and data exactly once before it is popped |
| DportAxi.ShapeStep | top_tcm_axi_32/dport_axi.v:182-196 | the inhibit flags are never both set, and only the head write can be half handed over |
| DportAxi.ValidUntilReady | top_tcm_axi_32/dport_axi.v:198-213 | AWVALID, WVALID and ARVALID stay with their payload until the ready |
| DportAxiProgress.IssuedWhenReady | top_tcm_axi_32/dport_axi.v:171-219 | the head request is issued in the very cycle in which the slave is ready and nothing is outstanding or the outstanding transaction is answered |
| DportAxiProgress.AcceptedWhenRoom | top_tcm_axi_32/dport_axi.v:138-166 | the CPU is accepted whenever fewer than two requests await their acknowledge |
| DportAxiProgress.PinsAreLogged | top_tcm_axi_32/dport_axi.v:138-219 | what the log of a run records is what crosses the pins; addresses are word aligned, read data and errors passed on |
| DportAxiProgress.AcknowledgedInTime | top_tcm_axi_32/dport_axi.v:99-230 | in every run, with a slave that never idles for more than k cycles when asked, each accepted request is handed over and acknowledged within 6(k+1) cycles |
| DportMux.Mux.Wires | top_tcm_axi_32/dport_mux.v:104-143 | requests go to the addressed target unless held; responses come from the last one |
| DportMux.Mux.Tick | top_tcm_axi_32/dport_mux.v:104-174 | one clock of the mux |
| DataFabric.RoutedStepIff | top_tcm_axi_32/dport_mux.v:145-170 | the counter stays the true outstanding count exactly when no maintenance operation goes outside the TCM |
| DataFabric.FlushShutsTcm | top_tcm_axi_32/dport_mux.v:145-174 | after one maintenance operation outside the TCM, at any point of any run, no request for the TCM is ever taken again, unless 28 more bring the counter near its wrap |
| DataFabric.FlushTaken | top_tcm_axi_32/dport_mux.v:145-170 | a flush outside the TCM is taken from rest and counted, and nothing is outstanding |
| DataFabric.ResponsesInOrder | top_tcm_axi_32/dport_mux.v:110-170 | responses reach the CPU in request order from the right target with the right tag; the counter is the number outstanding, at most two; everything outstanding belongs to one target |
| DataFabric.BridgeInside | top_tcm_axi_32/dport_mux.v:133-141 | the bridge in the fabric runs legally and accepts exactly the CPU's external requests |
| DataFabric.TcmInside | top_tcm_axi_32/dport_mux.v:123-131 | the TCM in the fabric accepts exactly the CPU's requests for it |
| DataFabricProgress.InTcmIff | top_tcm_axi_32/dport_mux.v:113-113 | the TCM is the 64 KiB from its base, or nothing if they reach the end of the address space |
| DataFabricProgress.PinsWired | top_tcm_axi_32/dport_mux.v:119-143 | the outputs of mux, bridge and TCM wired together are what the fabric's run takes, acknowledges and hands to each target |
| DataFabricProgress.TakenWhenFree | top_tcm_axi_32/dport_mux.v:119-170 | with nothing outstanding a request is taken at once and reaches the target its address says, unless an external beat has the TCM |
| DataFabricProgress.RequestReachesBridge | top_tcm_axi_32/dport_mux.v:129-137 | an external request enters the bridge as the CPU made it |
| DataFabricProgress.CpuAcknowledgedInTime | top_tcm_axi_32/dport_mux.v:110-170 | in every legal run, with that slave, each CPU request is acknowledged in order within 6(k+1) cycles of its acceptance |
| DataFabricProgress.CpuTakenInTime | top_tcm_axi_32/dport_mux.v:110-170 | and a request not taken for that long is taken in the next cycle, unless an external beat has the TCM |
| Divider.DividerUnit.Tick | sim_core_tlm.vvp:8281-8513 | one clock of the divider |
| Divider.ShiftBusy | sim_core_tlm.vvp:8400-8430 | each busy cycle keeps quotient * divisor + remainder and settles one more bit |
| Divider.DividesIn32 | sim_core_tlm.vvp:8281-8513 | from any register contents a division ends after exactly 32 busy cycles with the simulator's result and one valid pulse |
| Divider.ResultIsRef | isa_sim/riscv.cpp:1335-1383 | the final registers hold DIV, DIVU, REM or REMU, with divide by zero and signed overflow |
| Divider.FirstPulseIsOwnIff | sim_core_tlm.vvp:8481-8513 | the first pulse after a start is its own exactly when the start is not in a completing cycle |
| Divider.StalePulse | sim_core_tlm.vvp:8481-8513 | a start in a completing cycle is followed by the other division's result |
| Multiplier.MultiplierUnit.Tick | sim_core_tlm.vvp:8074-8233 | one clock of the multiplier |
| Multiplier.ChosenIsRef | isa_sim/riscv.cpp:1300-1334 | for all operands the selected half of the 65-bit product is MUL, MULH, MULHSU or MULHU |
| Multiplier.HoldsAreInvisible | sim_core_tlm.vvp:8143-8233 | hold cycles neither lose nor repeat a product |
| Pipeline.Core.IssueWires | sim_core_tlm.vvp:10021-10206 | stall, squash, scoreboard, issue and the bypassed operands |
| Pipeline.Core.Tick | sim_core_tlm.vvp:8515-10206 | one clock from issue to writeback with the divider and the multiplier |
| PipelineRuns.BypassReads | sim_core_tlm.vvp:10145-10206 | the bypass network reads the registers as they will be once the three stages have written |
| PipelineRuns.IssueReads | sim_core_tlm.vvp:10021-10206 | an instruction that issues gets the operands due to it |
| PipelineRuns.LongBlocks | sim_core_tlm.vvp:10021-10143 | nothing issues behind a division or a CSR instruction in E1 |
| PipelineRuns.DivideBeginsIff | sim_core_tlm.vvp:8481-8513 | a division will get its own result if and only if it does not start in the cycle that completes another, or the other has the same result |
| PipelineRuns.LongStep | sim_core_tlm.vvp:9939-10019 | in every cycle, a division in E1 is in progress for its own operands or done, its pending flag or a fault ahead guards it, and whether its result is right was settled when it was issued |
| PipelineRuns.OkStep | sim_core_tlm.vvp:8515-10206 | every clock keeps the invariant of the three stages |
| PipelineRuns.DuesStep | sim_core_tlm.vvp:8515-9146 | every clock keeps each stage's exception and outside value equal to those due to its instruction, by codes of its own: 32 for an interrupt, 0x11, 0x1c and 0x10 from fetch, then the CSR file's, then the memory's |
| PipelineRuns.SquashedByFault | sim_core_tlm.vvp:10021-10143 | the instruction in E1 is squashed exactly by an exception due to the one ahead of it |
| PipelineRuns.OnlyOffersIssue | sim_core_tlm.vvp:10021-10143 | nothing enters program order unless fetch offers it, the load/store unit does not stall and no redirection is on |
| PipelineRuns.PipelineIsSequential | sim_core_tlm.vvp:8515-10206 | in every run, instructions retire in program order, each with exactly the exception due to it, and each fault-free one with the operands of sequential execution and the value of those operands, or the value its unit returned; the register file is what that execution gives, where an instruction with an exception due writes nothing; a retired division is right if and only if it did not issue as an abandoned one with another result completed |
| PipelineRuns.PoliteIsRight | sim_core_tlm.vvp:9939-9978 | only an interrupt at an issuing division can leave one abandoned; without that every division is right |
| PipelineRuns.PoliteIsSequential | sim_core_tlm.vvp:8515-10206 | and then the whole register file is that of sequential execution with the reference arithmetic |
| PipelineStale.WrongDivisionRetires | sim_core_tlm.vvp:9939-9978 | a run from reset in which an interrupted division makes a later one retire, without a fault, with the wrong result |
| PipelineRuns.FaultEndsProgram | sim_core_tlm.vvp:8904-9146 | after a fault, program order ends at the faulting instruction and nothing younger writes |
| PipelineProgress.BackedStep | sim_core_tlm.vvp:9939-10019 | a pending flag is up only while an instruction or a fault that will clear it is in a stage |
| PipelineProgress.StagesHoldIff | sim_core_tlm.vvp:10021-10143 | the stages stand still exactly while a load or a store in E2 waits for the memory or a division in E1 for the divider |
| PipelineProgress.IssuesAtOnce | sim_core_tlm.vvp:10021-10143 | behind a plain instruction, or a load it does not depend on, an offered instruction issues at once |
| PipelineProgress.NoLockup | sim_core_tlm.vvp:10021-10143 | from every reachable state some instruction issues within 37 cycles if nothing outside holds the pipeline |
| Axi4Mem.DoRead32 | top_cache_axi/tb/tb_axi4_mem.cpp:177-183 | reads the little-endian word at an address |
| Axi4Mem.Axi4Memory.DoWrite32 | top_cache_axi/tb/tb_axi4_mem.cpp:168-173 | writes the strobed bytes |
| Axi4Mem.Write32Bytes | top_cache_axi/tb/tb_axi4_mem.cpp:168-173 | byte b changes exactly when a set strobe bit covers it, to the byte of the data in that lane; strobe bit k and data bits 8k to 8k+7 go to the address plus k |
| Axi4Mem.WriteThenRead | top_cache_axi/tb/tb_axi4_mem.cpp:168-183 | a word written with all strobes is read back |
| Axi4Mem.Read32Bytes | top_cache_axi/tb/tb_axi4_mem.cpp:177-183 | the word read is made of the bytes at the address and the three after it, least significant first |
| Axi4Mem.Axi4Memory.DoUnroll | top_cache_axi/tb/tb_axi4_mem.cpp:19-39 | unrolls a read burst from its aligned address |
| Axi4Mem.Axi4Memory.TakeInputs | top_cache_axi/tb/tb_axi4_mem.cpp:19-74 | takes commands and write data, and fails on a W beat without a command |
| Axi4Mem.Axi4Memory.ServeRead | top_cache_axi/tb/tb_axi4_mem.cpp:76-96 | frees and refills the R register |
| Axi4Mem.Axi4Memory.PerformWrite | top_cache_axi/tb/tb_axi4_mem.cpp:98-115 | frees the B register, performs a write, and answers on the last beat |
| Axi4Mem.Axi4Memory.Process | top_cache_axi/tb/tb_axi4_mem.cpp:16-122 | one turn of the process |
| Axi4MemRuns.EveryMoment | top_cache_axi/tb/tb_axi4_mem.cpp:7-123 | for every delay schedule beats are served in order and once, each with the word the memory holds after the writes performed until then; the memory holds exactly the performed writes; the queues stay at or below 383 and 128 |
| Axi4MemRuns.DrainedRunAnswersAll | top_cache_axi/tb/tb_axi4_mem.cpp:7-123 | once drained, every read beat has been returned with its ID, last flag and data, and each write burst has had one B with its ID |
| Axi4MemRuns.BurstItems | top_cache_axi/tb/tb_axi4_mem.cpp:19-39 | item k of a read burst is at the address after k steps from the aligned address, of a write burst from the address as it is, with the command's ID and only the last marked |
| Axi4MemProgress.ReadyIff | top_cache_axi/tb/tb_axi4_mem.cpp:114-117 | a ready is up exactly when its coin allows, its queue holds fewer than 128 and, for a write command, none is recorded |
| Axi4MemProgress.ReadTakenInTime | top_cache_axi/tb/tb_axi4_mem.cpp:16-122 | a read command is refused in at most one favourable cycle more than its queue is over 128 |
| Axi4MemProgress.WriteTakenInTime | top_cache_axi/tb/tb_axi4_mem.cpp:16-122 | a write command behind one with n beats to come is refused in at most 2n + 2 favourable cycles |
| Axi4MemProgress.ServedInTime | top_cache_axi/tb/tb_axi4_mem.cpp:16-122 | after any run, once the master has finished its commands, 1024 favourable cycles answer everything with the right data |
| SimpleMemories.SimpleMemory.Load | isa_sim/memory.h:79-125 | returns the little-endian bytes at an aligned address, extended; a misaligned one fails |
| SimpleMemories.SimpleMemory.Store | isa_sim/memory.h:127-160 | changes exactly the bytes stored |
| SimpleMemories.SimpleMemory.Reset | isa_sim/memory.h:74-77 | the first Size bytes read zero and any after them are as they were |
| SimpleMemories.StoreRefines | isa_sim/memory.h:127-160 | rewriting a word with masks is a byte-map update and disturbs no neighbour |
| SimpleMemories.LoadRefines | isa_sim/memory.h:79-125 | masks and shifts of a word read the byte map |
| SimpleMemories.LoadMeans | isa_sim/memory.h:79-125 | a load is the little-endian sum of its bytes, plus 0xFFFFFF00 or 0xFFFF0000 when signed with the top bit set |
| SimpleMemories.StoreMeans | isa_sim/memory.h:127-160 | a store puts byte k of its data at the address plus k, for as many bytes as it is wide, and changes nothing else |
| PhysicalMemory.SameWordFind | isa_sim/riscv.cpp:607-614 | the first region that matches is the same for all bytes of a word |
| PhysicalMemory.FirstRegion | isa_sim/riscv.cpp:607-608 | the scan finds the first region with base up to the address and the 32-bit sum of base and size beyond it |
| PhysicalMemory.ByteAtIs | isa_sim/riscv.cpp:607-614 | an access meets the byte of that region's storage at the offset from its base |
| PhysicalMemory.StoreByte | isa_sim/riscv.cpp:644-649 | behind the region scan a store changes the bytes it covers and no others |
| PhysicalMemory.HaltsIff | isa_sim/riscv.cpp:607-618 | an access stops the simulator exactly when no region has it or it is misaligned |
| PhysicalMemory.StoresAreByteMap | isa_sim/riscv.cpp:623-653 | after any sequence of stores every byte is the last one stored there |
| PhysicalMemory.LoadReturnsLastStored | isa_sim/riscv.cpp:591-653 | every load returns the last bytes stored, sign- or zero-extended |
| Sv32.WalkOutcomeIff | isa_sim/riscv.cpp:387-458 | the walk comes to an undefined shift exactly when it meets a last-level pointer and the entry at the wrapped index beyond it is there and present, and stops the simulator exactly when its leaf page is not in memory |
| Sv32.WalkEnds | isa_sim/riscv.cpp:387-458 | the walk yields the leaf it ends at, or a page fault's zero, also past a last-level pointer that leads to nothing |
| Sv32.TranslateStopsIff | isa_sim/riscv.cpp:364-586 | an access stops the simulator, or is undefined, exactly when its walk runs away, its leaf page is not in memory, or a supervisor meets a user page that is not enabled |
| Sv32.StoppedSpec | isa_sim/riscv.cpp:364-586 | what Sv32 answers there: a fault, unless an aligned leaf that allows the access lies outside memory |
| Sv32.TranslateAgreesIff | isa_sim/riscv.cpp:364-586 | with tables below 4 GiB, an access is translated or faulted as Sv32 says if and only if it does not stop the simulator and is not one that a misaligned superpage allows; the reference has its own indices, bits 31:22 and 21:12 of the address, and its own flag bits |
| Sv32.SuccessMeansAllowed | isa_sim/riscv.cpp:465-586 | a success implies the permission bits, and the address is the page plus the offset |
| Sv32.BareAgreesIff | isa_sim/riscv.cpp:378-382 | with translation off, addresses are unchanged exactly outside user mode |
| Sv32.MachineIsBare | isa_sim/riscv.cpp:465-470 | machine mode is not translated |
| Sv32.MisalignedLetThrough | isa_sim/riscv.cpp:427-434 | a superpage at page 1 is let through where Sv32 faults |
| Sv32.SelfPointerRunsAway | isa_sim/riscv.cpp:390-395 | a self-pointing table makes the walk at address 0 come to an undefined shift |
| Sv32.SelfPointerFaults | isa_sim/riscv.cpp:390-415 | the same table faults at address 4, where the wrapped index meets an empty entry |
| Sv32.SupervisorStops | isa_sim/riscv.cpp:552-555 | a supervisor reading a user page without SUM stops the simulator where Sv32 faults |
| Hart.Riscv.Exception | isa_sim/riscv.cpp:803-870 | trap entry, by delegation |
| Hart.Riscv.DoMret | isa_sim/riscv.cpp:1401-1426 | return from machine mode, or a failed assertion |
| Hart.Riscv.DoSret | isa_sim/riscv.cpp:1427-1451 | return from supervisor mode, or a failed assertion |
| Hart.Riscv.CheckInterrupts | isa_sim/riscv.cpp:1519-1547 | takes the first interrupt on offer |
| Hart.Riscv.FindRegion | isa_sim/riscv.cpp:607-608 | the first region that contains an address |
| Hart.Riscv.ReadWord | isa_sim/riscv.cpp:347-360 | a word of physical memory, if there is one |
| Hart.Riscv.MmuLeaf | isa_sim/riscv.cpp:421-454 | the entry made of a leaf, whose page must be in memory |
| Hart.Riscv.MmuWalk | isa_sim/riscv.cpp:364-461 | the loop, with its unsigned counter, computes the walk |
| Hart.Riscv.MmuCheck | isa_sim/riscv.cpp:465-586 | the permission checks on the entry found |
| Hart.Riscv.MmuTranslate | isa_sim/riscv.cpp:465-586 | translates, traps with the right cause, or stops |
| Hart.Riscv.LoadWord | isa_sim/riscv.cpp:591-619 | translates and loads |
| Hart.Riscv.StoreWord | isa_sim/riscv.cpp:623-653 | translates and stores; a fault leaves the memory alone |
| HartRuns.TrapDelivers | isa_sim/riscv.cpp:803-870 | a trap never lowers privilege, sets the cause, the address and the vector of its target only, stacks the interrupt enable and the mode in the target's status bits, and changes nothing else |
| HartRuns.DelegatedIff | isa_sim/riscv.cpp:803-822 | a trap goes to supervisor mode exactly when it came from user or supervisor mode and the bit of its number is set in its delegation register |
| HartRuns.MretPops | isa_sim/riscv.cpp:1401-1426 | mret asserts machine mode, restores bit 3 from bit 7 and the mode from bits 12:11, sets bit 7 and clears the mode bits |
| HartRuns.SretPops | isa_sim/riscv.cpp:1427-1451 | sret asserts supervisor mode, restores bit 1 from bit 5 and the mode from bit 8, sets bit 5 and clears bit 8 |
| HartRuns.MachineRoundTrip | isa_sim/riscv.cpp:1401-1426 | trap and mret restore PC, privilege, MIE and every status bit outside the popped fields, whatever the handler does besides |
| HartRuns.SuperRoundTrip | isa_sim/riscv.cpp:1427-1451 | the same for sret |
| HartRuns.NestedRoundTrip | isa_sim/riscv.cpp:1401-1451 | a supervisor handler interrupted by a machine trap still returns exactly |
| HartRuns.InterruptDelivered | isa_sim/riscv.cpp:1519-1547 | if machine mode takes any of the interrupts 1 to 11 the lowest it takes is delivered, or else the lowest that supervisor mode takes; each takes what is pending, enabled and addressed to it, from a lower mode or from itself with its enable bit set; with none, nothing changes |
| HartRuns.TakenIff | isa_sim/riscv.cpp:1519-1547 | one is taken exactly when either mode takes one that is pending and enabled, with the enable conditions written out |
| HartRuns.MaskedIsQuiet | isa_sim/riscv.cpp:1519-1547 | with bit 3 clear machine mode is never interrupted, and with bit 1 clear supervisor mode only by machine mode |
| HartRuns.OnlyReturnsLower | isa_sim/riscv.cpp:803-870 | over every run privilege falls only at a return |
| HartRuns.FaultTraps | isa_sim/riscv.cpp:512-517 | a page fault has its access's cause, the EPC and the vector, and leaves memory unchanged |
| HartRuns.StoreVirtualBytes | isa_sim/riscv.cpp:623-653 | a store through the page tables changes exactly its bytes at the translated address |
| HartRuns.StoreWasAllowed | isa_sim/riscv.cpp:528-586 | a store that is done went to a present, writable leaf, in user mode one with the user bit, and at a user page in supervisor mode with bit 18 set |
| HartRuns.LoadWasAllowed | isa_sim/riscv.cpp:528-586 | and a load that is done went to a present, readable one |
| HartRuns.LoadVirtualIs | isa_sim/riscv.cpp:591-619 | a load returns what the memory holds at the translated address, or traps with cause 13, or stops, as the translation of a read does |
| HartRuns.StoreVirtualIs | isa_sim/riscv.cpp:623-653 | a store writes at the translated address, or traps with cause 15, or stops, as the translation of a write does |

## Left out

- Reset timing, several clocks, X-propagation and gate delays: one synchronous tick per step.
- Registers are integer ranges, not bit-vectors; masks of contiguous low bits are remainders, and an `|` of disjoint fields is a sum. The divider's quotient and the walk's superpage bits use a bitwise or.
- FIFO depth is always 2^ADDR_W, as in every instance; other depths are not modelled.
- `ram_len_o` has its value stated in the outputs but nothing is claimed of it: it is not stable and the TCM ignores it.
- The CPU data port's cacheable flag and the constant response codes of the TCM.
- A request with both read and write set is a read for the bridge, as its record says; nothing more is claimed of it.
- CPU fairness against a continuous external burst: the arbiter gives none.
- TcmMem.Tcm.Tick: the instruction port and its SRAM macro are not modelled.
- Multiplier.MultiplierUnit.Tick: the result_e3 register and the valid shift register drive nothing and are not modelled.
- Pipeline.Core.Tick: next-PC, CSR write data and branch outputs of the pipe control, and the privilege register of the issue stage, are not modelled; the exec unit is any function of the instruction and its operands.
- PipelineRuns.PipelineIsSequential: the values of loads and CSR reads are whatever their units returned; memory ordering and CSR contents are outside the model.
- The accessed and dirty bits: the simulator ignores them, and the Sv32 reference here does too.
- PhysicalMemory.LoadReturnsLastStored: regions whose size is not a whole number of words, and bases off a word boundary, are not covered.
- The CSR access function, the timer, and the instruction decode around traps: one-branch facts.
- Axi4Mem.Axi4Memory.Process: the base class's memory regions are one map of bytes that read zero until written; its range assertion is not modelled.
- The fetch translation and the data translation are one method with the kind of access as a parameter.
- ELF loading, tracing, statistics, console and exit CSRs, SystemC and Verilator wrappers, the wrapper build's copies of the bridge and the mux, telemetry counters: no harder claims.
