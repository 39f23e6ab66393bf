# A verified model of the 5-stage RV32I pipeline and its simulator

This project models the two processors of the repository and the assembler between them, and proves how they relate.

* **The hardware.** The five-stage pipeline with its controller, stage registers, datapath and multi-cycle data memory is
  one clocked machine (`Pipeline`, `DataMem`). It is measured against a machine that executes one instruction at a time
  (`Sequential`): `Refinement` holds the invariant of one clock edge, `PipelineRuns` and `CleanRuns` speak of whole runs,
  `LostLinks` of the instructions the pipeline drops, `Schedule` of the exact cycle in which everything happens,
  `Progress`, `Timing`, `Halting` and `Handshake` of time, halting and the memory protocol. `Rv32i` states the
  integer instruction set independently and compares. `StageRegisters` and `PipelinedCpu` are the modules themselves, with
  registers and arrays updated in place.
* **The simulator.** `FunctionalCpu` and `ByteMemory` are the functional processor and its memory, `PacketPipeline` the
  packet pipeline with port and pipe registers under every order of components within a tick, `Scoreboard` and
  `SimulatorRuns` its exact timing, `SimulatorModules` its classes.
* **The assembler.** `Assembler` is the two passes, `Emulator` the loops that carry them out in place, `SourceMachine` the
  meaning of assembly lines with symbolic labels, `AssemblerProof` the simulation between the two, `AssemblerStops` its
  converse, `AssemblerLimits` where checks and directives mislead, `MemoryHistory` what the data memory holds over a run.
* **Across.** `CrossModel`, `CrossRuns` and `EndToEnd` connect source lines, simulator and hardware.

`Words`, `Numbers`, `Addresses`, `DataStruct`, `RiscvDefs`, `Datapath` and `Controller` hold the shared vocabulary.

## What the code does and its texts do not say

* In the EXE register a flush beats a memory stall while the MEM register holds. A control transfer that flushes during a
  memory wait disappears from EXE: harmless for a branch, but JAL and JALR lose their link value. `LinkExample` has a
  concrete program; `CleanExactlyWhenSafe` says exactly when a run is unaffected.
* The data memory answers reads correctly exactly for latencies of at least 3. At 2 it raises Valid before its data register
  is loaded, at 1 it drops the request (`DataMem.ReadsCorrectIff`).
* LBU and LHU use the word-aligned default address and JALR does not clear bit 0 of its target: `Rv32i.ImplementsIsaIff`
  states the exact condition. A store whose width field is not byte, half or word writes a zero word (`Rv32i.IllegalStore`).
* While HCF is asserted a store held in MEM is still carried out (`Halting.StoreBehindHcf` has a program, `Halting.FrozenIff`
  the exact condition), so claims about memory are made at the first HCF.
* In the functional processor x0 is an ordinary slot; `FunctionalCpu.ZeroRegisterIff` says from the instructions executed
  exactly when that shows, and `j` and `ret` are such instructions.
* It also adds for SLTU, does not mask register shifts, and writes the link of JALR before it reads the base.
  `CrossModel.StepIsIsaIff` says exactly on which operands it departs from RV32I, and `CrossModel.StaleZeroIff` exactly when
  a value left in x0 shows.
* The range check of JAL looks at the third operand, which nothing has written, and not at the target
  (`AssemblerLimits.JumpCheckIff`, for whatever that operand holds).
* A data element is refused when it is too large for its size, or outside 64 bits; all other negative values are truncated
  (`AssemblerLimits.ElementReadsBackIff`).

Places where the C++ has no meaning (shifts by 32 or more, accesses that fail the memory's assertion, fetches past the
instruction memory) end a run of the model. A hardware program is cut at its first HCF; in the sequential machine HCF does
nothing.

## Model

| member | source | states |
|---|---|---|
| CleanRuns.CleanRunRefines | chisel_impl/src/main/scala/acal_lab09/PipelinedCPU/PiplinedCPU.scala:64-167 | for every program without a linking jump behind a load or store in its text, every data and latency of at least 3, in every cycle up to the first HCF: the registers are those of the plain sequential machine after k instructions, the data memory its memory after m, k <= m <= k + 2, both counts non-decreasing over the run |
| CleanRuns.CleanCycle | chisel_impl/src/main/scala/acal_lab09/PipelinedCPU/PiplinedCPU.scala:64-167 | the same for one cycle of any program, as long as no instruction that has reached the data memory is at risk |
| CleanRuns.WholeRunRefines | chisel_impl/src/main/scala/acal_lab09/PipelinedCPU/PiplinedCPU.scala:64-167 | for every program whatsoever the same against a sequential machine that loses instructions, and what it loses is, up to m, exactly what the law of the schedule says, so that the run is determined by the program |
| PipelineRuns.PipelineRefinesSequential | chisel_impl/src/main/scala/acal_lab09/PipelinedCPU/PiplinedCPU.scala:64-167 | the same for one cycle with the counts named, and every lost instruction of the record identified: a transfer to another address directly behind a load or store |
| CleanRuns.RunsForward | chisel_impl/src/main/scala/acal_lab09/PipelinedCPU/PiplinedCPU.scala:64-140 | from cycle to cycle neither count goes back, and what has retired never changes its lost marks |
| Refinement.StepKeepsInv | chisel_impl/src/main/scala/acal_lab09/PipelinedCPU/PiplinedCPU.scala:64-167 | one clock edge before HCF keeps the invariant that ties every stage register, the register file and the memory to points of the sequential trace |
| Refinement.CapturedOperands | chisel_impl/src/main/scala/acal_lab09/PipelinedCPU/Controller/Controller.scala:335-362 | hazard completeness: when nothing stalls or flushes ID, each register operand it uses reads as in the sequential machine, although the register file has no bypass |
| Refinement.OperandIsCurrent | chisel_impl/src/main/scala/acal_lab09/PipelinedCPU/DatapathModule/DatapathComponent/RegFile.scala:22-24 | a register that no instruction in EXE, MEM or WB writes already holds its sequential value |
| PipelineRuns.ExeIsOnTrace | chisel_impl/src/main/scala/acal_lab09/PipelinedCPU/Controller/Controller.scala:87-121 | EXE never speculates: it holds a bubble that cannot flush or a trace instruction with its sequential operand values; then ID holds the real next word and EXE flushes exactly on a transfer elsewhere, although bubbles carry pc 0 |
| PipelineRuns.WbIsOnTrace | chisel_impl/src/main/scala/acal_lab09/PipelinedCPU/DatapathModule/Path_WB.scala:19-23 | WB holds a bubble or a trace instruction with the value the sequential machine writes, for loads the data of their own transaction |
| LostLinks.LossDecided | chisel_impl/src/main/scala/acal_lab09/PipelinedCPU/StageRegister/Reg_EXE.scala:35-47 | what a flush during a memory wait drops is a transfer to another address whose predecessor, a load or store, is the instruction in MEM |
| LostLinks.LossStep | chisel_impl/src/main/scala/acal_lab09/PipelinedCPU/StageRegister/Reg_EXE.scala:35-59 | every cycle keeps that nothing but such transfers has ever been lost, because Flush beats the memory stall in the EXE register while the MEM register holds |
| CleanRuns.CleanExactlyWhenSafe | chisel_impl/src/main/scala/acal_lab09/PipelinedCPU/StageRegister/Reg_EXE.scala:35-47 | for every program, run and j up to the instructions that have reached the data memory, the first j states are those of the machine that loses nothing if and only if no instruction before j is at risk; being at risk is computed from the program and the sequential run alone: its row of the schedule says lost and it would change a register |
| CleanRuns.AgreesExactlyWhenSafe | chisel_impl/src/main/scala/acal_lab09/PipelinedCPU/StageRegister/Reg_EXE.scala:35-47 | the same equivalence for any trace whose losses are the ones its schedule gives |
| CleanRuns.RiskIsBehindMem | chisel_impl/src/main/scala/acal_lab09/PipelinedCPU/PiplinedCPU.scala:98-122 | only a transfer elsewhere directly behind a load or store can be at risk |
| CleanRuns.TextCheckIsSafe | chisel_impl/src/main/scala/acal_lab09/PipelinedCPU/PiplinedCPU.scala:98-122 | no linking jump placed behind a load or store in the program text keeps every run out of risk |
| LinkExample.PipelineLosesLink | chisel_impl/src/main/scala/acal_lab09/PipelinedCPU/StageRegister/Reg_EXE.scala:35-47 | a load, a call and HCF: at every latency the pipeline halts with the return address lost, while the sequential machine has it |
| CleanRuns.HaltState | chisel_impl/src/main/scala/acal_lab09/PipelinedCPU/PiplinedCPU.scala:139-144 | at the first HCF registers and memory are those of the sequential run in front of its first HCF, whatever younger instructions are still in flight |
| CleanRuns.HaltsInCleanState | chisel_impl/src/main/scala/acal_lab09/PipelinedCPU/PiplinedCPU.scala:139-172 | if nothing retired was at risk that run loses nothing |
| Halting.HaltIsAbsorbing | chisel_impl/src/main/scala/acal_lab09/PipelinedCPU/StageRegister/Reg_WB.scala:29-44 | once asserted HCF stays asserted and no register of the register file ever changes; the data memory is what it was for two cycles and from then on for good what the slot held in MEM makes of it, which is a change only for a store |
| Halting.FrozenIff | chisel_impl/src/main/scala/acal_lab09/PipelinedCPU/StageRegister/Reg_MEM.scala:28-38 | the data memory is frozen behind the first HCF if and only if the slot held in MEM is no store or one that writes what is there already |
| Halting.StoreBehindHcf | chisel_impl/src/main/scala/acal_lab09/PipelinedCPU/StageRegister/Reg_MEM.scala:28-38 | a program of HCF and a byte store: at every latency the pipeline halts in cycle 4 with the memory it was given and has changed it two cycles later, unless the byte was zero |
| Progress.WaitShrinks | chisel_impl/src/main/scala/acal_lab09/PipelinedCPU/PiplinedCPU.scala:66-140 | a ranking over the memory counter, bubbles and stalls shrinks in every cycle in which no instruction enters WB |
| Progress.Throughput | chisel_impl/src/main/scala/acal_lab09/PipelinedCPU/PiplinedCPU.scala:66-140 | for every program and every point of its run before HCF, an instruction enters WB in any latency + 3 successive cycles |
| Progress.HaltsInTime | chisel_impl/src/main/scala/acal_lab09/PipelinedCPU/PiplinedCPU.scala:66-172 | total correctness: if the sequential machine reaches its first HCF after i instructions, none at risk, the pipeline asserts HCF within (i + 1)(latency + 3) cycles with exactly its registers and memory |
| Schedule.ScheduleLaw | chisel_impl/src/main/scala/acal_lab09/PipelinedCPU/PiplinedCPU.scala:64-167 | the exact schedule of every program before HCF, loads, stores, flushes and any latency of at least 3 included: in each cycle c, instruction i of the trace is in EXE, in MEM, in WB if and only if the law puts it there, and once it has left EXE it was lost if and only if the law says so; the law is a recursion over the instructions alone, without stages or signals |
| Schedule.LawfulStep | chisel_impl/src/main/scala/acal_lab09/PipelinedCPU/Controller/Controller.scala:335-365 | advancing one cycle keeps every slot where the law puts it, whether the cycle flushes, waits for memory, refills, waits for a register or lets an instruction enter |
| Schedule.RowsApart | chisel_impl/src/main/scala/acal_lab09/PipelinedCPU/PiplinedCPU.scala:64-140 | in the law itself instructions enter in order, one leaves EXE before a younger one enters, and MEM serves one at a time |
| Schedule.RowPrefix | chisel_impl/src/main/scala/acal_lab09/PipelinedCPU/PiplinedCPU.scala:64-140 | the law is causal: a row depends on the states up to its own instruction only |
| Timing.TimingLaw | chisel_impl/src/main/scala/acal_lab09/PipelinedCPU/Controller/Controller.scala:335-365 | while no load or store has entered EXE: instruction i is in EXE in cycle c if and only if c is the maximum of one behind the previous entry (three behind one that transfers elsewhere) and four behind every older instruction whose result it reads |
| Handshake.AcceptedOnce | chisel_impl/src/main/scala/acal_lab09/PipelinedCPU/Controller/Controller.scala:350-363 | the data memory accepts each trace load or store at most once |
| Handshake.ServedWasAccepted | chisel_impl/src/main/scala/acal_lab09/PipelinedCPU/PiplinedCPU.scala:118-144 | every load or store that has passed MEM, or is served there, was accepted in some earlier cycle |
| Handshake.WbInOrder | chisel_impl/src/main/scala/acal_lab09/PipelinedCPU/StageRegister/Reg_WB.scala:29-44 | WB sees trace instructions in order, each at most once, memory waits included |
| DataMem.RefinesAtomic | chisel_impl/src/main/scala/acal_lab09/Memory/DataMem.scala:15-124 | for every latency of at least 3 and every request stream the four-state machine is an atomic byte memory with a response delay: each request takes effect once, Valid rises when the response is due, with the atomic data |
| DataMem.ReadsCorrectIff | chisel_impl/src/main/scala/acal_lab09/Memory/DataMem.scala:28-124 | a held read is answered at cycle latency - 1 with the stored value for all memories if and only if the latency is at least 3 |
| DataMem.CounterNeverWraps | chisel_impl/src/main/scala/acal_lab09/Memory/DataMem.scala:19-124 | on every request stream the counter stays below the latency, which its log2Ceil width holds; it is 0 in Idle; in every busy cycle without Valid it grows by exactly one although it is incremented at its own width, and with Valid it returns to 0 |
| DataMem.ServingStep | chisel_impl/src/main/scala/acal_lab09/Memory/DataMem.scala:28-124 | a request held on the ports is carried to its response step by step, its effect present exactly when Valid rises |
| DataMem.HeldForGood | chisel_impl/src/main/scala/acal_lab09/Memory/DataMem.scala:28-124 | a request that is never taken off the ports is served over and over, and its effect is there from the second cycle on and never changes again |
| Rv32i.ImplementsIsaIff | chisel_impl/src/main/scala/acal_lab09/PipelinedCPU/DatapathModule/DatapathComponent/ImmGen.scala:20-52 | every encoded integer, control-transfer, load and store instruction does on every memory what sections 2.3 to 2.6 of the RISC-V Unprivileged ISA say if and only if its access is naturally aligned (to words for LBU and LHU; a load into x0 needs nothing) or its JALR target even; 15-bit addresses |
| Rv32i.ExecImplementsIsa | chisel_impl/src/main/scala/acal_lab09/PipelinedCPU/DatapathModule/Path_EXE.scala:35-61 | the if direction, over decode tables, immediates, ALU, comparator, next-PC and write-back selection together |
| Rv32i.Departs | chisel_impl/src/main/scala/acal_lab09/Memory/DataMem.scala:52-56 | for every unsupported encoding, a memory on which the processor does something else |
| Rv32i.IllegalStore | chisel_impl/src/main/scala/acal_lab09/Memory/DataMem.scala:60-124 | a store whose width field is none of the three writes a zero word at the aligned address |
| Rv32i.DecodeS | chisel_impl/src/main/scala/acal_lab09/PipelinedCPU/DatapathModule/DatapathComponent/ImmGen.scala:35-38 | decoding inverts encoding: S-type immediates |
| Rv32i.DecodeB | chisel_impl/src/main/scala/acal_lab09/PipelinedCPU/DatapathModule/DatapathComponent/ImmGen.scala:28-32 | decoding inverts encoding: B-type immediates |
| Rv32i.DecodeJ | chisel_impl/src/main/scala/acal_lab09/PipelinedCPU/DatapathModule/DatapathComponent/ImmGen.scala:44-48 | decoding inverts encoding: J-type fields and immediates |
| Rv32i.ShiftRightArithIsSar | chisel_impl/src/main/scala/acal_lab09/PipelinedCPU/DatapathModule/DatapathComponent/ALU.scala:30 | the arithmetic shift is the complement of a logical shift of the complement for negative operands |
| Rv32i.BranchHolds | chisel_impl/src/main/scala/acal_lab09/PipelinedCPU/Controller/Controller.scala:93-107 | the branch table with the comparator decides the six conditions |
| StageRegisters.RegIF.Clock | chisel_impl/src/main/scala/acal_lab09/PipelinedCPU/StageRegister/Reg_IF.scala:17-21 | hold or advance of the program counter |
| StageRegisters.RegID.Clock | chisel_impl/src/main/scala/acal_lab09/PipelinedCPU/StageRegister/Reg_ID.scala:23-32 | flush before hold before advance |
| StageRegisters.RegEXE.Clock | chisel_impl/src/main/scala/acal_lab09/PipelinedCPU/StageRegister/Reg_EXE.scala:35-59 | flush before memory stall before hazard stall before advance |
| StageRegisters.RegMEM.Clock | chisel_impl/src/main/scala/acal_lab09/PipelinedCPU/StageRegister/Reg_MEM.scala:28-38 | hold or advance |
| StageRegisters.RegWB.Clock | chisel_impl/src/main/scala/acal_lab09/PipelinedCPU/StageRegister/Reg_WB.scala:29-44 | halt holds, a memory wait inserts a bubble |
| StageRegisters.RegFile.Clock | chisel_impl/src/main/scala/acal_lab09/PipelinedCPU/DatapathModule/DatapathComponent/RegFile.scala:22-24 | the in-place write, x0 forced to zero, as the register update the proofs use |
| StageRegisters.DataMemory.Clock | chisel_impl/src/main/scala/acal_lab09/Memory/DataMem.scala:28-124 | the in-place four-state machine is the state function the memory results are about |
| PipelinedCpu.Top.Clock | chisel_impl/src/main/scala/acal_lab09/PipelinedCPU/PiplinedCPU.scala:64-167 | the wired modules, clocked once, are one step of the machine all pipeline results are about |
| PipelinedCpu.RunToHcf | chisel_impl/src/main/scala/acal_lab09/PipelinedCPU/PiplinedCPU.scala:64-172 | clocking the modules from reset ends within the bound, with the sequential registers and memory |
| FunctionalCpu.ZeroRegisterIff | src/riscv/libs/CPU.cc:55-133 | starting with zero in x0, the functional processor runs for n instructions like the machine that drops writes to x0 if and only if none of the instructions it is about to execute names x0 as destination and would write a value other than zero (sum, loaded value, link, upper immediate) |
| FunctionalCpu.TextKeepsZero | src/riscv/libs/CPU.cc:55-133 | if no instruction in memory that writes a register names x0, every run is that of the machine that drops writes to x0 |
| FunctionalCpu.JumpFillsX0 | src/riscv/libs/CPU.cc:102-105 | a jump without link register is such an instruction, unless its link is zero |
| SimulatorModules.Processor.ProcessInstr | src/riscv/libs/CPU.cc:55-133 | one instruction on the registers and memory in place is the step function, or nothing where the C++ has no meaning |
| SimulatorModules.Processor.CommitInstr | src/riscv/libs/CPU.cc:135-169 | a packet goes out and schedules the next event unless it is HCF, or is held back |
| SimulatorModules.Processor.ExecOneInstr | src/riscv/libs/CPU.cc:41-53 | fetch, execute, count and commit together |
| SimulatorModules.Processor.RetrySendInstPacket | src/riscv/libs/CPU.cc:171-195 | the retry of a held-back packet |
| SimulatorModules.BaseMemory.ReadData | src/riscv/libs/BaseMemory.cc:30-40 | the bounds-checked bytes at an address |
| SimulatorModules.BaseMemory.WriteData | src/riscv/libs/BaseMemory.cc:42-47 | bounds-checked copy, nothing else changed |
| SimulatorModules.BaseMemory.MemReadReqHandler | src/riscv/libs/DataMemory.cc:19-49 | sized little-endian read with sign or zero extension |
| SimulatorModules.BaseMemory.MemWriteReqHandler | src/riscv/libs/DataMemory.cc:51-86 | sized little-endian write |
| ByteMemory.LoadReadsLastWrites | src/riscv/libs/DataMemory.cc:19-86 | after any list of writes, overlapping or not, a load in bounds returns the extended little-endian value of the bytes last written |
| ByteMemory.LoadAfterStore | src/riscv/libs/DataMemory.cc:19-86 | a load of the stored size reads back the stored low bytes, extended |
| MemoryHistory.LoadsReadHistory | src/riscv/libs/Emulator.cc:460-475 | the same at every point of an assembled program's run, over the bytes of .byte, .half and .word, the markers of the first pass and the stores so far |
| PacketPipeline.PacketsConserved | src/riscv/libs/EXEStage.cc:41-55 | in every order of components within each tick: received packets, then pipe registers, port and held-back packet, are exactly the packets of the executed instructions in order, what WB received is a prefix, and neither failed-push error branch is taken |
| PacketPipeline.OneToken | src/riscv/libs/CPU.cc:135-195 | before HCF has gone out exactly one of a scheduled event and a held-back packet exists, afterwards neither; so no instruction is executed twice or skipped and the count is packets pushed plus packets held |
| Scoreboard.AdmissionDistance | src/riscv/libs/IFStage.cc:70-120 | whatever the port offers, a packet follows one it depends on (in the coded sense) by at least 3 ticks, and a taken branch by at least 2 |
| Scoreboard.AdmittedIsShadowed | src/riscv/libs/IFStage.cc:112-120 | a packet admitted in the last two ticks is in a shadow register |
| Scoreboard.AdmissionLaw | src/riscv/libs/IFStage.cc:70-120 | with a packet always waiting, packet i is admitted in tick k if and only if k is the maximum of the previous admission + 1 (+ 2 if taken) and + 3 behind every packet it depends on |
| SimulatorRuns.ArrivalLaw | src/riscv/libs/EXEStage.cc:19-46 | in the usual order of a tick the processor keeps IF supplied, so packet i reaches WB exactly two ticks behind the tick the law admits it in |
| SimulatorRuns.SimulationDrains | src/riscv/libs/TopPipeRegisterManager.cc:19-25 | when the second tick behind the admission of HCF is over, WB has every packet, nothing is left anywhere and no event is scheduled |
| SimulatorRuns.UsualOrderIsARun | src/riscv/libs/SOC.cc:58-71 | the usual order is one of the orders the conservation results cover |
| SimulatorModules.PipeRegisterManager.RunSyncPipeRegister | src/riscv/libs/TopPipeRegisterManager.cc:19-25 | the loop moves every register across once, however many there are |
| SimulatorModules.IFStage.Step | src/riscv/libs/IFStage.cc:70-120 | stall, admission and shadow updates in place |
| SimulatorModules.EXEStage.Step | src/riscv/libs/EXEStage.cc:19-55 | pops, passes on and remembers a packet |
| SimulatorModules.WBStage.Step | src/riscv/include/WBStage.hh:33-47 | takes the packet out of the pipeline |
| SimulatorModules.SOCTop.Tick | src/riscv/include/SOCTop.hh:80-118 | the wired modules, stepped in the usual order, are one tick of the simulator |
| SimulatorModules.RunToCompletion | src/riscv/include/SOCTop.hh:80-118 | stepping until nothing is left ends within the ticks of the law with every packet of the run received in order |
| AssemblerProof.AssemblingPreservesMeaning | src/riscv/libs/Emulator.cc:496-629 | whenever n source lines have a meaning, the processor running the assembled memory reaches the same registers, memory and line in exactly the counted number of steps; forward references, li, la, mv, j, ret, bnez, beqz included |
| AssemblerProof.LineSimulates | src/riscv/libs/Emulator.cc:152-458 | the same for one line |
| AssemblerStops.LineStopsIff | src/riscv/libs/Emulator.cc:152-458 | the converse for one line: the source machine has no step at an instruction if and only if the processor has none, or its step leads through a register (ret or JALR) to an address where no line has an instruction |
| AssemblerStops.ProcessorStopsIff | src/riscv/libs/CPU.cc:55-133 | the processor has no step at a line exactly when the line shifts by 32 or more or accesses memory out of bounds |
| AssemblerStops.RunStopsIff | src/riscv/libs/Emulator.cc:496-629 | the converse for whole runs: after n lines source machine and processor are at the same place, and the source machine cannot go on if and only if it has run into a directive or off its lines, or the processor cannot go on or leaves the instructions through a register |
| AssemblerStops.RunsOffEnd | src/riscv/libs/Emulator.cc:496-629 | behind the last instruction of the text section the source machine stops, while the processor steps over a blank slot changing only its counter, or has nothing to fetch |
| AssemblerStops.TargetDefined | src/riscv/libs/Emulator.cc:631-637 | every label an instruction of an assembled program uses is defined |
| AssemblerProof.HaltsTogether | src/riscv/libs/Emulator.cc:258 | the processor is at HCF exactly when the source is at its halt line |
| AssemblerProof.LabelsResolve | src/riscv/libs/Emulator.cc:631-637 | looking a label up gives the address of its first definition, before or behind its use |
| AssemblerProof.ParseLays | src/riscv/libs/Emulator.cc:496-550 | the first pass lays every instruction in its own slots and nothing anywhere else |
| AssemblerProof.SlotIsExpected | src/riscv/libs/Emulator.cc:556-629 | both passes together leave the expected fields in a slot, labels filled in, immediates sign extended |
| AssemblerProof.PairLoads | src/riscv/libs/Emulator.cc:321-386 | the LUI and ADDI of li and la leave exactly the 32-bit value, for every word |
| AssemblerProof.PairRebuilds | src/riscv/libs/Emulator.cc:331-357 | no carry correction is needed because the raw twelve low bits are added |
| AssemblerProof.SignExtendParsed | src/riscv/libs/Emulator.cc:487-490 | sign extension of every accepted twelve-bit immediate |
| SourceMachine.OneSectionNoOverlap | src/riscv/libs/Emulator.cc:126-150 | instructions of one text section never share a slot |
| Emulator.Emulator.ParseDataElement | src/riscv/libs/Emulator.cc:460-475 | the loop over the values of a directive is the pure pass, or stops with its error |
| AssemblerLimits.ElementReadsBackIff | src/riscv/libs/Emulator.cc:460-475 | an accepted data element, loaded with its size, is the value written if and only if that is from 0 to 2^n - 1 (without sign) or from -2^(n-1) to 2^(n-1) - 1 (with sign) |
| AssemblerLimits.TruncatedByte | src/riscv/libs/Emulator.cc:460-475 | a byte of -300 is accepted and reads back as 212 |
| AssemblerLimits.JumpCheckIff | src/riscv/libs/Emulator.cc:579-591 | whatever the slot held in its third immediate, a jump written there is refused as out of reach exactly when that immediate is 2^21 or more from the jump itself |
| AssemblerLimits.JumpCheckIgnoresTarget | src/riscv/libs/Emulator.cc:579-591 | the check accepts a jump with one place of its label if and only if it accepts it with any other |
| AssemblerLimits.JumpCheckMisses | src/riscv/libs/Emulator.cc:579-591 | in any slot whose third immediate is zero, a jump over 2^30 bytes that is accepted, and a jump to itself that is refused |
| AssemblerLimits.BranchCheckIff | src/riscv/libs/Emulator.cc:606-625 | a branch is refused exactly when its target is 2^13 or more away |
| Emulator.Emulator.ParseInstr | src/riscv/libs/Emulator.cc:152-262 | fills the slots of one instruction and marks the memory under them |
| Emulator.Emulator.ParseAll | src/riscv/libs/Emulator.cc:496-550 | the loop over lines is the first pass |
| Emulator.Emulator.FindLabel | src/riscv/libs/Emulator.cc:631-637 | the linear search returns the first definition |
| Emulator.Emulator.NormalizeSlot | src/riscv/libs/Emulator.cc:559-627 | label resolution and range checks of one slot in place |
| Emulator.Emulator.NormalizeLabels | src/riscv/libs/Emulator.cc:556-629 | the loop over slots is the second pass |
| Emulator.Emulator.AssembleLines | src/riscv/libs/SOC.cc:52-53 | both passes in place give what the assembler results are about |
| CrossModel.StepIsIsaIff | src/riscv/libs/CPU.cc:55-133 | the simulator against RV32I, both directions: from agreeing states, with the next place and access within 15 bits and no stale value read from x0, its step is the ISA step of the encoding if and only if the instruction is no SLTU whose sum differs from the comparison, no register shift by 32 or more, and no JALR that overwrites its own base with another value |
| CrossModel.StaleZeroIff | src/riscv/libs/CPU.cc:55-133 | a nonzero value left in slot 0, exactly: if the instruction with x0 read as zero is in reach and as the ISA has it, the simulator's step is the ISA step if and only if the value does not turn a branch that leads elsewhere, is not the base of a JALR, changes nothing a store leaves, and neither changes nor takes away the meaning of what is written to another register |
| CrossModel.RegArithIff | src/riscv/libs/CPU.cc:56-82 | which register operations compute what the ISA says on which operands, and which have no meaning |
| CrossModel.StepJalr | src/riscv/libs/CPU.cc:106-109 | JALR goes where the ISA goes exactly when its link register is not its base or already holds the link |
| CrossModel.StepIsIsa | src/riscv/libs/CPU.cc:55-133 | an instruction that fits, by these two conditions, is the ISA step of any encoding of it |
| CrossRuns.RunsAgree | src/riscv/libs/CPU.cc:55-133 | both models run alike for as long as the instructions fit |
| CrossRuns.ModelsAgree | src/riscv/libs/CPU.cc:55-133 | the pipeline, holding an encoding of the program, halts in bounded time with registers x1 to x31 and the data memory of the functional processor when it has processed HCF; plain jumps and returns, which leave their link in slot 0 there, included |
| CrossExample.BothEndAlike | src/riscv/libs/CPU.cc:55-133 | a concrete program with a store, a load, a taken branch and a call, and its encoding, meet every condition of that result: at every latency both models halt with the same three registers and memory |
| EndToEnd.SimulatorRunsSource | src/riscv/libs/SOC.cc:52-61 | an assembled program, started as the simulator starts it, is at HCF when the source machine halts, with its registers and memory |
| EndToEnd.HardwareRunsSource | src/riscv/libs/Emulator.cc:492-629 | from source lines to the pipeline: the hardware holding an encoding of what was assembled halts with registers x1 to x31 and the memory of the source machine, j and ret included as long as the link they leave in slot 0 does not show in a later instruction |

## Left out

- Timing.TimingLaw: the simple form is only true up to the first load or store that enters EXE; the law that covers them is `Schedule.ScheduleLaw`.
- Rv32i.ImplementsIsaIff: FENCE, ECALL, EBREAK and CSR encodings are not part of the hardware's decode tables and not modelled.
- AssemblerProof.AssemblingPreservesMeaning: for programs whose instructions do not share slots (one text section is enough) and runs that have a meaning at source level; several overlapping text sections are assembled by the model but not compared.
- CrossRuns.ModelsAgree: compares registers x1 to x31 and the memory the hardware has; the cycle counts of the two models differ by design.
- The parameters of the hardware are fixed as the repository instantiates them: 15-bit addresses, 32-bit data; the latency is a parameter.
- Registers of the data memory without a reset value are taken as zero at reset; they are written before they are read.
- The port and the pipe register of the simulation framework are not part of the repository; they are modelled as a one-entry queue with a retry callback and as a two-half register. The framework's event queue, threads and packet recycling are not modelled; packets are values whose taken mark is set when they are created.
- Operands of an instruction slot that nothing has written: the C++ leaves their registers and immediates uninitialised, the assembler model starts them at zero. Only the range check of JAL reads one of them; `AssemblerLimits.JumpCheckIff` is stated for any value there.
- Splitting lines into tokens, reading register names and numbers, line numbers and source texts kept for messages. The model starts from parsed lines with registers 0 to 31.
- Writes past the ends of the two memories by the assembler, which the C++ does not check, stop the model with an error of its own; so do undefined labels.
- Printing, logging, hex files, test benches, generated Verilog, build files, the template generator, and the monitor outputs of the processor.
- The DMA and the systolic array that the repository's README describes: no source for them is among its files.
- The instruction memory's Valid output, which is tied to true, and the unused stages of the simulator (empty classes).
