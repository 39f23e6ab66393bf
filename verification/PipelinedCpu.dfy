/** The processor as wired modules: each edge drives every stage register from one set of signals. */
module PipelinedCpu {
  import opened Words
  import opened RiscvDefs
  import opened Controller
  import opened StageRegisters
  import P = Pipeline
  import M = DataMem
  import S = Sequential
  import C = CleanRuns
  import Progress

  class Top {
    const im: Bytes
    const stageIF: RegIF
    const stageID: RegID
    const stageEXE: RegEXE
    const stageMEM: RegMEM
    const stageWB: RegWB
    const rf: RegFile
    const dm: DataMemory

    constructor (latency: nat, im: Bytes, data: Bytes)
      requires latency > 0
      ensures Valid() && this.im == im && dm.latency == latency && View() == P.Reset(data)
      ensures fresh(stageIF) && fresh(stageID) && fresh(stageEXE) && fresh(stageMEM) && fresh(stageWB)
      ensures fresh(rf) && fresh(rf.regs) && fresh(dm) && fresh(dm.memory)
    {
      this.im := im;
      stageIF := new RegIF();
      stageID := new RegID();
      stageEXE := new RegEXE();
      stageMEM := new RegMEM();
      stageWB := new RegWB();
      rf := new RegFile();
      dm := new DataMemory(latency, data);
    }

    predicate Valid()
      reads dm, dm.memory
    {
      dm.Valid() && rf.regs.Length == XLEN_REGS
    }

    /** Every register of the processor and its data memory, as one value. */
    function View(): P.Cpu
      requires Valid()
      reads stageIF, stageID, stageEXE, stageMEM, stageWB, rf.regs, dm, dm.memory
    {
      P.Cpu(stageIF.pcReg, stageID.View(), stageEXE.View(), stageMEM.View(), stageWB.View(), rf.regs[..], dm.View())
    }

    /** One clock edge: the signals of the cycle, then every register from them. */
    method Clock()
      requires Valid()
      modifies stageIF, stageID, stageEXE, stageMEM, stageWB, rf.regs, dm, dm.memory
      ensures Valid() && View() == P.Step(dm.latency, im, old(View()))
    {
      hide P.NextIf, P.NextId, P.NextEx, P.NextMe, P.NextWb, NextRegs, P.Hcf, P.StallDH, P.StallMA, P.Flush, M.Next,
        WritesRd, P.WbData, P.MemRequest, Rd;
      var s := View();
      var hcf, stallDH := P.Hcf(s), P.StallDH(s);
      var stallMA, flush := P.StallMA(dm.latency, s), P.Flush(s);
      ClockFront(s, hcf, stallDH, stallMA, flush);
      ClockBack(s, hcf, stallMA);
      rf.Clock(WritesRd(s.wb.inst), Rd(s.wb.inst), P.WbData(s));
      dm.Clock(P.MemRequest(s));
    }

    /** IF, ID and EXE registers. */
    method ClockFront(s: P.Cpu, hcf: bool, stallDH: bool, stallMA: bool, flush: bool)
      requires stageIF.pcReg == s.ifPc && stageID.View() == s.id && stageEXE.View() == s.ex
      requires hcf == P.Hcf(s) && stallDH == P.StallDH(s) && flush == P.Flush(s)
      requires stallMA == P.StallMA(dm.latency, s)
      modifies stageIF, stageID, stageEXE
      ensures stageIF.pcReg == P.NextIf(dm.latency, s)
      ensures stageID.View() == P.NextId(dm.latency, im, s)
      ensures stageEXE.View() == P.NextEx(dm.latency, s)
    {
      hide P.Hcf, P.StallDH, P.StallMA, P.Flush, Fetch, P.ExTarget, Plus4, P.Imm, ReadReg, Rs1, Rs2;
      var stall := (hcf || stallDH || stallMA) && !flush;
      var operands := P.ExReg(s.id.inst, s.id.pc, P.Imm(s.id.inst),
                              ReadReg(s.regs, Rs1(s.id.inst)), ReadReg(s.regs, Rs2(s.id.inst)));
      stageIF.Clock(stall, P.NextPc(s));
      stageID.Clock(flush, stall, s.ifPc, Fetch(im, s.ifPc));
      stageEXE.Clock(flush, hcf || stallDH, stallMA, operands);
    }

    /** MEM and WB registers. */
    method ClockBack(s: P.Cpu, hcf: bool, stallMA: bool)
      requires stageMEM.View() == s.me && stageWB.View() == s.wb
      requires hcf == P.Hcf(s) && stallMA == P.StallMA(dm.latency, s)
      modifies stageMEM, stageWB
      ensures stageMEM.View() == P.NextMe(dm.latency, s)
      ensures stageWB.View() == P.NextWb(dm.latency, s)
    {
      hide P.Hcf, P.StallMA, P.ExAlu, Plus4;
      stageMEM.Clock(hcf || stallMA, P.MemReg(s.ex.inst, s.ex.pc, P.ExAlu(s), s.ex.rs2));
      stageWB.Clock(hcf, stallMA, P.WbReg(s.me.inst, Plus4(s.me.pc), s.me.alu, s.dm.dataReg));
    }
  }

  /** Clocking a processor from reset until HCF is asserted. If the sequential run reaches
      HCF after i instructions, none of them at risk, the loop ends within its cycle bound and leaves the
      sequential registers and memory. */
  method RunToHcf(latency: nat, im: Bytes, data: Bytes, ghost i: nat) returns (regs: Regs, mem: Bytes, cycles: nat)
    requires latency >= 3 && C.NoneAtRisk(latency, im, data, i) && Progress.CleanHalt(im, data, i)
    ensures cycles <= (i + 1) * (latency + 3)
    ensures regs == S.Clean(im, data, i).regs && mem == S.Clean(im, data, i).mem
  {
    hide P.Step, P.Hcf, S.Clean, C.NoneAtRisk, Progress.CleanHalt;
    var cpu := new Top(latency, im, data);
    Progress.HaltsInTime(latency, im, data, i);
    ghost var n: nat :| n <= (i + 1) * (latency + 3) && Progress.HaltsWith(latency, im, data, n, S.Clean(im, data, i));
    cycles := 0;
    while !P.Hcf(cpu.View())
      invariant fresh(cpu.stageIF) && fresh(cpu.stageID) && fresh(cpu.stageEXE) && fresh(cpu.stageMEM)
      invariant fresh(cpu.stageWB) && fresh(cpu.rf.regs) && fresh(cpu.dm) && fresh(cpu.dm.memory)
      invariant cpu.Valid() && cpu.dm.latency == latency && cpu.im == im
      invariant cpu.View() == P.At(latency, im, data, cycles)
      invariant cycles <= n
      decreases n - cycles
    {
      cpu.Clock();
      cycles := cycles + 1;
      NotPastHalt(latency, im, data, n, cycles);
    }
    FirstHaltOnly(latency, im, data, n, cycles);
    regs, mem := cpu.rf.regs[..], cpu.dm.memory[..];
  }

  lemma NotPastHalt(latency: nat, im: Bytes, data: Bytes, n: nat, cycles: nat)
    requires latency > 0 && C.HaltsAt(latency, im, data, n) && 1 <= cycles <= n + 1
    requires !P.Hcf(P.At(latency, im, data, cycles - 1))
    ensures cycles <= n
  {
    hide P.At, P.Hcf;
  }

  lemma FirstHaltOnly(latency: nat, im: Bytes, data: Bytes, n: nat, cycles: nat)
    requires latency > 0 && C.HaltsAt(latency, im, data, n) && cycles <= n
    requires P.Hcf(P.At(latency, im, data, cycles))
    ensures cycles == n
  {
    hide P.At, P.Hcf;
  }
}
