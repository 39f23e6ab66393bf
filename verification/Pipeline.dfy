/** The five-stage pipeline and its data memory as one clocked machine on values. */
module Pipeline {
  import opened Words
  import opened RiscvDefs
  import opened Datapath
  import opened Controller
  import DataMem

  datatype IdReg = IdReg(inst: Word, pc: Pc)
  datatype ExReg = ExReg(inst: Word, pc: Pc, imm: Word, rs1: Word, rs2: Word)
  datatype MemReg = MemReg(inst: Word, pc: Pc, alu: Word, wdata: Word)
  datatype WbReg = WbReg(inst: Word, pc4: Pc, alu: Word, ld: Word)

  const ID_BUBBLE := IdReg(0, 0)
  const EX_BUBBLE := ExReg(0, 0, 0, 0, 0)
  const MEM_BUBBLE := MemReg(0, 0, 0, 0)
  const WB_BUBBLE := WbReg(0, 0, 0, 0)

  /** Every register of the processor and of its data memory. */
  datatype Cpu = Cpu(ifPc: Pc, id: IdReg, ex: ExReg, me: MemReg, wb: WbReg, regs: Regs, dm: DataMem.Mem)

  // ----- Signals of one cycle -----

  predicate Hcf(s: Cpu) { IsHcf(s.wb.inst) }

  function ExAlu(s: Cpu): Word { AluOut(s.ex.inst, s.ex.pc, s.ex.imm, s.ex.rs1, s.ex.rs2) }

  function ExTarget(s: Cpu): Pc { Low15(ExAlu(s)) }

  /** Predict_Miss, which is Flush_BH: a taken transfer whose target is not already in ID. */
  predicate Flush(s: Cpu) {
    IsControl(s.ex.inst) && BranchTaken(s.ex.inst, s.ex.rs1, s.ex.rs2) && s.id.pc != ExTarget(s)
  }

  /** Any of the three read-after-write stalls. */
  predicate StallDH(s: Cpu) {
    Overlap(s.id.inst, s.ex.inst) || Overlap(s.id.inst, s.me.inst) || Overlap(s.id.inst, s.wb.inst)
  }

  /** The instruction in MEM waits for the data memory. */
  predicate StallMA(latency: nat, s: Cpu) {
    !DataMem.Valid(latency, s.dm) && IsMem(s.me.inst)
  }

  function MemRequest(s: Cpu): DataMem.Request {
    var addr := Low15(s.me.alu);
    DataMem.Request(IsLoad(s.me.inst), IsStore(s.me.inst), Length(s.me.inst), addr, addr, s.me.wdata)
  }

  function WbData(s: Cpu): Word { WriteBack(s.wb.inst, s.wb.pc4, s.wb.alu, s.wb.ld) }

  function Imm(inst: Word): Word { ImmGen(ImmSel(inst), inst) }

  // ----- Next value of each stage register -----

  /** Stall input of the IF and ID registers. */
  predicate FrontStall(latency: nat, s: Cpu) {
    (Hcf(s) || StallDH(s) || StallMA(latency, s)) && !Flush(s)
  }

  function NextPc(s: Cpu): Pc { if Flush(s) then ExTarget(s) else Plus4(s.ifPc) }

  function NextIf(latency: nat, s: Cpu): Pc {
    if FrontStall(latency, s) then s.ifPc else NextPc(s)
  }

  function NextId(latency: nat, im: Bytes, s: Cpu): IdReg {
    if Flush(s) then ID_BUBBLE
    else if FrontStall(latency, s) then s.id
    else IdReg(Fetch(im, s.ifPc), s.ifPc)
  }

  function NextEx(latency: nat, s: Cpu): ExReg {
    if Flush(s) then EX_BUBBLE
    else if StallMA(latency, s) then s.ex
    else if Hcf(s) || StallDH(s) then EX_BUBBLE
    else ExReg(s.id.inst, s.id.pc, Imm(s.id.inst),
               ReadReg(s.regs, Rs1(s.id.inst)), ReadReg(s.regs, Rs2(s.id.inst)))
  }

  function NextMe(latency: nat, s: Cpu): MemReg {
    if Hcf(s) || StallMA(latency, s) then s.me
    else MemReg(s.ex.inst, s.ex.pc, ExAlu(s), s.ex.rs2)
  }

  function NextWb(latency: nat, s: Cpu): WbReg {
    if Hcf(s) then s.wb
    else if StallMA(latency, s) then WB_BUBBLE
    else WbReg(s.me.inst, Plus4(s.me.pc), s.me.alu, s.dm.dataReg)
  }

  function NextRf(s: Cpu): Regs {
    NextRegs(s.regs, WritesRd(s.wb.inst), Rd(s.wb.inst), WbData(s))
  }

  /** One clock edge of the whole machine. */
  function Step(latency: nat, im: Bytes, s: Cpu): Cpu
    requires latency > 0
  {
    Cpu(NextIf(latency, s), NextId(latency, im, s), NextEx(latency, s), NextMe(latency, s),
        NextWb(latency, s), NextRf(s), DataMem.Next(latency, s.dm, MemRequest(s)))
  }

  /** Reset state over an initial data memory. */
  function Reset(data: Bytes): Cpu {
    Cpu(0, ID_BUBBLE, EX_BUBBLE, MEM_BUBBLE, WB_BUBBLE, ZeroRegs(),
        DataMem.Mem(DataMem.Idle, 0, 0, 0, 0, 0, 0, data))
  }

  /** State at the start of cycle n. */
  function At(latency: nat, im: Bytes, data: Bytes, n: nat): Cpu
    requires latency > 0
  {
    if n == 0 then Reset(data) else Step(latency, im, At(latency, im, data, n - 1))
  }

  /** HCF is not in WB before cycle n. */
  ghost predicate RunsTo(latency: nat, im: Bytes, data: Bytes, n: nat)
    requires latency > 0
  {
    forall c: nat :: c < n ==> !Hcf(At(latency, im, data, c))
  }
}
