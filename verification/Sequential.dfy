/** The one-instruction-at-a-time machine the pipeline is measured against. */
module Sequential {
  import opened Words
  import opened RiscvDefs
  import opened Datapath
  import opened Controller
  import opened DM = DataMem

  datatype Arch = Arch(pc: Pc, regs: Regs, mem: Bytes)

  function Inst(im: Bytes, a: Arch): Word { Fetch(im, a.pc) }

  function Op1(im: Bytes, a: Arch): Word { ReadReg(a.regs, Rs1(Inst(im, a))) }
  function Op2(im: Bytes, a: Arch): Word { ReadReg(a.regs, Rs2(Inst(im, a))) }

  function AluResult(im: Bytes, a: Arch): Word {
    var inst := Inst(im, a);
    AluOut(inst, a.pc, ImmGen(ImmSel(inst), inst), Op1(im, a), Op2(im, a))
  }

  predicate Taken(im: Bytes, a: Arch) {
    IsControl(Inst(im, a)) && BranchTaken(Inst(im, a), Op1(im, a), Op2(im, a))
  }

  function NextPc(im: Bytes, a: Arch): Pc {
    if Taken(im, a) then Low15(AluResult(im, a)) else Plus4(a.pc)
  }

  /** A transfer to somewhere other than the next word. */
  predicate Away(im: Bytes, a: Arch) {
    Taken(im, a) && NextPc(im, a) != Plus4(a.pc)
  }

  function LoadData(im: Bytes, a: Arch): Word {
    LoadValue(a.mem, Length(Inst(im, a)), Low15(AluResult(im, a)))
  }

  function Result(im: Bytes, a: Arch): Word {
    WriteBack(Inst(im, a), Plus4(a.pc), AluResult(im, a), LoadData(im, a))
  }

  function RegsAfter(im: Bytes, a: Arch): Regs {
    NextRegs(a.regs, WritesRd(Inst(im, a)), Rd(Inst(im, a)), Result(im, a))
  }

  function MemAfter(im: Bytes, a: Arch): Bytes {
    if IsStore(Inst(im, a))
    then StoreBytes(a.mem, Length(Inst(im, a)), Low15(AluResult(im, a)), Op2(im, a))
    else a.mem
  }

  /** One instruction. HCF does nothing here; a run is cut at the first one. A lost instruction
      redirects the program counter but leaves registers and memory alone. */
  function Exec(im: Bytes, a: Arch, lost: bool): Arch {
    if lost then Arch(NextPc(im, a), a.regs, a.mem)
    else Arch(NextPc(im, a), RegsAfter(im, a), MemAfter(im, a))
  }

  function Start(data: Bytes): Arch { Arch(0, ZeroRegs(), data) }

  /** State after one instruction per element of lost. */
  function Trace(im: Bytes, data: Bytes, lost: seq<bool>): Arch {
    if lost == [] then Start(data)
    else Exec(im, Trace(im, data, lost[..|lost| - 1]), lost[|lost| - 1])
  }

  /** State after n instructions with none lost. */
  function Clean(im: Bytes, data: Bytes, n: nat): Arch {
    if n == 0 then Start(data) else Exec(im, Clean(im, data, n - 1), false)
  }
}
