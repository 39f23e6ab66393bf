/** The clocked modules of the processor, each with the registers it owns. */
module StageRegisters {
  import opened Words
  import opened RiscvDefs
  import P = Pipeline
  import M = DataMem

  class RegIF {
    var pcReg: Pc

    constructor ()
      ensures pcReg == 0
    {
      pcReg := 0;
    }

    method Clock(stall: bool, nextPc: Pc)
      modifies this
      ensures pcReg == if stall then old(pcReg) else nextPc
    {
      if !stall {
        pcReg := nextPc;
      }
    }
  }

  class RegID {
    var instReg: Word
    var pcReg: Pc

    constructor ()
      ensures View() == P.ID_BUBBLE
    {
      instReg, pcReg := 0, 0;
    }

    function View(): P.IdReg
      reads this
    {
      P.IdReg(instReg, pcReg)
    }

    method Clock(flush: bool, stall: bool, pc: Pc, inst: Word)
      modifies this
      ensures View() == if flush then P.ID_BUBBLE else if stall then old(View()) else P.IdReg(inst, pc)
    {
      if flush {
        instReg, pcReg := 0, 0;
      } else if !stall {
        instReg, pcReg := inst, pc;
      }
    }
  }

  class RegEXE {
    var pcReg: Pc
    var instReg: Word
    var immReg: Word
    var rs1Reg: Word
    var rs2Reg: Word

    constructor ()
      ensures View() == P.EX_BUBBLE
    {
      pcReg, instReg, immReg, rs1Reg, rs2Reg := 0, 0, 0, 0, 0;
    }

    function View(): P.ExReg
      reads this
    {
      P.ExReg(instReg, pcReg, immReg, rs1Reg, rs2Reg)
    }

    /** Flush before memory stall before hazard stall before advance. */
    method Clock(flush: bool, stallDH: bool, stallMA: bool, next: P.ExReg)
      modifies this
      ensures View() == if flush then P.EX_BUBBLE else if stallMA then old(View())
                        else if stallDH then P.EX_BUBBLE else next
    {
      if flush {
        immReg, instReg, pcReg, rs1Reg, rs2Reg := 0, 0, 0, 0, 0;
      } else if stallMA {
      } else if stallDH {
        immReg, instReg, pcReg, rs1Reg, rs2Reg := 0, 0, 0, 0, 0;
      } else {
        instReg, immReg, pcReg := next.inst, next.imm, next.pc;
        rs1Reg, rs2Reg := next.rs1, next.rs2;
      }
    }
  }

  class RegMEM {
    var instReg: Word
    var pcReg: Pc
    var aluReg: Word
    var wdataReg: Word

    constructor ()
      ensures View() == P.MEM_BUBBLE
    {
      instReg, pcReg, aluReg, wdataReg := 0, 0, 0, 0;
    }

    function View(): P.MemReg
      reads this
    {
      P.MemReg(instReg, pcReg, aluReg, wdataReg)
    }

    method Clock(stall: bool, next: P.MemReg)
      modifies this
      ensures View() == if stall then old(View()) else next
    {
      if !stall {
        instReg, pcReg, aluReg, wdataReg := next.inst, next.pc, next.alu, next.wdata;
      }
    }
  }

  class RegWB {
    var pcPlus4Reg: Pc
    var instReg: Word
    var aluOutReg: Word
    var ldDataReg: Word

    constructor ()
      ensures View() == P.WB_BUBBLE
    {
      pcPlus4Reg, instReg, aluOutReg, ldDataReg := 0, 0, 0, 0;
    }

    function View(): P.WbReg
      reads this
    {
      P.WbReg(instReg, pcPlus4Reg, aluOutReg, ldDataReg)
    }

    /** Halt holds, a memory wait inserts a bubble. */
    method Clock(stall: bool, stallMA: bool, next: P.WbReg)
      modifies this
      ensures View() == if stall then old(View()) else if stallMA then P.WB_BUBBLE else next
    {
      if stall {
      } else if stallMA {
        pcPlus4Reg, instReg, aluOutReg, ldDataReg := 0, 0, 0, 0;
      } else {
        pcPlus4Reg, instReg, aluOutReg, ldDataReg := next.pc4, next.inst, next.alu, next.ld;
      }
    }
  }

  class RegFile {
    const regs: array<Word>

    constructor ()
      ensures fresh(regs) && regs.Length == XLEN_REGS && regs[..] == ZeroRegs()
    {
      regs := new Word[XLEN_REGS](_ => 0);
    }

    method Clock(wen: bool, waddr: bv5, wdata: Word)
      requires regs.Length == XLEN_REGS
      modifies regs
      ensures regs[..] == NextRegs(old(regs[..]), wen, waddr, wdata)
    {
      if wen {
        regs[waddr as int] := wdata;
      }
      regs[0] := 0;
    }
  }

  /** The four-state latency machine with its byte array written in place. */
  class DataMemory {
    const latency: nat
    const memory: array<bv8>
    var state: M.State
    var counter: nat
    var dataReg: Word
    var readAddrReg: Pc
    var writeAddrReg: Pc
    var writeDataReg: Word
    var lengthReg: bv4

    constructor (latency: nat, data: Bytes)
      requires latency > 0
      ensures this.latency == latency && fresh(memory) && memory.Length == MEM_SIZE
      ensures View() == M.Mem(M.Idle, 0, 0, 0, 0, 0, 0, data)
    {
      this.latency := latency;
      memory := new bv8[MEM_SIZE](i requires 0 <= i < MEM_SIZE => data[i]);
      state, counter, dataReg := M.Idle, 0, 0;
      readAddrReg, writeAddrReg, writeDataReg, lengthReg := 0, 0, 0, 0;
      new;
      assert memory[..] == data;
    }

    predicate Valid()
      reads this, memory
    {
      latency > 0 && memory.Length == MEM_SIZE
    }

    function View(): M.Mem
      requires memory.Length == MEM_SIZE
      reads this, memory
    {
      M.Mem(state, counter, dataReg, readAddrReg, writeAddrReg, writeDataReg, lengthReg, memory[..])
    }

    method StoreByte(a: Pc, v: bv8)
      requires memory.Length == MEM_SIZE
      modifies memory
      ensures memory[..] == SetByte(old(memory[..]), a, v)
    {
      hide Index;
      memory[Index(a)] := v;
    }

    method Store()
      requires memory.Length == MEM_SIZE
      modifies memory
      ensures memory[..] == M.StoreBytes(old(memory[..]), lengthReg, writeAddrReg, writeDataReg)
    {
      hide SetByte, M.Aligned, M.ByteOf, M.StoreWord;
      var a := M.Aligned(lengthReg, writeAddrReg);
      if lengthReg == BYTE {
        StoreByte(a, M.ByteOf(writeDataReg, 0));
      } else if lengthReg == HALF {
        StoreByte(a, M.ByteOf(writeDataReg, 0));
        StoreByte(a + 1, M.ByteOf(writeDataReg, 8));
      } else {
        StoreWord(a, if lengthReg == WORD then writeDataReg else 0);
      }
    }

    method StoreWord(a: Pc, wd: Word)
      requires memory.Length == MEM_SIZE
      modifies memory
      ensures memory[..] == M.StoreWord(old(memory[..]), a, wd)
    {
      hide SetByte, M.ByteOf;
      StoreByte(a, M.ByteOf(wd, 0));
      StoreByte(a + 1, M.ByteOf(wd, 8));
      StoreByte(a + 2, M.ByteOf(wd, 16));
      StoreByte(a + 3, M.ByteOf(wd, 24));
    }

    method Clock(req: M.Request)
      requires Valid()
      modifies this, memory
      ensures Valid() && View() == M.Next(latency, old(View()), req)
    {
      hide M.LoadValue, M.StoreBytes, M.Bump;
      var valid := counter == latency - 1;
      var bumped := M.Bump(latency, counter);
      match state {
        case Idle =>
          if req.memR {
            readAddrReg, lengthReg, counter, state := req.raddr, req.length, 1, M.Read;
          } else if req.memW {
            writeAddrReg, writeDataReg, lengthReg := req.waddr, req.wdata, req.length;
            counter, state := 1, M.Write;
          } else {
            counter := 0;
          }
          if valid {
            state := M.Idle;
          }
        case Read =>
          dataReg := M.LoadValue(memory[..], lengthReg, readAddrReg);
          Finish(valid, bumped);
        case Write =>
          Store();
          Finish(valid, bumped);
        case Wait =>
          Finish(valid, bumped);
      }
    }

    /** Common ending of the three busy states. */
    method Finish(valid: bool, bumped: nat)
      modifies this
      ensures state == (if valid then M.Idle else M.Wait) && counter == (if valid then 0 else bumped)
      ensures dataReg == old(dataReg) && readAddrReg == old(readAddrReg) && writeAddrReg == old(writeAddrReg)
      ensures writeDataReg == old(writeDataReg) && lengthReg == old(lengthReg)
    {
      if valid {
        state, counter := M.Idle, 0;
      } else {
        state, counter := M.Wait, bumped;
      }
    }
  }
}
