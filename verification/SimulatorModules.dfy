/** The simulator's modules, each with the fields it updates in place. */
module SimulatorModules {
  import opened Words
  import opened Numbers
  import opened DataStruct
  import F = FunctionalCpu
  import M = ByteMemory
  import opened P = PacketPipeline
  import R = SimulatorRuns
  import S = Scoreboard

  /** A port with one entry: a push fails while it is full. */
  class SimPort {
    var entry: Option<Packet>

    constructor ()
      ensures entry.None?
    {
      entry := None;
    }

    method Push(p: Packet) returns (ok: bool)
      modifies this
      ensures ok == old(entry).None? && entry == if ok then Some(p) else old(entry)
    {
      ok := entry.None?;
      if ok {
        entry := Some(p);
      }
    }

    method Pop() returns (p: Packet)
      requires entry.Some?
      modifies this
      ensures entry.None? && Some(p) == old(entry)
    {
      p := entry.value;
      entry := None;
    }
  }

  class SimPipeRegister {
    var inHalf: Option<Packet>
    var outHalf: Option<Packet>
    var stalled: bool

    constructor ()
      ensures View() == EMPTY_REG
    {
      inHalf, outHalf, stalled := None, None, false;
    }

    function View(): PipeReg
      reads this
    {
      PipeReg(inHalf, outHalf, stalled)
    }

    method Push(p: Packet) returns (ok: bool)
      modifies this
      ensures ok == old(inHalf).None?
      ensures View() == if ok then old(View()).(inHalf := Some(p)) else old(View())
    {
      ok := inHalf.None?;
      if ok {
        inHalf := Some(p);
      }
    }

    method Pop() returns (p: Packet)
      requires outHalf.Some?
      modifies this
      ensures Some(p) == old(outHalf) && View() == old(View()).(outHalf := None)
    {
      p := outHalf.value;
      outHalf := None;
    }

    method Sync()
      modifies this
      ensures View() == if old(outHalf).None? then old(View()).(inHalf := None, outHalf := old(inHalf)) else old(View())
    {
      if outHalf.None? {
        outHalf, inHalf := inHalf, None;
      }
    }

    method ClearStallFlag()
      modifies this
      ensures View() == old(View()).(stalled := false)
    {
      stalled := false;
    }
  }

  class PipeRegisterManager {
    const registers: seq<SimPipeRegister>

    constructor (registers: seq<SimPipeRegister>)
      ensures this.registers == registers
    {
      this.registers := registers;
    }

    /** Every register crosses once, whatever their number. */
    method RunSyncPipeRegister()
      requires forall i, j :: 0 <= i < j < |registers| ==> registers[i] != registers[j]
      modifies registers
      ensures forall i :: 0 <= i < |registers| ==> registers[i].View() == SyncReg(old(registers[i].View()))
    {
      for k := 0 to |registers|
        invariant forall i :: 0 <= i < k ==> registers[i].View() == SyncReg(old(registers[i].View()))
        invariant forall i :: k <= i < |registers| ==> registers[i].View() == old(registers[i].View())
      {
        registers[k].Sync();
        registers[k].ClearStallFlag();
      }
    }
  }

  class BaseMemory {
    const mem: array<bv8>

    constructor (size: nat)
      ensures fresh(mem) && mem[..] == M.Zeroed(size)
    {
      mem := new bv8[size](_ => 0);
    }

    /** The bytes at an address; None where the range check fails. */
    method ReadData(a: Addr, size: nat) returns (data: Option<seq<bv8>>)
      ensures data == if M.InRange(mem[..], a, size) then Some(mem[..][a..a + size]) else None
    {
      if a + size > mem.Length {
        return None;
      }
      return Some(mem[a..a + size]);
    }

    method WriteData(data: seq<bv8>, a: Addr) returns (ok: bool)
      modifies mem
      ensures ok == M.InRange(old(mem[..]), a, |data|)
      ensures mem[..] == if ok then M.Splice(old(mem[..]), a, data) else old(mem[..])
    {
      if a + |data| > mem.Length {
        return false;
      }
      forall i | 0 <= i < |data| {
        mem[a + i] := data[i];
      }
      return true;
    }

    method MemReadReqHandler(op: Op, a: Addr) returns (ret: Option<Word>)
      requires IsLoad(op)
      ensures ret == M.Load(op, mem[..], a)
    {
      var bytes := if op == Lb || op == Lbu then 1 else if op == Lh || op == Lhu then 2 else 4;
      var data := ReadData(a, bytes);
      if data.None? {
        return None;
      }
      var v := M.Value(data.value);
      return Some(if op == Lb then Signed(v, 0x100) else if op == Lh then Signed(v, 0x1_0000) else v);
    }

    method MemWriteReqHandler(op: Op, a: Addr, data: Word) returns (ok: bool)
      requires IsStore(op)
      modifies mem
      ensures ok == M.Store(op, old(mem[..]), a, data).Some?
      ensures mem[..] == if ok then M.Store(op, old(mem[..]), a, data).value else old(mem[..])
    {
      var bytes := if op == Sb then 1 else if op == Sh then 2 else 4;
      ok := WriteData(M.BytesOf(data, bytes), a);
    }
  }

  class Processor {
    const imem: seq<Instr>
    const rf: array<Word>
    const dmem: BaseMemory
    var pc: Addr
    var instCnt: nat
    var pending: Option<Packet>
    var event: Option<nat>

    constructor (imem: seq<Instr>, dmem: BaseMemory)
      ensures this.imem == imem && this.dmem == dmem && fresh(rf) && rf.Length == XLEN_REGS
      ensures View() == P.Cpu(F.Core(0, ZeroRegs(), dmem.mem[..]), 0, None, Some(1))
    {
      this.imem, this.dmem := imem, dmem;
      rf := new Word[XLEN_REGS](_ => 0);
      pc, instCnt, pending, event := 0, 0, None, Some(1);
    }

    function Core(): F.Core
      requires rf.Length == XLEN_REGS
      reads this, rf, dmem.mem
    {
      F.Core(pc, rf[..], dmem.mem[..])
    }

    function View(): P.Cpu
      requires rf.Length == XLEN_REGS
      reads this, rf, dmem.mem
    {
      P.Cpu(Core(), instCnt, pending, event)
    }

    method WriteReg(rd: bv5, v: Word)
      requires rf.Length == XLEN_REGS
      modifies rf
      ensures rf[..] == F.Put(old(rf[..]), rd, v)
    {
      rf[rd as int] := v;
    }

    /** One instruction; false, with nothing changed, where the C++ aborts or has no meaning. */
    method ProcessInstr(i: Instr) returns (ok: bool)
      requires rf.Length == XLEN_REGS
      modifies this`pc, rf, dmem.mem
      ensures ok == F.Process(i, old(Core())).Some?
      ensures Core() == if ok then F.Process(i, old(Core())).value else old(Core())
    {
      hide F.Arith, F.Holds, F.Put, Sum, F.Upper, M.Load, M.Store, Next, ToWord, ToNum, ReadReg;
      var pcNext := Next(pc);
      var x1, x2, x3 := ReadReg(rf[..], i.a1.reg), ReadReg(rf[..], i.a2.reg), ReadReg(rf[..], i.a3.reg);
      if IsRegOp(i.op) || IsImmOp(i.op) {
        var v := F.Arith(i.op, x2, if IsRegOp(i.op) then x3 else i.a3.imm);
        if v.None? {
          return false;
        }
        WriteReg(i.a1.reg, v.value);
      } else if IsBranch(i.op) {
        if F.Holds(i.op, x1, x2) {
          pcNext := ToNum(i.a3.imm);
        }
      } else if i.op == Jal {
        WriteReg(i.a1.reg, ToWord(Next(pc)));
        pcNext := ToNum(i.a2.imm);
      } else if i.op == Jalr {
        WriteReg(i.a1.reg, ToWord(Next(pc)));
        pcNext := ToNum(Sum(ReadReg(rf[..], i.a2.reg), i.a3.imm));
      } else if i.op == Auipc {
        WriteReg(i.a1.reg, Sum(ToWord(pc), F.Upper(i.a2.imm)));
      } else if i.op == Lui {
        WriteReg(i.a1.reg, F.Upper(i.a2.imm));
      } else if IsLoad(i.op) {
        var v := dmem.MemReadReqHandler(i.op, ToNum(Sum(x2, i.a3.imm)));
        if v.None? {
          return false;
        }
        WriteReg(i.a1.reg, v.value);
      } else if IsStore(i.op) {
        var done := dmem.MemWriteReqHandler(i.op, ToNum(Sum(x2, i.a3.imm)), x1);
        if !done {
          return false;
        }
      }
      pc := pcNext;
      return true;
    }

    /** Sends the packet on; a full port makes the processor hold it back. */
    method CommitInstr(p: Packet, port: SimPort, tick: nat)
      modifies this`pending, this`event, port
      ensures if old(port.entry).None?
              then port.entry == Some(p) && pending == old(pending) && event == EventAfter(p, tick)
              else port.entry == old(port.entry) && pending == Some(p) && event.None?
    {
      event := None;
      var ok := port.Push(p);
      if !ok {
        pending := Some(p);
      } else if p.inst.op != Hcf {
        event := Some(tick + 1);
      }
    }

    method ExecOneInstr(port: SimPort, tick: nat) returns (ok: bool)
      requires rf.Length == XLEN_REGS
      modifies this, rf, dmem.mem, port
      ensures ok == F.StepCore(imem, old(Core())).Some?
      ensures ok ==>
                var p, c := F.PacketOf(imem, old(Core())), F.StepCore(imem, old(Core())).value;
                && instCnt == old(instCnt) + 1 && Core() == c
                && (if old(port.entry).None?
                    then port.entry == Some(p) && pending == old(pending) && event == EventAfter(p, tick)
                    else port.entry == old(port.entry) && pending == Some(p) && event.None?)
    {
      hide F.Process;
      if pc / 4 >= |imem| {
        return false;
      }
      var i, before := imem[pc / 4], pc;
      ok := ProcessInstr(i);
      if ok {
        instCnt := instCnt + 1;
        CommitInstr(Packet(i, before, pc != Next(before)), port, tick);
      }
    }

    /** The callback of a freed port; false when the port refuses the packet after all. */
    method RetrySendInstPacket(port: SimPort, tick: nat) returns (ok: bool)
      requires rf.Length == XLEN_REGS
      modifies this`pending, this`event, port
      ensures ok == (old(pending).None? || old(port.entry).None?)
      ensures if ok && old(pending).Some?
              then port.entry == old(pending) && pending.None? && event == EventAfter(old(pending).value, tick)
              else port.entry == old(port.entry) && pending == old(pending) && event == old(event)
    {
      if pending.None? {
        return true;
      }
      ok := port.Push(pending.value);
      if ok {
        event := if pending.value.inst.op == Hcf then None else Some(tick + 1);
        pending := None;
      }
    }
  }

  class IFStage {
    var exeInstPacket: Option<Packet>
    var wbInstPacket: Option<Packet>

    constructor ()
      ensures View() == Shadows(None, None)
    {
      exeInstPacket, wbInstPacket := None, None;
    }

    function View(): Shadows
      reads this
    {
      Shadows(exeInstPacket, wbInstPacket)
    }

    /** False when the pipe register refuses an admitted packet. */
    method Step(port: SimPort, out: SimPipeRegister) returns (ok: bool)
      modifies this, port, out
      ensures if old(port.entry).None? then
                ok && View() == old(View()) && port.entry.None? && out.View() == old(out.View())
              else
                var p := old(port.entry).value;
                && View() == NextShadows(old(View()), p)
                && (if Stalls(old(View()), p)
                    then ok && port.entry == old(port.entry) && out.View() == old(out.View())
                    else port.entry.None? && ok == old(out.inHalf).None?
                         && out.View() == if ok then old(out.View()).(inHalf := Some(p)) else old(out.View()))
    {
      hide CheckDataHazard, GetDestReg;
      ok := true;
      if port.entry.Some? {
        var p := port.entry.value;
        var exeDestReg := if exeInstPacket.Some? then GetDestReg(exeInstPacket.value.inst) else 0;
        var wbDestReg := if wbInstPacket.Some? then GetDestReg(wbInstPacket.value.inst) else 0;
        var dataHazard := (exeInstPacket.Some? && CheckDataHazard(exeDestReg, p.inst))
                          || (wbInstPacket.Some? && CheckDataHazard(wbDestReg, p.inst));
        var controlHazard := exeInstPacket.Some? && exeInstPacket.value.taken;
        if !dataHazard && !controlHazard {
          var popped := port.Pop();
          ok := InstPacketHandler(popped, out);
        } else {
          wbInstPacket := exeInstPacket;
          exeInstPacket := None;
        }
      }
    }

    method InstPacketHandler(p: Packet, out: SimPipeRegister) returns (ok: bool)
      modifies this, out
      ensures ok == old(out.inHalf).None?
      ensures out.View() == if ok then old(out.View()).(inHalf := Some(p)) else old(out.View())
      ensures View() == Shadows(Some(p), old(exeInstPacket))
    {
      ok := out.Push(p);
      wbInstPacket := exeInstPacket;
      exeInstPacket := Some(p);
    }
  }

  class EXEStage {
    var wbInstPacket: Option<Packet>

    constructor ()
      ensures wbInstPacket.None?
    {
      wbInstPacket := None;
    }

    /** Passes the packet on, whether or not it is a taken branch. */
    method Step(input: SimPipeRegister, out: SimPipeRegister) returns (ok: bool)
      requires input != out
      modifies this, input, out
      ensures if old(input.outHalf).None? || old(out.stalled) then
                ok && input.View() == old(input.View()) && out.View() == old(out.View())
                    && wbInstPacket == old(wbInstPacket)
              else
                && input.View() == old(input.View()).(outHalf := None) && ok == old(out.inHalf).None?
                && out.View() == (if ok then old(out.View()).(inHalf := old(input.outHalf)) else old(out.View()))
                && wbInstPacket == old(input.outHalf)
    {
      ok := true;
      if input.outHalf.Some? && !out.stalled {
        var p := input.Pop();
        ok := out.Push(p);
        wbInstPacket := Some(p);
      }
    }
  }

  class WBStage {
    ghost var received: seq<Packet>

    constructor ()
      ensures received == []
    {
      received := [];
    }

    /** The sink: a packet taken here is gone from the model; received remembers it. */
    method Step(input: SimPipeRegister)
      modifies this, input
      ensures input.View() == old(input.View()).(outHalf := None)
      ensures received == old(received) + Opt(old(input.outHalf))
    {
      if input.outHalf.Some? {
        var p := input.Pop();
        received := received + [p];
      }
    }
  }

  /** All modules, wired as registerSimulators and registerPipeRegisters wire them. */
  class SOCTop {
    const cpu: Processor
    const port: SimPort
    const sIF: IFStage
    const sEXE: EXEStage
    const sWB: WBStage
    const prIF2EXE: SimPipeRegister
    const prEXE2WB: SimPipeRegister
    const manager: PipeRegisterManager
    var tick: nat
    ghost var phase: Phase
    var failed: bool

    constructor (cpu: Processor)
      requires cpu.rf.Length == XLEN_REGS
      requires cpu.instCnt == 0 && cpu.pending.None? && cpu.event == Some(1)
      ensures Valid() && this.cpu == cpu && View() == Start(cpu.Core())
      ensures fresh(port) && fresh(sIF) && fresh(sEXE) && fresh(sWB) && fresh(prIF2EXE) && fresh(prEXE2WB)
    {
      this.cpu := cpu;
      port := new SimPort();
      sIF := new IFStage();
      sEXE := new EXEStage();
      sWB := new WBStage();
      var r1 := new SimPipeRegister();
      var r2 := new SimPipeRegister();
      prIF2EXE, prEXE2WB := r1, r2;
      manager := new PipeRegisterManager([r1, r2]);
      tick, failed := 0, false;
      phase := NEW_TICK;
    }

    ghost predicate Valid() {
      cpu.rf.Length == XLEN_REGS && manager.registers == [prIF2EXE, prEXE2WB] && prIF2EXE != prEXE2WB
    }

    ghost function View(): Sys
      requires Valid()
      reads this, cpu, cpu.rf, cpu.dmem.mem, port, sIF, sWB, prIF2EXE, prEXE2WB
    {
      Sys(tick, phase, cpu.View(), port.entry, sIF.View(), prIF2EXE.View(), prEXE2WB.View(), sWB.received, failed)
    }

    method Exec()
      requires Valid() && Enabled(cpu.imem, View(), P.Exec)
      modifies this, cpu, cpu.rf, cpu.dmem.mem, port
      ensures View() == DoExec(cpu.imem, old(View())) && tick == old(tick)
    {
      hide F.StepCore, F.PacketOf;
      var ok := cpu.ExecOneInstr(port, tick);
    }

    method MasterPortRetry()
      requires Valid()
      modifies this, cpu, port
      ensures View() == DoRetry(old(View())) && tick == old(tick)
    {
      var ok := cpu.RetrySendInstPacket(port, tick);
      failed := failed || !ok;
    }

    method StepIF()
      requires Valid()
      modifies this, sIF, port, prIF2EXE
      ensures View() == DoIF(old(View())) && tick == old(tick)
    {
      hide Stalls;
      var ok := sIF.Step(port, prIF2EXE);
      failed := failed || !ok;
      phase := phase.(fetched := true);
    }

    method StepEXE()
      requires Valid()
      modifies this, sEXE, prIF2EXE, prEXE2WB
      ensures View() == DoEXE(old(View())) && tick == old(tick)
    {
      var ok := sEXE.Step(prIF2EXE, prEXE2WB);
      failed := failed || !ok;
      phase := phase.(executed := true);
    }

    method StepWB()
      requires Valid()
      modifies this, sWB, prEXE2WB
      ensures View() == DoWB(old(View())) && tick == old(tick)
    {
      sWB.Step(prEXE2WB);
      phase := phase.(written := true);
    }

    method Sync()
      requires Valid()
      modifies this, prIF2EXE, prEXE2WB
      ensures View() == DoSync(old(View())) && tick == old(tick) + 1
    {
      manager.RunSyncPipeRegister();
      assert manager.registers[0] == prIF2EXE && manager.registers[1] == prEXE2WB;
      tick := tick + 1;
      phase := NEW_TICK;
    }

    predicate Busy()
      reads cpu, port, prIF2EXE, prEXE2WB
    {
      || cpu.event.Some? || cpu.pending.Some? || port.entry.Some?
      || prIF2EXE.inHalf.Some? || prIF2EXE.outHalf.Some? || prEXE2WB.inHalf.Some? || prEXE2WB.outHalf.Some?
    }

    /** One tick in the usual order; the port calls back when IF has popped it. */
    method Tick()
      requires Valid() && (cpu.event == Some(tick) ==> F.StepCore(cpu.imem, cpu.Core()).Some?)
      modifies this, cpu, cpu.rf, cpu.dmem.mem, port, sIF, sEXE, sWB, prIF2EXE, prEXE2WB
      ensures View() == R.Back(R.Front(cpu.imem, old(View()))) && tick == old(tick) + 1
    {
      hide F.StepCore, DoExec, DoIF, DoRetry, DoEXE, DoWB, DoSync;
      if cpu.event == Some(tick) {
        Exec();
      }
      StepIF();
      if port.entry.None? {
        MasterPortRetry();
      }
      StepEXE();
      StepWB();
      Sync();
    }
  }

  /** Running the simulator until nothing is left to do. For a program that reaches its first HCF with
      instruction h, it ends within the ticks of the admission law, WB has received exactly the packets of
      the run, in order, and the registers and memory are those behind HCF. */
  method RunToCompletion(top: SOCTop, ghost h: nat, ghost ps: seq<Packet>)
    requires top.Valid() && top.View() == Start(top.cpu.Core())
    requires R.Halts(top.cpu.imem, top.cpu.Core(), h, ps) && h < |ps|
    modifies top, top.cpu, top.cpu.rf, top.cpu.dmem.mem, top.port, top.sIF, top.sEXE, top.sWB, top.prIF2EXE,
             top.prEXE2WB
    ensures top.Valid() && top.sWB.received == ps && top.cpu.instCnt == h + 1
    ensures Some(top.cpu.Core()) == old(F.CoreAt(top.cpu.imem, top.cpu.Core(), h + 1))
    ensures top.tick <= S.Admit(ps, h) + 4
  {
    hide R.Halts, R.SysAt, R.Front, R.Back, S.Admit, F.StepCore, F.CoreAt;
    ghost var im, c := top.cpu.imem, top.cpu.Core();
    ghost var last := S.Admit(ps, h) + 4;
    R.SysAtStart(im, c);
    S.AdmitNonNegative(ps, h);
    while top.Busy()
      invariant top.Valid()
      invariant top.View() == R.SysAt(im, c, top.tick)
      invariant top.tick <= last
      decreases last - top.tick
    {
      R.IdleMeansDrained(im, c, h, ps, top.tick);
      R.EventCanRun(im, c, h, ps, top.tick);
      top.Tick();
      R.NextSys(im, c, top.tick - 1);
    }
    R.IdleMeansDrained(im, c, h, ps, top.tick);
  }
}
