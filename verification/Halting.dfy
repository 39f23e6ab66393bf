/** Once HCF is in WB the machine stands still. */
module Halting {
  import opened Words
  import opened RiscvDefs
  import opened Datapath
  import opened Controller
  import opened Pipeline
  import opened Refinement
  import opened LostLinks
  import opened PipelineRuns
  import opened CleanRuns
  import DataMem

  lemma HcfWritesNothing(inst: Word)
    requires IsHcf(inst)
    ensures !WritesRd(inst)
  {
  }

  /** The back end of a halted machine: nothing but the data memory moves, under a request that stays. */
  lemma HaltStep(latency: nat, im: Bytes, s: Cpu)
    requires latency > 0 && Hcf(s) && s.regs[0] == 0
    ensures var s' := Step(latency, im, s);
            && Hcf(s') && s'.regs == s.regs && s'.wb == s.wb && s'.me == s.me
            && s'.dm == DataMem.Next(latency, s.dm, MemRequest(s))
  {
    hide Opcode, NextEx, NextId, NextIf, DataMem.Next, WbData, Rd;
    HcfWritesNothing(s.wb.inst);
  }

  lemma {:induction false} HaltRun(latency: nat, im: Bytes, data: Bytes, n: nat, j: nat)
    requires latency > 0 && Hcf(At(latency, im, data, n)) && At(latency, im, data, n).regs[0] == 0
    ensures var s, t := At(latency, im, data, n), At(latency, im, data, n + j);
            && Hcf(t) && t.regs == s.regs && t.wb == s.wb && t.me == s.me
            && t.dm == DataMem.Run(latency, s.dm, _ => MemRequest(s), j)
  {
    hide Step, DataMem.Next;
    if j > 0 {
      HaltRun(latency, im, data, n, j - 1);
      HaltStep(latency, im, At(latency, im, data, n + j - 1));
    }
  }

  /** When HCF is first asserted the data memory is idle: nothing waits in MEM while WB holds anything. */
  lemma IdleAtHcf(latency: nat, im: Bytes, data: Bytes, n: nat)
    requires latency >= 3 && HaltsAt(latency, im, data, n)
    ensures At(latency, im, data, n).regs[0] == 0 && DataMem.Fresh(At(latency, im, data, n).dm)
  {
    hide LossInv, NoHcfPassed, FrontOk, ExOk, MeOk, Opcode;
    BubbleIsInert(0);
    GhostBounds(im, data, Observe(latency, im, data, n));
  }

  /** What the slot held in MEM does to the data memory. */
  function HeldEffect(s: Cpu): Bytes { DataMem.Effect(s.dm.bytes, MemRequest(s)) }

  lemma OnlyStoresHaveEffect(s: Cpu)
    requires HeldEffect(s) != s.dm.bytes
    ensures IsStore(s.me.inst)
  {
    hide DataMem.StoreBytes, Length, Low15;
  }

  /** Halt is absorbing: from the first HCF on, HCF stays asserted and no architectural register ever
      changes. The data memory takes the effect of the slot held in MEM two cycles later, and nothing else
      ever: a store behind HCF is carried out. */
  lemma HaltIsAbsorbing(latency: nat, im: Bytes, data: Bytes, n: nat, j: nat)
    requires latency >= 3 && HaltsAt(latency, im, data, n)
    ensures var s, t := At(latency, im, data, n), At(latency, im, data, n + j);
            && Hcf(t) && t.regs == s.regs
            && t.dm.bytes == (if j < 2 then s.dm.bytes else HeldEffect(s))
            && (HeldEffect(s) != s.dm.bytes ==> IsStore(s.me.inst))
  {
    hide Step, DataMem.Next, DataMem.Effect, MemRequest, IsStore, Hcf;
    var s := At(latency, im, data, n);
    IdleAtHcf(latency, im, data, n);
    HaltRun(latency, im, data, n, j);
    DataMem.HeldForGood(latency, s.dm, MemRequest(s), j);
    if HeldEffect(s) != s.dm.bytes { OnlyStoresHaveEffect(s); }
  }

  ghost predicate MemoryFrozen(latency: nat, im: Bytes, data: Bytes, n: nat)
    requires latency > 0
  {
    forall c: nat :: c >= n ==> At(latency, im, data, c).dm.bytes == At(latency, im, data, n).dm.bytes
  }

  /** The data memory is frozen behind HCF if and only if the slot held in MEM is no store, or one that
      writes what is there already. */
  lemma FrozenIff(latency: nat, im: Bytes, data: Bytes, n: nat)
    requires latency >= 3 && HaltsAt(latency, im, data, n)
    ensures var s := At(latency, im, data, n);
            MemoryFrozen(latency, im, data, n) <==> (IsStore(s.me.inst) ==> HeldEffect(s) == s.dm.bytes)
  {
    hide At, DataMem.Effect, MemRequest, IsStore, HeldEffect, HaltsAt;
    forall c: nat | c >= n
      ensures At(latency, im, data, c).dm.bytes
              == if c < n + 2 then At(latency, im, data, n).dm.bytes else HeldEffect(At(latency, im, data, n))
    {
      HaltIsAbsorbing(latency, im, data, n, c - n);
    }
    HaltIsAbsorbing(latency, im, data, n, 2);
  }

  // ----- A store behind HCF -----

  /** hcf; sb x0, 0(x0). */
  predicate HaltThenStore(im: Bytes) {
    Fetch(im, 0) == 0x0000_000b && Fetch(im, 4) == 0x0000_0023
  }

  /** Nothing in flight writes, jumps or asks for memory. */
  predicate Quiet(inst: Word) {
    !WritesRd(inst) && !IsControl(inst)
  }

  lemma QuietWords()
    ensures Quiet(0) && Quiet(0x0000_000b) && Quiet(0x0000_0023)
    ensures !IsMem(0) && !IsMem(0x0000_000b) && !IsHcf(0) && IsHcf(0x0000_000b)
    ensures IsStore(0x0000_0023) && !IsLoad(0x0000_0023) && !IsHcf(0x0000_0023)
    ensures Length(0x0000_0023) == BYTE && Rs1(0x0000_0023) == 0 && Rs2(0x0000_0023) == 0
    ensures Plus4(0) == 4 && ReadReg(ZeroRegs(), 0) == 0 && Imm(0x0000_0023) == 0
    ensures AluOut(0x0000_0023, 4, 0, 0, 0) == 0
  {
  }

  /** A cycle in which every stage passes on what it holds. */
  lemma QuietStep(latency: nat, im: Bytes, s: Cpu)
    requires latency >= 3 && Quiet(s.ex.inst) && Quiet(s.me.inst) && Quiet(s.wb.inst)
    requires !IsMem(s.me.inst) && !IsHcf(s.wb.inst) && s.regs[0] == 0 && DataMem.Fresh(s.dm)
    ensures var t := Step(latency, im, s);
            && t.ifPc == Plus4(s.ifPc) && t.id == IdReg(Fetch(im, s.ifPc), s.ifPc)
            && t.ex == ExReg(s.id.inst, s.id.pc, Imm(s.id.inst), ReadReg(s.regs, Rs1(s.id.inst)),
               ReadReg(s.regs, Rs2(s.id.inst)))
            && t.me == MemReg(s.ex.inst, s.ex.pc, ExAlu(s), s.ex.rs2)
            && t.wb.inst == s.me.inst && t.regs == s.regs && t.dm == s.dm
  {
    hide Opcode, Fetch, Plus4, Imm, ExAlu, ReadReg, Rd, Rs1, Rs2, DataMem.LoadValue, DataMem.StoreBytes, Length, Low15,
      WbData, DataMem.Bump, UsesRs1, UsesRs2, BranchTaken, ExTarget;
  }

  lemma FourCycles(latency: nat, im: Bytes, data: Bytes)
    requires latency >= 3 && HaltThenStore(im)
    ensures HaltsAt(latency, im, data, 4)
    ensures var s := At(latency, im, data, 4);
            s.me == MemReg(0x0000_0023, 4, 0, 0) && s.dm.bytes == data
  {
    hide Step, Fetch, Imm, AluOut, ReadReg, Quiet, IsMem, IsHcf, IsControl, WritesRd, IsStore, IsLoad, Length, Rs1, Rs2;
    QuietWords();
    var s0, s1 := At(latency, im, data, 0), At(latency, im, data, 1);
    var s2, s3 := At(latency, im, data, 2), At(latency, im, data, 3);
    QuietStep(latency, im, s0);
    QuietStep(latency, im, s1);
    QuietStep(latency, im, s2);
    assert s3.me.inst == 0x0000_000b && s3.ex.inst == 0x0000_0023 && s3.ex.imm == 0 && s3.ex.pc == 4
           && s3.ex.rs1 == 0 && s3.ex.rs2 == 0;
    QuietStep(latency, im, s3);
  }

  /** In a program that starts with HCF and a store, the pipeline halts with the memory it was given, and
      then carries out the store, at every latency. */
  lemma StoreBehindHcf(latency: nat, im: Bytes, data: Bytes, j: nat)
    requires latency >= 3 && HaltThenStore(im) && j >= 2
    ensures HaltsAt(latency, im, data, 4) && At(latency, im, data, 4).dm.bytes == data
    ensures At(latency, im, data, 4 + j).dm.bytes == data[0 := 0]
    ensures MemoryFrozen(latency, im, data, 4) <==> data[0] == 0
  {
    hide At, HaltsAt, MemoryFrozen, IsLoad, IsStore;
    FourCycles(latency, im, data);
    HaltIsAbsorbing(latency, im, data, 4, j);
    FrozenIff(latency, im, data, 4);
    QuietWords();
    StoresZero(At(latency, im, data, 4));
  }

  lemma StoresZero(s: Cpu)
    requires s.me == MemReg(0x0000_0023, 4, 0, 0)
    ensures HeldEffect(s) == s.dm.bytes[0 := 0]
  {
    hide Opcode;
    QuietWords();
  }
}
