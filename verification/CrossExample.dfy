/** A program with a store, a load, a branch and a call that meets every condition of the cross-model
    result. */
module CrossExample {
  import opened Words
  import opened DataStruct
  import opened CrossModel
  import opened CrossRuns
  import Numbers
  import RiscvDefs
  import F = FunctionalCpu
  import M = ByteMemory
  import R = Rv32i
  import S = Sequential
  import Addresses
  import Progress

  function Reg(r: bv5): Operand { NO_OPERAND.(reg := r) }
  function Imm(w: Word): Operand { NO_OPERAND.(imm := w) }

  const STOP := BLANK.(op := Hcf)

  /** addi x1, x0, 5; sw x1, 64(x0); lw x2, 64(x0); beq x1, x2, 20; at 20: jal x3, 28; at 28: hcf. The words at
      16 and 24 are never reached and hold anything. */
  function Program(): seq<Instr> {
    [Instr(Addi, Reg(1), Reg(0), Imm(5)), Instr(Sw, Reg(1), Reg(0), Imm(64)), Instr(Lw, Reg(2), Reg(0), Imm(64)),
     Instr(Beq, Reg(1), Reg(2), Imm(20)), BLANK, Instr(Jal, Reg(3), Imm(28), NO_OPERAND), BLANK, STOP]
  }

  /** The same instructions in hardware memory. */
  predicate Loaded(im: Bytes) {
    && RiscvDefs.Fetch(im, 0) == R.Encode(R.OpImm(R.Addi, 1, 0, 5))
    && RiscvDefs.Fetch(im, 4) == R.Encode(R.Store(R.W, 0, 1, 64))
    && RiscvDefs.Fetch(im, 8) == R.Encode(R.Load(R.W, 2, 0, 64))
    && RiscvDefs.Fetch(im, 12) == R.Encode(R.Branch(R.Beq, 1, 2, 4))
    && RiscvDefs.Fetch(im, 20) == R.Encode(R.Jal(3, 4))
    && RiscvDefs.Opcode(RiscvDefs.Fetch(im, 28)) == RiscvDefs.HCF
  }

  // ----- The hardware memory holds it -----

  lemma SmallIndices()
    ensures Index(0) == 0 && Index(4) == 4 && Index(8) == 8 && Index(12) == 12
    ensures Index(16) == 16 && Index(20) == 20 && Index(24) == 24 && Index(28) == 28
  {
  }

  lemma SmallPlaces(pc: Pc)
    requires pc & 3 == 0 && Index(pc) < 32
    ensures pc == 0 || pc == 4 || pc == 8 || pc == 12 || pc == 16 || pc == 20 || pc == 24 || pc == 28
  {
    hide Index;
    SmallIndices();
    Addresses.LowBits(pc);
    IndexDistinct(pc, 0);
    IndexDistinct(pc, 4);
    IndexDistinct(pc, 8);
    IndexDistinct(pc, 12);
    IndexDistinct(pc, 16);
    IndexDistinct(pc, 20);
    IndexDistinct(pc, 24);
    IndexDistinct(pc, 28);
  }

  lemma Immediates()
    ensures R.Imm12(5) == 5 && R.Imm12(64) == 64
    ensures Sum(Extend(12), R.BranchOffset(4)) == 20 && Sum(Extend(20), R.JumpOffset(4)) == 28
  {
  }

  lemma AllMatch()
    ensures var p := Program();
            && Matches(p[0], Extend(0), R.OpImm(R.Addi, 1, 0, 5)) && Matches(p[1], Extend(4), R.Store(R.W, 0, 1, 64))
            && Matches(p[2], Extend(8), R.Load(R.W, 2, 0, 64)) && Matches(p[3], Extend(12), R.Branch(R.Beq, 1, 2, 4))
            && Matches(p[5], Extend(20), R.Jal(3, 4))
  {
    hide Matches;
    AddMatches();
    StoreMatches();
    LoadMatches();
    TransferMatches();
  }

  lemma AddMatches()
    ensures Matches(Program()[0], Extend(0), R.OpImm(R.Addi, 1, 0, 5))
  {
    hide R.Imm12, R.BranchOffset, R.JumpOffset, Sum, Extend;
    Immediates();
  }

  lemma StoreMatches()
    ensures Matches(Program()[1], Extend(4), R.Store(R.W, 0, 1, 64))
  {
    hide R.Imm12, R.BranchOffset, R.JumpOffset, Sum, Extend;
    Immediates();
  }

  lemma LoadMatches()
    ensures Matches(Program()[2], Extend(8), R.Load(R.W, 2, 0, 64))
  {
    hide R.Imm12, R.BranchOffset, R.JumpOffset, Sum, Extend;
    Immediates();
  }

  lemma TransferMatches()
    ensures Matches(Program()[3], Extend(12), R.Branch(R.Beq, 1, 2, 4))
            && Matches(Program()[5], Extend(20), R.Jal(3, 4))
  {
    hide R.Imm12, R.BranchOffset, R.JumpOffset, Sum, Extend;
    Immediates();
  }

  lemma ProgramIsImage(im: Bytes)
    requires Loaded(im)
    ensures Image(im, Program())
  {
    hide Index, RiscvDefs.Fetch, R.Encode, Matches, RiscvDefs.Opcode;
    AllMatch();
    SmallIndices();
    forall pc: Pc | pc & 3 == 0 && Index(pc) / 4 < 8 && Program()[Index(pc) / 4].op != Unimpl
      ensures Encodes(im, pc, Program()[Index(pc) / 4])
    {
      SmallPlaces(pc);
    }
  }

  // ----- The simulator runs it -----

  /** The registers after one, three and five instructions, and the memory after two. */
  function Rf1(): Regs { F.Put(ZeroRegs(), 1, 5) }
  function Rf3(): Regs { F.Put(Rf1(), 2, 5) }
  function Rf5(): Regs { F.Put(Rf3(), 3, Numbers.ToWord(24)) }

  function Stored(mem: Bytes): Bytes { M.Splice(mem, 64, M.BytesOf(5, 4)) }

  /** The state in front of the k-th executed instruction. */
  function StateAt(mem: Bytes, k: nat): F.Core {
    if k == 0 then F.Core(0, ZeroRegs(), mem)
    else if k == 1 then F.Core(4, Rf1(), mem)
    else if k == 2 then F.Core(8, Rf1(), Stored(mem))
    else if k == 3 then F.Core(12, Rf3(), Stored(mem))
    else if k == 4 then F.Core(20, Rf3(), Stored(mem))
    else F.Core(28, Rf5(), Stored(mem))
  }

  lemma SmallNumbers()
    ensures Numbers.ToNum(64) == 64 && Numbers.ToNum(20) == 20 && Numbers.ToNum(28) == 28
    ensures Sum(0, 5) == 5 && Sum(0, 64) == 64
  {
  }

  lemma ZeroReg(r: bv5)
    ensures ReadReg(ZeroRegs(), r) == 0
  {
  }

  lemma Reads(r: bv5)
    ensures ReadReg(Rf1(), r) == if r == 1 then 5 else 0
    ensures ReadReg(Rf3(), r) == if r == 2 || r == 1 then 5 else 0
    ensures ReadReg(Rf5(), r) == if r == 3 then Numbers.ToWord(24) else if r == 2 || r == 1 then 5 else 0
  {
    hide ReadReg, F.Put, Numbers.ToWord;
    ZeroReg(r);
    ReadsBack(ZeroRegs(), 1, 5, r);
    ReadsBack(Rf1(), 2, 5, r);
    ReadsBack(Rf3(), 3, Numbers.ToWord(24), r);
  }

  lemma Registers()
    ensures ReadReg(ZeroRegs(), 0) == 0
    ensures ReadReg(Rf1(), 0) == 0 && ReadReg(Rf1(), 1) == 5
    ensures ReadReg(Rf3(), 0) == 0 && ReadReg(Rf3(), 1) == 5 && ReadReg(Rf3(), 2) == 5
    ensures ReadReg(Rf5(), 1) == 5 && ReadReg(Rf5(), 2) == 5 && ReadReg(Rf5(), 3) == Numbers.ToWord(24)
  {
    hide ReadReg, Rf1, Rf3, Rf5, Numbers.ToWord;
    ZeroReg(0);
    Reads(0);
    Reads(1);
    Reads(2);
    Reads(3);
  }

  lemma LoadsFive(mem: Bytes)
    ensures M.Load(Lw, Stored(mem), 64) == Some(5)
  {
    hide M.BytesOf, M.Value, M.Splice;
    M.LoadAfterStore(Sw, Lw, mem, 64, 5);
  }

  /** Where the k-th executed instruction is. */
  function Slot(k: nat): nat { if k < 4 then k else k + 1 }

  lemma Goes(mem: Bytes, k: nat)
    requires k < 5
    ensures F.StepCore(Program(), StateAt(mem, k)) == F.Process(Program()[Slot(k)], StateAt(mem, k))
  {
    hide F.Process, Rf1, Rf3, Rf5, Stored;
  }

  lemma StepsAre(mem: Bytes, k: nat)
    requires k < 5
    ensures F.StepCore(Program(), StateAt(mem, k)) == Some(StateAt(mem, k + 1))
  {
    hide F.StepCore, F.Process, StateAt;
    Goes(mem, k);
    if k == 0 {
      AddStep(mem);
    } else if k == 1 {
      StoreStep(mem);
    } else if k == 2 {
      LoadStep(mem);
    } else if k == 3 {
      BranchStep(mem);
    } else {
      CallStep(mem);
    }
  }

  lemma AddsFive()
    ensures F.Arith(Addi, 0, 5) == Some(5)
  {
  }

  lemma AddStep(mem: Bytes)
    ensures F.Process(Program()[0], StateAt(mem, 0)) == Some(StateAt(mem, 1))
  {
    hide F.Process, F.Arith, F.Upper, ReadReg, F.Put, Sum, Numbers.ToNum, Numbers.ToWord, M.Load;
    Registers();
    AddsFive();
    F.WritesIt(Program()[0], StateAt(mem, 0));
  }

  lemma StoresFive(mem: Bytes)
    ensures M.Store(Sw, mem, 64, 5).Some? && M.Store(Sw, mem, 64, 5).value == Stored(mem)
  {
    hide M.BytesOf;
  }

  lemma StoreRuns(i: Instr, c: F.Core, mem: Bytes)
    requires i == Instr(Sw, Reg(1), Reg(0), Imm(64)) && ReadReg(c.rf, 0) == 0 && ReadReg(c.rf, 1) == 5 && c.mem == mem
    ensures F.Process(i, c) == Some(F.Core(Next(c.pc), c.rf, Stored(mem)))
  {
    hide F.Process, ReadReg, Sum, Numbers.ToNum, M.Store, Stored, Next;
    SmallNumbers();
    StoresFive(mem);
    F.StoreGoes(i, c);
  }

  lemma StoreStep(mem: Bytes)
    ensures F.Process(Program()[1], StateAt(mem, 1)) == Some(StateAt(mem, 2))
  {
    hide F.Process, ReadReg, Stored, Rf1;
    Registers();
    StoreRuns(Program()[1], StateAt(mem, 1), mem);
  }

  lemma LoadStep(mem: Bytes)
    ensures F.Process(Program()[2], StateAt(mem, 2)) == Some(StateAt(mem, 3))
  {
    hide F.Process, F.Arith, F.Upper, ReadReg, F.Put, Sum, Numbers.ToNum, Numbers.ToWord, M.Load, Stored, Rf1;
    Registers();
    SmallNumbers();
    LoadsFive(mem);
    F.LoadGoes(Program()[2], StateAt(mem, 2));
  }

  lemma BranchStep(mem: Bytes)
    ensures F.Process(Program()[3], StateAt(mem, 3)) == Some(StateAt(mem, 4))
  {
    hide F.Process, ReadReg, Numbers.ToNum, Stored, Rf3, SignedLess, Below;
    Registers();
    SmallNumbers();
    F.BranchGoes(Program()[3], StateAt(mem, 3));
  }

  lemma CallStep(mem: Bytes)
    ensures F.Process(Program()[5], StateAt(mem, 4)) == Some(StateAt(mem, 5))
  {
    hide F.Process, F.Arith, F.Upper, ReadReg, F.Put, Sum, Numbers.ToNum, Numbers.ToWord, M.Load, Stored, Rf3;
    SmallNumbers();
    F.JalGoes(Program()[5], StateAt(mem, 4));
  }

  predicate FitsAsIs(mem: Bytes, k: nat) {
    Fits(Program(), StateAt(mem, k)) && !F.AtHcf(Program(), StateAt(mem, k))
  }

  lemma StepsFit(mem: Bytes, k: nat)
    requires k < 5
    ensures FitsAsIs(mem, k)
  {
    hide FitsAsIs;
    if k == 0 {
      AddFits(mem);
    } else if k == 1 {
      StoreFits(mem);
    } else if k == 2 {
      LoadFits(mem);
    } else if k == 3 {
      BranchFits(mem);
    } else {
      CallFits(mem);
    }
  }

  lemma AddFits(mem: Bytes)
    ensures FitsAsIs(mem, 0)
  {
    hide ReadReg, Sum, Numbers.ToNum, Numbers.ToWord;
    Registers();
    CleanSlotFits(Program(), StateAt(mem, 0));
  }

  lemma StoreFits(mem: Bytes)
    ensures FitsAsIs(mem, 1)
  {
    hide ReadReg, Sum, Numbers.ToNum, Numbers.ToWord, Rf1;
    Registers();
    SmallNumbers();
    CleanSlotFits(Program(), StateAt(mem, 1));
  }

  lemma LoadFits(mem: Bytes)
    ensures FitsAsIs(mem, 2)
  {
    hide ReadReg, Sum, Numbers.ToNum, Numbers.ToWord, Rf1, Stored;
    Registers();
    SmallNumbers();
    CleanSlotFits(Program(), StateAt(mem, 2));
  }

  lemma BranchFits(mem: Bytes)
    ensures FitsAsIs(mem, 3)
  {
    hide ReadReg, Sum, Numbers.ToNum, Numbers.ToWord, Rf3, Stored;
    Registers();
    SmallNumbers();
    CleanSlotFits(Program(), StateAt(mem, 3));
  }

  lemma CallFits(mem: Bytes)
    ensures FitsAsIs(mem, 4)
  {
    hide ReadReg, Sum, Numbers.ToNum, Numbers.ToWord, Rf3, Stored;
    Registers();
    SmallNumbers();
    CleanSlotFits(Program(), StateAt(mem, 4));
  }

  lemma {:induction false} RunIs(mem: Bytes, k: nat)
    requires k <= 5
    ensures F.CoreAt(Program(), StateAt(mem, 0), k) == Some(StateAt(mem, k))
  {
    hide F.StepCore, StateAt, Program;
    if k > 0 {
      RunIs(mem, k - 1);
      StepsAre(mem, k - 1);
    }
  }

  lemma RunFits(mem: Bytes)
    ensures FitsTo(Program(), StateAt(mem, 0), 5)
    ensures F.AtHcf(Program(), StateAt(mem, 5))
    ensures forall k: nat :: k < 5 ==> !LinkBehindAccess(Program(), StateAt(mem, 0), k)
  {
    hide F.CoreAt, Rf1, Rf3, Rf5, Stored, Fits, FitsAt;
    forall k: nat | k < 5
      ensures FitsAt(Program(), StateAt(mem, 0), k) && !LinkBehindAccess(Program(), StateAt(mem, 0), k)
    {
      FitsHere(mem, k);
      RunIs(mem, k);
      if k > 0 { RunIs(mem, k - 1); }
    }
  }

  lemma FitsHere(mem: Bytes, k: nat)
    requires k < 5
    ensures FitsAt(Program(), StateAt(mem, 0), k)
  {
    hide F.CoreAt, StateAt, Program, Fits, F.AtHcf;
    RunIs(mem, k);
    StepsFit(mem, k);
  }

  lemma StartAgrees(data: Bytes)
    ensures Agree(StateAt(data, 0), S.Start(data))
  {
    SmallIndices();
    assert data[..MEM_SIZE] == data;
  }

  // ----- Both models end alike -----

  /** What the program is to leave behind. */
  predicate Done(a: S.Arch, data: Bytes) {
    && ReadReg(a.regs, 1) == 5 && ReadReg(a.regs, 2) == 5 && ReadReg(a.regs, 3) == Numbers.ToWord(24)
    && a.mem == Stored(data)
  }

  /** At every latency the pipeline halts with 5 in x1, stored and loaded back into x2, and the return
      address 24 in x3, as the simulator does. */
  lemma BothEndAlike(latency: nat, im: Bytes, data: Bytes)
    requires latency >= 3 && Loaded(im)
    ensures exists n: nat, a: S.Arch ::
              n <= 6 * (latency + 3) && Progress.HaltsWith(latency, im, data, n, a) && Done(a, data)
  {
    hide Image, FitsTo, Agree, F.CoreAt, F.AtHcf, LinkBehindAccess, Program, StateAt, Done, Loaded;
    var c := StateAt(data, 0);
    ProgramIsImage(im);
    RunFits(data);
    RunIs(data, 5);
    StartAgrees(data);
    ModelsAgree(latency, im, data, Program(), c, 5);
    var d := F.CoreAt(Program(), c, 6).value;
    AfterHcf(data);
    var n: nat :| n <= 6 * (latency + 3) && Progress.HaltsWith(latency, im, data, n, Visible(d));
    assert Progress.HaltsWith(latency, im, data, n, Visible(d)) && Done(Visible(d), data);
  }

  lemma AfterHcf(data: Bytes)
    ensures var d := F.CoreAt(Program(), StateAt(data, 0), 6);
            d.Some? && |d.value.mem| >= MEM_SIZE && Done(Visible(d.value), data)
  {
    hide F.StepCore, F.AtHcf, Program, Stored, Rf5, Next;
    RunIs(data, 5);
    RunFits(data);
    F.HcfDoesNothing(Program(), StateAt(data, 5));
    assert F.CoreAt(Program(), StateAt(data, 0), 6) == F.StepCore(Program(), StateAt(data, 5));
    EndsDone(data);
  }

  lemma EndsDone(data: Bytes)
    ensures Done(S.Arch(0, Hardwired(Rf5()), Stored(data)[..MEM_SIZE]), data)
  {
    hide ReadReg, Rf5, Stored, Hardwired, Numbers.ToWord;
    Registers();
    ReadAgrees(Rf5(), 1);
    ReadAgrees(Rf5(), 2);
    ReadAgrees(Rf5(), 3);
    assert Stored(data)[..MEM_SIZE] == Stored(data);
  }
}
