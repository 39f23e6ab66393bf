/** The two models of the repository against each other: the functional simulator and the hardware
    pipeline, running the same program. */
module CrossModel {
  import opened Words
  import opened Numbers
  import opened Addresses
  import opened DataStruct
  import opened Datapath
  import RiscvDefs
  import D = DataMem
  import F = FunctionalCpu
  import M = ByteMemory
  import R = Rv32i
  import S = Sequential

  /** The simulator's registers as the hardware has them: whatever slot 0 holds, x0 is zero. */
  function Hardwired(rf: Regs): Regs { rf[0 := 0] }

  /** The same state in both models; the simulator's memory may be larger. */
  predicate Agree(c: F.Core, a: S.Arch) {
    && c.pc == Index(a.pc) && a.pc & 3 == 0
    && Hardwired(c.rf) == a.regs
    && |c.mem| >= MEM_SIZE && c.mem[..MEM_SIZE] == a.mem
  }

  // ----- Encoding -----

  function ImmOpOf(o: R.ImmOp): Op {
    match o case Addi => Addi case Slti => Slti case Sltiu => Sltiu case Xori => Xori case Ori => Ori case Andi => Andi
  }

  function ShiftOpOf(o: R.ShiftOp): Op {
    match o case Slli => Slli case Srli => Srli case Srai => Srai
  }

  function RegOpOf(o: R.RegOp): Op {
    match o
    case Add => Add case Sub => Sub case Sll => Sll case Slt => Slt case Sltu => Sltu
    case Xor => Xor case Srl => Srl case Sra => Sra case Or => Or case And => And
  }

  function BranchOf(c: R.Cond): Op {
    match c case Beq => Beq case Bne => Bne case Blt => Blt case Bge => Bge case Bltu => Bltu case Bgeu => Bgeu
  }

  function LoadOf(w: R.Width): Op {
    match w case B => Lb case H => Lh case W => Lw case Bu => Lbu case Hu => Lhu
  }

  function StoreOf(w: R.Width): Op {
    match w case B => Sb case H => Sh case _ => Sw
  }

  /** ri is an encoding of the decoded instruction i at pc: signed immediates, branch and jump targets
      relative to pc. */
  predicate Matches(i: Instr, pc: Word, ri: R.Instr) {
    match ri
    case OpImm(o, rd, rs1, imm) => i.op == ImmOpOf(o) && i.a1.reg == rd && i.a2.reg == rs1 && i.a3.imm == R.Imm12(imm)
    case Shift(o, rd, rs1, n) => i.op == ShiftOpOf(o) && i.a1.reg == rd && i.a2.reg == rs1 && i.a3.imm == n as Word
    case OpReg(o, rd, rs1, rs2) =>
      i.op == RegOpOf(o) && i.a1.reg == rd && i.a2.reg == rs1 && i.a3.reg == rs2
    case Lui(rd, imm) => i.op == Lui && i.a1.reg == rd && F.Upper(i.a2.imm) == R.Upper(imm)
    case Auipc(rd, imm) => i.op == Auipc && i.a1.reg == rd && F.Upper(i.a2.imm) == R.Upper(imm)
    case Jal(rd, half) => i.op == Jal && i.a1.reg == rd && i.a2.imm == Sum(pc, R.JumpOffset(half))
    case Jalr(rd, rs1, imm) => i.op == Jalr && i.a1.reg == rd && i.a2.reg == rs1 && i.a3.imm == R.Imm12(imm)
    case Branch(c, rs1, rs2, half) =>
      i.op == BranchOf(c) && i.a1.reg == rs1 && i.a2.reg == rs2 && i.a3.imm == Sum(pc, R.BranchOffset(half))
    case Load(w, rd, rs1, imm) => i.op == LoadOf(w) && i.a1.reg == rd && i.a2.reg == rs1 && i.a3.imm == R.Imm12(imm)
    case Store(w, rs1, rs2, imm) =>
      w != R.Bu && w != R.Hu && i.op == StoreOf(w) && i.a1.reg == rs2 && i.a2.reg == rs1 && i.a3.imm == R.Imm12(imm)
  }

  ghost predicate Encodes(im: Bytes, pc: Pc, i: Instr) {
    if i.op == Hcf then RiscvDefs.Opcode(RiscvDefs.Fetch(im, pc)) == RiscvDefs.HCF
    else exists ri: R.Instr :: Matches(i, Extend(pc), ri) && RiscvDefs.Fetch(im, pc) == R.Encode(ri)
  }

  /** The hardware's instruction memory holds an encoding of every instruction of the program. */
  ghost predicate Image(im: Bytes, imem: seq<Instr>) {
    forall pc: Pc :: pc & 3 == 0 && Index(pc) / 4 < |imem| && imem[Index(pc) / 4].op != Unimpl
      ==> Encodes(im, pc, imem[Index(pc) / 4])
  }

  // ----- Steps both models take alike -----

  function Alignment(op: Op): nat
    ensures Alignment(op) > 0
  {
    match op case Lb | Sb => 1 case Lh | Sh => 2 case _ => 4
  }

  function AddressOf(i: Instr, c: F.Core): Addr {
    ToNum(Sum(ReadReg(c.rf, i.a2.reg), i.a3.imm))
  }

  /** An aligned access below 2^15. */
  predicate Access(op: Op, a: Addr) {
    a + M.Size(op) <= MEM_SIZE && a % Alignment(op) == 0
  }

  /** A place the hardware can be at. */
  predicate Place(pc: int) { 0 <= pc < MEM_SIZE && pc % 4 == 0 }

  /** Where the ISA takes the instruction next, and what it accesses, is within the hardware's 15 bits. */
  predicate InReach(i: Instr, c: F.Core) {
    if IsBranch(i.op) && F.Holds(i.op, ReadReg(c.rf, i.a1.reg), ReadReg(c.rf, i.a2.reg)) then Place(ToNum(i.a3.imm))
    else
      && Next(c.pc) < MEM_SIZE
      && (i.op == Jal ==> Place(ToNum(i.a2.imm)))
      && (i.op == Jalr ==> Place(AddressOf(i, c)))
      && (IsLoad(i.op) || IsStore(i.op) ==> Access(i.op, AddressOf(i, c)))
  }

  /** The instruction has x0 among the registers it reads. */
  predicate ReadsX0(i: Instr) {
    || (i.a2.reg == 0 && (IsRegOp(i.op) || IsImmOp(i.op) || IsLoad(i.op) || IsStore(i.op) || IsBranch(i.op)
       || i.op == Jalr))
    || (i.a3.reg == 0 && IsRegOp(i.op))
    || (i.a1.reg == 0 && (IsStore(i.op) || IsBranch(i.op)))
  }

  /** It does not read x0 while that slot holds a value, such as the link of a plain jump. */
  predicate ReadsZero(i: Instr, c: F.Core) {
    ReadReg(c.rf, 0) != 0 ==> !ReadsX0(i)
  }

  predicate ShiftsByReg(op: Op) { op == Sll || op == Srl || op == Sra }

  /** Where the simulator's own reading of RV32I does what the ISA says: SLTU adds, a register shift is
      not masked, and JALR reads its base after it has written its link. */
  predicate AsIsa(i: Instr, c: F.Core) {
    var x, y := ReadReg(c.rf, i.a2.reg), ReadReg(c.rf, i.a3.reg);
    && (i.op == Sltu && i.a1.reg != 0 ==> Sum(x, y) == Flag(Below(x, y)))
    && (ShiftsByReg(i.op) ==> Below(y, 32))
    && (i.op == Jalr && i.a1.reg == i.a2.reg ==> x == ToWord(Next(c.pc)))
  }

  /** The simulator's state with zero in slot 0. */
  function Zeroed(c: F.Core): F.Core { c.(rf := Hardwired(c.rf)) }

  /** As much of a memory as the hardware has. */
  function LowMem(mem: seq<bv8>): seq<bv8> { if |mem| < MEM_SIZE then mem else mem[..MEM_SIZE] }

  /** The memory an executed store leaves. */
  function StoredMem(i: Instr, c: F.Core): Option<seq<bv8>> {
    M.Store(i.op, c.mem, AddressOf(i, c), ReadReg(c.rf, i.a1.reg))
  }

  predicate Taken(i: Instr, c: F.Core) {
    F.Holds(i.op, ReadReg(c.rf, i.a1.reg), ReadReg(c.rf, i.a2.reg))
  }

  /** A value left in slot 0 shows in the step: it turns a branch that leads elsewhere, misdirects a JALR
      through x0, changes what a store leaves in memory, or changes the value, or takes away the meaning, of
      what is written to another register. */
  predicate ShowsX0(i: Instr, c: F.Core) {
    var z := Zeroed(c);
    if IsBranch(i.op) then Taken(i, c) != Taken(i, z) && ToNum(i.a3.imm) != Next(c.pc)
    else if IsStore(i.op) then
      StoredMem(i, z).Some? && (StoredMem(i, c).None? || LowMem(StoredMem(i, c).value) != LowMem(StoredMem(i, z).value))
    else if i.op == Jalr then i.a2.reg == 0 && ReadReg(c.rf, 0) != 0
    else if F.WritesReg(i.op) then
      F.Written(i, c).None? || (i.a1.reg != 0 && F.Written(i, c) != F.Written(i, z))
    else false
  }

  /** What the simulator's next instruction must satisfy for the hardware to execute it alike: with x0 read
      as zero it is in reach and as the ISA has it, and what slot 0 really holds does not show. */
  predicate Fits(imem: seq<Instr>, c: F.Core) {
    F.Fetch(imem, c.pc).Some? &&
    var i := imem[c.pc / 4];
    i.op != Unimpl && InReach(i, Zeroed(c)) && AsIsa(i, Zeroed(c)) && !ShowsX0(i, c)
  }

  // ----- Operations -----

  predicate IsShift(o: R.RegOp) { o == R.Sll || o == R.Srl || o == R.Sra }

  lemma ArithIsShift(o: R.RegOp, x: Word, y: Word)
    requires IsShift(o)
    ensures F.Arith(RegOpOf(o), x, y) == F.Shift(RegOpOf(o), x, y)
  {
    hide F.Shift;
  }

  lemma RegShift(o: R.RegOp, x: Word, y: Word)
    requires IsShift(o) && F.Shift(RegOpOf(o), x, y).Some?
    ensures F.Shift(RegOpOf(o), x, y).value == R.EvalReg(o, x, y)
  {
    hide ShiftRightArith, R.Sar, Low5, Shl, Shr;
    if o == R.Sra { R.ShiftRightArithIsSar(x, Low5(y)); }
  }

  lemma RegPlain(o: R.RegOp, x: Word, y: Word)
    requires !IsShift(o) && o != R.Sltu
    ensures F.Arith(RegOpOf(o), x, y) == Some(R.EvalReg(o, x, y))
  {
    hide SignedLess, R.Less, F.Shift, R.Sar, Low5, Shl, Shr, Sum, Minus, BitAnd, BitOr, BitXor, Below;
    match o
    case Add =>
    case Sub =>
    case Slt => R.SignedLessIsLess(x, y);
    case Xor =>
    case Or =>
    case And =>
  }

  lemma ShiftDefined(o: R.RegOp, x: Word, y: Word)
    requires IsShift(o)
    ensures F.Shift(RegOpOf(o), x, y).Some? <==> Below(y, 32)
  {
    hide ShiftRightArith, Low5, Shl, Shr;
  }

  lemma SltuAdds(x: Word, y: Word)
    ensures F.Arith(Sltu, x, y) == Some(Sum(x, y)) && R.EvalReg(R.Sltu, x, y) == Flag(Below(x, y))
  {
    hide Sum, Flag, Below, Low5;
  }

  /** A register operation of the simulator is the one of the ISA exactly when it is no SLTU, or one whose
      sum happens to be the comparison, and no shift by 32 or more; of the others only those shifts have no
      meaning at all. */
  lemma RegArithIff(o: R.RegOp, x: Word, y: Word)
    ensures F.Arith(RegOpOf(o), x, y) == Some(R.EvalReg(o, x, y))
            <==> (o == R.Sltu ==> Sum(x, y) == Flag(Below(x, y))) && (IsShift(o) ==> Below(y, 32))
    ensures F.Arith(RegOpOf(o), x, y).Some? <==> (IsShift(o) ==> Below(y, 32))
  {
    hide F.Arith, F.Shift, R.EvalReg, RegOpOf, Sum, Flag, Below;
    if IsShift(o) {
      ArithIsShift(o, x, y);
      ShiftDefined(o, x, y);
      if Below(y, 32) { RegShift(o, x, y); }
    } else if o == R.Sltu {
      SltuAdds(x, y);
      assert RegOpOf(R.Sltu) == Sltu by { OpOfSltu(); }
    } else {
      RegPlain(o, x, y);
    }
  }

  lemma OpOfSltu()
    ensures RegOpOf(R.Sltu) == Sltu
  {
  }

  /** Operands on which it shows: SLTU of 1 and 1, and SLL by 32. */
  lemma RegArithDeparts()
    ensures F.Arith(Sltu, 1, 1) == Some(2) && R.EvalReg(R.Sltu, 1, 1) == 0
    ensures F.Arith(Sll, 1, 32) == None && R.EvalReg(R.Sll, 1, 32) == 1
  {
  }

  lemma ImmArith(o: R.ImmOp, x: Word, y: Word)
    ensures F.Arith(ImmOpOf(o), x, y) == Some(R.EvalImm(o, x, y))
  {
    hide SignedLess, R.Less, Sum, BitAnd, BitOr, BitXor, Below;
    match o
    case Slti => R.SignedLessIsLess(x, y);
    case Addi =>
    case Sltiu =>
    case Xori =>
    case Ori =>
    case Andi =>
  }

  lemma ShiftArith(o: R.ShiftOp, x: Word, n: bv5)
    ensures F.Arith(ShiftOpOf(o), x, n as Word) == Some(R.EvalShift(o, x, n))
  {
    hide ShiftRightArith, R.Sar, Low5, Shl, Shr;
    AmountBack(n);
    R.ShiftRightArithIsSar(x, n);
  }

  lemma AmountBack(n: bv5)
    ensures Low5(n as Word) == n && (n as Word) < 32
  {
  }

  lemma CondHolds(c: R.Cond, x: Word, y: Word)
    ensures F.Holds(BranchOf(c), x, y) == R.Holds(c, x, y)
  {
    hide SignedLess, R.Less;
    R.SignedLessIsLess(x, y);
  }

  lemma RegIndexBack(r: bv5)
    ensures (r as int) as bv5 == r
  {
  }

  /** A register write, seen through the hardwired x0. */
  lemma PutAgrees(rf: Regs, rd: bv5, v: Word)
    ensures Hardwired(F.Put(rf, rd, v)) == R.SetReg(Hardwired(rf), rd, v)
  {
    RegIndexBack(rd);
  }

  /** A register read is the hardware's unless it finds a value in x0. */
  lemma ReadAgrees(rf: Regs, r: bv5)
    requires r == 0 ==> ReadReg(rf, 0) == 0
    ensures ReadReg(rf, r) == ReadReg(Hardwired(rf), r)
  {
    RegIndexBack(r);
  }

  lemma PcAgrees(c: F.Core, a: S.Arch)
    requires c.pc == Index(a.pc) && a.pc & 3 == 0
    ensures c.pc < MEM_SIZE && ToWord(c.pc) == Extend(a.pc) && c.pc % 4 == 0
    ensures Next(c.pc) == c.pc + 4
    ensures Next(c.pc) < MEM_SIZE ==>
              Next(c.pc) == Index(Plus4(a.pc)) && Plus4(a.pc) & 3 == 0 && ToWord(Next(c.pc)) == Extend(Plus4(a.pc))
  {
    hide Index, ToWord, ToNum;
    IndexIsNum(a.pc);
    LowBits(a.pc);
    if Next(c.pc) < MEM_SIZE {
      IndexPlus4(a.pc);
      IndexIsNum(Plus4(a.pc));
    }
  }

  /** A word-aligned target below 2^15 is the same place in both models. */
  lemma TargetAgrees(w: Word)
    requires ToNum(w) < MEM_SIZE && ToNum(w) % 4 == 0
    ensures ToNum(w) == Index(Low15(w)) && Low15(w) & 3 == 0 && Low15(R.ClearBit0(w)) == Low15(w) && R.Even(w)
  {
    hide Index, ToNum, Low15, R.ClearBit0, R.Even;
    LowIsExact(w);
    LowBits(Low15(w));
    EvenWord(w);
    R.ClearingBit0(w);
  }

  lemma EvenWord(w: Word)
    ensures Low15(w) & 3 == 0 ==> R.Even(w)
  {
  }

  // ----- Memory -----

  lemma HalfAndWord(mem: Bytes, p: Pc)
    ensures Pack(ByteAt(mem, p), 0, 0, 0) == R.ReadByte(mem, p)
    ensures Pack(ByteAt(mem, p), ByteAfter(mem, p, 1), 0, 0) == R.ReadHalf(mem, p)
    ensures Pack(ByteAt(mem, p), ByteAfter(mem, p, 1), ByteAfter(mem, p, 2), ByteAfter(mem, p, 3)) == R.ReadWord(mem, p)
  {
    hide ByteAt, ByteAfter;
  }

  lemma AccessIsLow(op: Op, w: Word)
    requires (IsLoad(op) || IsStore(op)) && Access(op, ToNum(w))
    ensures var p := Low15(w);
            && Index(p) == ToNum(w)
            && (Alignment(op) == 4 ==> p & 3 == 0) && (Alignment(op) == 2 ==> p & 1 == 0)
    ensures var p := Low15(w);
            && (Alignment(op) == 4 ==>
                  Index(p + 1) == Index(p) + 1 && Index(p + 2) == Index(p) + 2 && Index(p + 3) == Index(p) + 3)
            && (Alignment(op) == 2 ==> Index(p + 1) == Index(p) + 1)
  {
    hide ToNum, Index, Low15, IsLoad, IsStore, Access, Alignment;
    AccessInside(op, ToNum(w));
    LowIsExact(w);
    LowBits(Low15(w));
    Offsets(Low15(w));
  }

  lemma AccessInside(op: Op, a: Addr)
    requires (IsLoad(op) || IsStore(op)) && Access(op, a)
    ensures a < MEM_SIZE && (Alignment(op) == 4 ==> a % 4 == 0) && (Alignment(op) == 2 ==> a % 2 == 0)
  {
  }

  lemma BytesAfter(bytes: Bytes, op: Op, addr: Word)
    requires IsLoad(op) && Access(op, ToNum(addr))
    ensures var a, p := ToNum(addr), Low15(addr);
            && ByteAt(bytes, p) == bytes[a]
            && (M.Size(op) == 2 ==> ByteAfter(bytes, p, 1) == bytes[a + 1])
            && (M.Size(op) == 4 ==> ByteAfter(bytes, p, 1) == bytes[a + 1] && ByteAfter(bytes, p, 2) == bytes[a + 2]
                                    && ByteAfter(bytes, p, 3) == bytes[a + 3])
  {
    hide ToNum, Index, Low15;
    AccessIsLow(op, addr);
  }

  /** The bytes the simulator reads are those the hardware reads. */
  lemma ValuesAgree(mem: seq<bv8>, bytes: Bytes, op: Op, addr: Word)
    requires |mem| >= MEM_SIZE && mem[..MEM_SIZE] == bytes && IsLoad(op) && Access(op, ToNum(addr))
    requires ToNum(addr) + M.Size(op) <= |mem|
    ensures var n, p := M.Size(op), Low15(addr);
            var v := M.Value(mem[ToNum(addr)..ToNum(addr) + n]);
            v == if n == 1 then R.ReadByte(bytes, p) else if n == 2 then R.ReadHalf(bytes, p) else R.ReadWord(bytes, p)
  {
    hide ToNum, Low15, Pack, R.ReadByte, R.ReadHalf, R.ReadWord, ByteAt, ByteAfter;
    AccessFits(op, ToNum(addr));
    BytesAfter(bytes, op, addr);
    HalfAndWord(bytes, Low15(addr));
    var a, n := ToNum(addr), M.Size(op);
    var read := mem[a..a + n];
    assert forall k :: 0 <= k < n ==> read[k] == bytes[a + k];
  }

  lemma AccessFits(op: Op, a: Addr)
    requires Access(op, a)
    ensures a + M.Size(op) <= MEM_SIZE
  {
  }

  lemma LoadsAgree(mem: seq<bv8>, bytes: Bytes, w: R.Width, addr: Word)
    requires |mem| >= MEM_SIZE && mem[..MEM_SIZE] == bytes && Access(LoadOf(w), ToNum(addr))
    ensures M.Load(LoadOf(w), mem, ToNum(addr)) == Some(R.ReadMem(bytes, w, Low15(addr)))
  {
    hide Access, Alignment, ToNum, Low15, R.ReadByte, R.ReadHalf, R.ReadWord, Signed, M.Value;
    AccessFits(LoadOf(w), ToNum(addr));
    ValuesAgree(mem, bytes, LoadOf(w), addr);
  }

  lemma AccessIsAligned(w: R.Width, addr: Word)
    requires Access(LoadOf(w), ToNum(addr))
    ensures R.NaturallyAligned(w, Low15(addr))
  {
    hide ToNum, Low15, Index;
    AccessIsLow(LoadOf(w), addr);
  }

  lemma ByteOfIsByteK(v: Word)
    ensures D.ByteOf(v, 0) == ByteK(v, 0) && D.ByteOf(v, 8) == ByteK(v, 1)
    ensures D.ByteOf(v, 16) == ByteK(v, 2) && D.ByteOf(v, 24) == ByteK(v, 3)
  {
  }

  lemma StoresAgree(mem: seq<bv8>, bytes: Bytes, w: R.Width, addr: Word, v: Word)
    requires |mem| >= MEM_SIZE && mem[..MEM_SIZE] == bytes && w != R.Bu && w != R.Hu && Access(StoreOf(w), ToNum(addr))
    ensures var m := M.Store(StoreOf(w), mem, ToNum(addr), v);
            m.Some? && |m.value| == |mem| && m.value[..MEM_SIZE] == R.WriteMem(bytes, w, Low15(addr), v)
    ensures R.NaturallyAligned(w, Low15(addr))
  {
    hide ToNum, Index, Low15, ByteK, D.ByteOf;
    AccessIsLow(StoreOf(w), addr);
    ByteOfIsByteK(v);
    var m := M.Store(StoreOf(w), mem, ToNum(addr), v).value;
    assert m[..MEM_SIZE] == R.WriteMem(bytes, w, Low15(addr), v);
  }

  // ----- One instruction -----

  /** What the two states have in common. */
  lemma Common(c: F.Core, a: S.Arch)
    requires Agree(c, a)
    ensures Hardwired(c.rf) == a.regs && c.mem[..MEM_SIZE] == a.mem && c.pc == Index(a.pc) && a.pc & 3 == 0
    ensures |c.mem| >= MEM_SIZE
  {
  }

  /** The step of the simulator, if there is one, is that of the ISA. */
  predicate StepsAlike(i: Instr, c: F.Core, ri: R.Instr, a: S.Arch) {
    F.Process(i, c).Some? && Agree(F.Process(i, c).value, R.IsaStep(ri, a))
  }

  /** An agreeing state whose instruction is within the hardware's reach, and an encoding of it. */
  predicate Ready(i: Instr, c: F.Core, ri: R.Instr, a: S.Arch) {
    Agree(c, a) && Matches(i, Extend(a.pc), ri) && ReadsZero(i, c) && InReach(i, c)
  }

  /** Writing a register and going on to the next instruction. */
  lemma WritesAlike(c: F.Core, a: S.Arch, rd: bv5, v: Word)
    requires Agree(c, a) && Next(c.pc) < MEM_SIZE
    ensures Agree(F.Core(Next(c.pc), F.Put(c.rf, rd, v), c.mem), S.Arch(Plus4(a.pc), R.SetReg(a.regs, rd, v), a.mem))
  {
    hide Index, ToWord, F.Put, R.SetReg, ReadReg, Extend, Plus4, Next, Hardwired;
    PcAgrees(c, a);
    PutAgrees(c.rf, rd, v);
  }

  lemma ImmFields(i: Instr, c: F.Core, ri: R.Instr, a: S.Arch)
    requires Ready(i, c, ri, a) && ri.OpImm?
    ensures i.op == ImmOpOf(ri.iop) && i.a1.reg == ri.rd && i.a2.reg == ri.rs1 && i.a3.imm == R.Imm12(ri.imm12)
    ensures Agree(c, a) && ReadsZero(i, c) && InReach(i, c)
  {
    hide Agree, Extend, R.Imm12, InReach, ReadsZero, ImmOpOf;
  }

  lemma ImmOpKind(o: R.ImmOp)
    ensures var op := ImmOpOf(o);
            && IsImmOp(op) && !IsRegOp(op) && !IsBranch(op) && !IsLoad(op) && !IsStore(op)
            && op != Jal && op != Jalr && op != Sltu && !ShiftsByReg(op)
  {
  }

  lemma ImmFacts(i: Instr, c: F.Core, ri: R.Instr, a: S.Arch)
    requires Ready(i, c, ri, a) && ri.OpImm?
    ensures F.WritesReg(i.op) && F.Written(i, c) == F.Arith(ImmOpOf(ri.iop), ReadReg(c.rf, ri.rs1), R.Imm12(ri.imm12))
    ensures i.op != Jal && i.op != Jalr && i.a1.reg == ri.rd && Next(c.pc) < MEM_SIZE && Agree(c, a)
    ensures (ri.rs1 == 0 ==> ReadReg(c.rf, 0) == 0) && AsIsa(i, c)
  {
    hide Ready, F.Arith, Agree, ToNum, ToWord, ReadReg, Next, Sum, F.Holds, Flag, Below, R.Imm12, ImmOpOf,
      IsImmOp, IsRegOp, IsBranch, IsLoad, IsStore, ShiftsByReg, Access;
    ImmFields(i, c, ri, a);
    ImmOpKind(ri.iop);
  }

  lemma StepOpImm(i: Instr, c: F.Core, ri: R.Instr, a: S.Arch)
    requires Ready(i, c, ri, a) && ri.OpImm?
    ensures AsIsa(i, c) && StepsAlike(i, c, ri, a)
  {
    hide Ready, AsIsa, F.Written, F.WritesReg, ImmOpOf;
    ImmFacts(i, c, ri, a);
    hide F.Process, F.Arith, R.EvalShift, R.EvalImm, R.EvalReg, Agree, Index, ToNum, ToWord, F.Put, R.SetReg,
      ReadReg, Extend, Plus4, Next, R.Imm12, Sum, F.Holds, R.ReadMem, R.WriteMem, Low15, R.BranchOffset,
      R.JumpOffset, R.Holds, M.Load, M.Store, Access, Place, Flag, Below;
    Common(c, a);
    F.WritesIt(i, c);
    ReadAgrees(c.rf, ri.rs1);
    ImmArith(ri.iop, ReadReg(c.rf, ri.rs1), R.Imm12(ri.imm12));
    WritesAlike(c, a, ri.rd, R.EvalImm(ri.iop, ReadReg(c.rf, ri.rs1), R.Imm12(ri.imm12)));
  }

  lemma ShiftFacts(i: Instr, c: F.Core, ri: R.Instr, a: S.Arch)
    requires Ready(i, c, ri, a) && ri.Shift?
    ensures F.WritesReg(i.op) && F.Written(i, c) == F.Arith(ShiftOpOf(ri.sop), ReadReg(c.rf, ri.rs1), ri.shamt as Word)
    ensures i.op != Jal && i.op != Jalr && i.a1.reg == ri.rd && Next(c.pc) < MEM_SIZE && Agree(c, a)
    ensures (ri.rs1 == 0 ==> ReadReg(c.rf, 0) == 0) && AsIsa(i, c)
  {
    hide F.Arith, Agree, Index, ToNum, ToWord, ReadReg, Extend, Next, Sum, F.Holds, Flag, Below;
  }

  lemma StepShift(i: Instr, c: F.Core, ri: R.Instr, a: S.Arch)
    requires Ready(i, c, ri, a) && ri.Shift?
    ensures AsIsa(i, c) && StepsAlike(i, c, ri, a)
  {
    hide Ready, AsIsa, F.Written, F.WritesReg, ShiftOpOf;
    ShiftFacts(i, c, ri, a);
    hide F.Process, F.Arith, R.EvalShift, R.EvalImm, R.EvalReg, Agree, Index, ToNum, ToWord, F.Put, R.SetReg,
      ReadReg, Extend, Plus4, Next, R.Imm12, Sum, F.Holds, R.ReadMem, R.WriteMem, Low15, R.BranchOffset,
      R.JumpOffset, R.Holds, M.Load, M.Store, Access, Place, Flag, Below;
    Common(c, a);
    F.WritesIt(i, c);
    ReadAgrees(c.rf, ri.rs1);
    ShiftArith(ri.sop, ReadReg(c.rf, ri.rs1), ri.shamt);
    WritesAlike(c, a, ri.rd, R.EvalShift(ri.sop, ReadReg(c.rf, ri.rs1), ri.shamt));
  }

  /** A different value shows unless it is written to x0. */
  lemma SameWrite(c: F.Core, a: S.Arch, rd: bv5, v: Word, w: Word)
    requires Agree(c, a) && Next(c.pc) < MEM_SIZE && v != w
    ensures Agree(F.Core(Next(c.pc), F.Put(c.rf, rd, v), c.mem), S.Arch(Plus4(a.pc), R.SetReg(a.regs, rd, w), a.mem))
            <==> rd == 0
  {
    hide Index, ToWord, F.Put, R.SetReg, ReadReg, Extend, Plus4, Next, Hardwired;
    PutAgrees(c.rf, rd, v);
    WritesAlike(c, a, rd, v);
    if rd == 0 { DroppedWrite(a.regs, v, w); } else { R.SetRegDiffers(a.regs, rd, v, w); }
  }

  lemma DroppedWrite(regs: Regs, v: Word, w: Word)
    ensures R.SetReg(regs, 0, v) == R.SetReg(regs, 0, w)
  {
  }

  lemma RegFields(i: Instr, c: F.Core, ri: R.Instr, a: S.Arch)
    requires Ready(i, c, ri, a) && ri.OpReg?
    ensures i.op == RegOpOf(ri.rop) && i.a1.reg == ri.rd && i.a2.reg == ri.rs1 && i.a3.reg == ri.rs2
    ensures Agree(c, a) && ReadsZero(i, c) && InReach(i, c)
  {
    hide Agree, Extend, InReach, ReadsZero, RegOpOf;
  }

  lemma RegOpKind(o: R.RegOp)
    ensures var op := RegOpOf(o);
            && IsRegOp(op) && !IsImmOp(op) && !IsBranch(op) && !IsLoad(op) && !IsStore(op) && op != Jal && op != Jalr
            && (op == Sltu <==> o == R.Sltu) && (ShiftsByReg(op) <==> IsShift(o))
  {
  }

  lemma RegFacts(i: Instr, c: F.Core, ri: R.Instr, a: S.Arch)
    requires Ready(i, c, ri, a) && ri.OpReg?
    ensures F.WritesReg(i.op) && i.op == RegOpOf(ri.rop)
    ensures F.Written(i, c) == F.Arith(i.op, ReadReg(c.rf, ri.rs1), ReadReg(c.rf, ri.rs2))
    ensures i.op != Jal && i.op != Jalr && i.a1.reg == ri.rd && Next(c.pc) < MEM_SIZE && Agree(c, a)
    ensures ri.rs1 == 0 || ri.rs2 == 0 ==> ReadReg(c.rf, 0) == 0
    ensures AsIsa(i, c) <==>
            var x, y := ReadReg(c.rf, ri.rs1), ReadReg(c.rf, ri.rs2);
            (ri.rop == R.Sltu && ri.rd != 0 ==> Sum(x, y) == Flag(Below(x, y))) && (IsShift(ri.rop) ==> Below(y, 32))
  {
    hide Ready, F.Arith, Agree, ToNum, ToWord, ReadReg, Next, Sum, F.Holds, Flag, Below, RegOpOf, IsImmOp,
      IsRegOp, IsBranch, IsLoad, IsStore, ShiftsByReg, IsShift, Access;
    RegFields(i, c, ri, a);
    RegOpKind(ri.rop);
  }

  lemma StepOpReg(i: Instr, c: F.Core, ri: R.Instr, a: S.Arch)
    requires Ready(i, c, ri, a) && ri.OpReg?
    ensures AsIsa(i, c) <==> StepsAlike(i, c, ri, a)
  {
    hide Ready, AsIsa, F.Written, F.WritesReg, RegOpOf;
    RegFacts(i, c, ri, a);
    hide F.Process, F.Arith, R.EvalShift, R.EvalImm, R.EvalReg, Agree, Index, ToNum, ToWord, F.Put, R.SetReg,
      ReadReg, Extend, Plus4, Next, R.Imm12, Sum, F.Holds, R.ReadMem, R.WriteMem, Low15, R.BranchOffset,
      R.JumpOffset, R.Holds, M.Load, M.Store, Access, Place, Flag, Below;
    Common(c, a);
    F.WritesIt(i, c);
    ReadAgrees(c.rf, ri.rs1);
    ReadAgrees(c.rf, ri.rs2);
    var x, y := ReadReg(c.rf, ri.rs1), ReadReg(c.rf, ri.rs2);
    RegArithIff(ri.rop, x, y);
    if F.Arith(i.op, x, y).Some? {
      var v, w := F.Arith(i.op, x, y).value, R.EvalReg(ri.rop, x, y);
      if v == w { WritesAlike(c, a, ri.rd, v); } else { SameWrite(c, a, ri.rd, v, w); }
    }
  }

  lemma StepUpper(i: Instr, c: F.Core, ri: R.Instr, a: S.Arch)
    requires Ready(i, c, ri, a) && (ri.Lui? || ri.Auipc?)
    ensures AsIsa(i, c) && StepsAlike(i, c, ri, a)
  {
    hide F.Process, F.Upper, R.Upper, Agree, Index, ToNum, ToWord, F.Put, R.SetReg, ReadReg, Extend, Plus4,
      Next, R.Imm12, Sum, F.Holds;
    Common(c, a);
    F.WritesIt(i, c);
    PcAgrees(c, a);
    WritesAlike(c, a, ri.rd, if ri.Lui? then R.Upper(ri.imm20) else Sum(Extend(a.pc), R.Upper(ri.imm20)));
  }

  /** Writing a link and going to a target the hardware can be at. */
  lemma LinksAlike(c: F.Core, a: S.Arch, rd: bv5, target: Word)
    requires Agree(c, a) && Next(c.pc) < MEM_SIZE && Place(ToNum(target))
    ensures Agree(F.Core(ToNum(target), F.Put(c.rf, rd, ToWord(Next(c.pc))), c.mem),
                  S.Arch(Low15(target), R.SetReg(a.regs, rd, Extend(Plus4(a.pc))), a.mem))
    ensures Low15(R.ClearBit0(target)) == Low15(target) && R.Even(target) && ToNum(target) == Index(Low15(target))
  {
    hide Index, ToNum, ToWord, F.Put, R.SetReg, ReadReg, Extend, Plus4, Next, R.ClearBit0, R.Even, Low15, Hardwired;
    PcAgrees(c, a);
    TargetAgrees(target);
    PutAgrees(c.rf, rd, ToWord(Next(c.pc)));
  }

  lemma StepJal(i: Instr, c: F.Core, ri: R.Instr, a: S.Arch)
    requires Ready(i, c, ri, a) && ri.Jal?
    ensures AsIsa(i, c) && StepsAlike(i, c, ri, a)
  {
    hide F.Process, Agree, Low15, R.JumpOffset, Index, ToNum, ToWord, F.Put, R.SetReg, ReadReg, Extend, Plus4,
      Next, R.Imm12, Sum, F.Holds, Place;
    Common(c, a);
    F.WritesIt(i, c);
    LinksAlike(c, a, ri.rd, i.a2.imm);
  }

  lemma ReadsBack(rf: Regs, rd: bv5, v: Word, rs: bv5)
    ensures ReadReg(F.Put(rf, rd, v), rs) == if rs == rd then v else ReadReg(rf, rs)
  {
    RegIndexBack(rd);
    RegIndexBack(rs);
  }

  /** Different words, offset alike, are different places. */
  lemma OffsetApart(x: Word, y: Word, imm: Word)
    ensures ToNum(Sum(x, imm)) == ToNum(Sum(y, imm)) <==> x == y
  {
    hide ToNum, ToWord, Sum;
    WordBack(Sum(x, imm));
    WordBack(Sum(y, imm));
    SumCancels(x, y, imm);
  }

  lemma SumCancels(x: Word, y: Word, imm: Word)
    ensures Sum(x, imm) == Sum(y, imm) <==> x == y
  {
    hide Sum, Minus;
    MinusSum(x, imm);
    MinusSum(y, imm);
  }

  /** Subtracting undoes adding. */
  lemma MinusSum(x: Word, imm: Word)
    ensures Minus(Sum(x, imm), imm) == x
  {
    hide Sum, Minus;
    SumIs(x, imm);
    MinusPlain(x, imm);
  }

  lemma SumIs(x: Word, y: Word)
    ensures Sum(x, y) == x + y
  {
  }

  lemma MinusPlain(x: Word, imm: Word)
    ensures Minus(x + imm, imm) == x
  {
  }

  /** JALR goes where the ISA goes exactly when the register it links in is not its base, or already holds
      the link. */
  lemma StepJalr(i: Instr, c: F.Core, ri: R.Instr, a: S.Arch)
    requires Ready(i, c, ri, a) && ri.Jalr?
    ensures AsIsa(i, c) <==> StepsAlike(i, c, ri, a)
    ensures R.Supported(ri, a.regs)
  {
    hide F.Process, Agree, Low15, R.ClearBit0, R.Even, Index, ToNum, ToWord, F.Put, R.SetReg, ReadReg, Extend,
      Plus4, Next, R.Imm12, Sum, F.Holds, Place;
    Common(c, a);
    F.WritesIt(i, c);
    ReadAgrees(c.rf, ri.rs1);
    var base, link := ReadReg(c.rf, ri.rs1), ToWord(Next(c.pc));
    var target := Sum(base, i.a3.imm);
    ReadsBack(c.rf, ri.rd, link, ri.rs1);
    LinksAlike(c, a, ri.rd, target);
    OffsetApart(link, base, i.a3.imm);
    if StepsAlike(i, c, ri, a) { Common(F.Process(i, c).value, R.IsaStep(ri, a)); }
  }

  lemma GoesOnAlike(c: F.Core, a: S.Arch)
    requires Agree(c, a) && Next(c.pc) < MEM_SIZE
    ensures Agree(c.(pc := Next(c.pc)), a.(pc := Plus4(a.pc)))
  {
    hide Index, ToWord, ReadReg, Extend, Plus4, Next;
    PcAgrees(c, a);
  }

  lemma GoesToAlike(c: F.Core, a: S.Arch, target: Word)
    requires Agree(c, a) && Place(ToNum(target))
    ensures Agree(c.(pc := ToNum(target)), a.(pc := Low15(target)))
  {
    hide Index, ToNum, ReadReg, Low15, R.ClearBit0, R.Even;
    TargetAgrees(target);
  }


  lemma StepBranch(i: Instr, c: F.Core, ri: R.Instr, a: S.Arch)
    requires Ready(i, c, ri, a) && ri.Branch?
    ensures AsIsa(i, c) && StepsAlike(i, c, ri, a)
  {
    hide F.Process, Agree, Low15, R.BranchOffset, F.Holds, R.Holds, Index, ToNum, ToWord, F.Put, ReadReg,
      Extend, Plus4, Next, Sum, Place;
    Common(c, a);
    F.BranchGoes(i, c);
    ReadAgrees(c.rf, ri.rs1);
    ReadAgrees(c.rf, ri.rs2);
    CondHolds(ri.cond, ReadReg(c.rf, ri.rs1), ReadReg(c.rf, ri.rs2));
    if F.Holds(i.op, ReadReg(c.rf, ri.rs1), ReadReg(c.rf, ri.rs2)) {
      GoesToAlike(c, a, i.a3.imm);
    } else {
      GoesOnAlike(c, a);
    }
  }

  lemma StepLoad(i: Instr, c: F.Core, ri: R.Instr, a: S.Arch)
    requires Ready(i, c, ri, a) && ri.Load?
    ensures AsIsa(i, c) && StepsAlike(i, c, ri, a) && R.Supported(ri, a.regs)
  {
    hide F.Process, Agree, Low15, M.Load, R.ReadMem, R.NaturallyAligned, Access, Index, ToNum, ToWord, F.Put,
      R.SetReg, ReadReg, Extend, Plus4, Next, R.Imm12, Sum, F.Holds, Place;
    Common(c, a);
    F.WritesIt(i, c);
    ReadAgrees(c.rf, ri.rs1);
    var addr := Sum(ReadReg(c.rf, ri.rs1), i.a3.imm);
    LoadsAgree(c.mem, a.mem, ri.width, addr);
    AccessIsAligned(ri.width, addr);
    WritesAlike(c, a, ri.rd, R.ReadMem(a.mem, ri.width, Low15(addr)));
  }


  lemma StepStore(i: Instr, c: F.Core, ri: R.Instr, a: S.Arch)
    requires Ready(i, c, ri, a) && ri.Store?
    ensures AsIsa(i, c) && StepsAlike(i, c, ri, a) && R.Supported(ri, a.regs)
  {
    hide F.Process, Low15, M.Store, R.WriteMem, R.NaturallyAligned, Access, Index, ToNum, ToWord, ReadReg,
      Extend, Plus4, Next, R.Imm12, Sum, F.Holds, Place, Hardwired;
    PcAgrees(c, a);
    F.StoreGoes(i, c);
    ReadAgrees(c.rf, ri.rs1);
    ReadAgrees(c.rf, ri.rs2);
    StoresAgree(c.mem, a.mem, ri.width, Sum(ReadReg(c.rf, ri.rs1), i.a3.imm), ReadReg(c.rf, ri.rs2));
  }

  /** The simulator against RV32I, exactly. Whenever the models agree, the next instruction stays within the
      hardware's reach and no stale value in x0 is read: the simulator's step is that of the ISA if and only
      if the instruction is none of SLTU, a register shift and a JALR through its own base, or one of them on
      operands where the difference does not show. */
  lemma StepIsIsaIff(imem: seq<Instr>, c: F.Core, a: S.Arch, i: Instr, ri: R.Instr)
    requires F.Fetch(imem, c.pc) == Some(i) && Ready(i, c, ri, a)
    ensures AsIsa(i, c) <==> F.StepCore(imem, c).Some? && Agree(F.StepCore(imem, c).value, R.IsaStep(ri, a))
    ensures R.Supported(ri, a.regs) && R.Legal(ri)
  {
    hide Ready, AsIsa, Agree, R.IsaStep, F.Process, Extend, R.NaturallyAligned, Low15, ReadReg, R.Target;
    assert Matches(i, Extend(a.pc), ri) by { MatchOf(i, c, ri, a); }
    match ri
    case OpImm(_, _, _, _) => StepOpImm(i, c, ri, a);
    case Shift(_, _, _, _) => StepShift(i, c, ri, a);
    case OpReg(_, _, _, _) => StepOpReg(i, c, ri, a);
    case Lui(_, _) => StepUpper(i, c, ri, a);
    case Auipc(_, _) => StepUpper(i, c, ri, a);
    case Jal(_, _) => StepJal(i, c, ri, a);
    case Jalr(_, _, _) => StepJalr(i, c, ri, a);
    case Branch(_, _, _, _) => StepBranch(i, c, ri, a);
    case Load(_, _, _, _) => StepLoad(i, c, ri, a);
    case Store(_, _, _, _) => StepStore(i, c, ri, a);
  }

  lemma MatchOf(i: Instr, c: F.Core, ri: R.Instr, a: S.Arch)
    requires Ready(i, c, ri, a)
    ensures Matches(i, Extend(a.pc), ri)
  {
  }

  // ----- A value left in slot 0 -----

  lemma ZeroedFacts(c: F.Core)
    ensures Hardwired(Zeroed(c).rf) == Hardwired(c.rf) && ReadReg(Zeroed(c).rf, 0) == 0
    ensures ReadReg(c.rf, 0) == 0 ==> Zeroed(c) == c
  {
  }

  /** Which states agree with the ISA's next state, once one of them is known to. */
  lemma AgreeLike(d: F.Core, e: F.Core, a: S.Arch)
    requires Agree(d, a)
    ensures Agree(e, a)
            <==>
            (e.pc == d.pc && Hardwired(e.rf) == Hardwired(d.rf) && |e.mem| >= MEM_SIZE
                && LowMem(e.mem) == LowMem(d.mem))
  {
    hide Index, Hardwired;
  }

  lemma SetRegIff(regs: Regs, rd: bv5, v: Word, w: Word)
    ensures R.SetReg(regs, rd, v) == R.SetReg(regs, rd, w) <==> rd == 0 || v == w
  {
    hide R.SetReg;
    if rd == 0 { DroppedWrite(regs, v, w); } else if v != w { R.SetRegDiffers(regs, rd, v, w); }
  }

  /** The cases of a register write. */
  lemma StaleWrite(i: Instr, c: F.Core, ri: R.Instr, a: S.Arch)
    requires F.WritesReg(i.op) && i.op != Jalr && !IsBranch(i.op) && !IsStore(i.op)
    requires StepsAlike(i, Zeroed(c), ri, a)
    ensures StepsAlike(i, c, ri, a) <==> !ShowsX0(i, c)
  {
    hide F.Process, F.Written, F.WritesReg, Agree, R.IsaStep, Hardwired, ReadReg, F.Put, R.SetReg, Next, ToNum,
      IsBranch, IsStore, LowMem, Taken;
    var z := Zeroed(c);
    ZeroedFacts(c);
    F.WritesIt(i, c);
    F.WritesIt(i, z);
    if F.Written(i, c).Some? {
      var v, w := F.Written(i, c).value, F.Written(i, z).value;
      AgreeLike(F.Process(i, z).value, F.Process(i, c).value, R.IsaStep(ri, a));
      PutAgrees(c.rf, i.a1.reg, v);
      PutAgrees(z.rf, i.a1.reg, w);
      SetRegIff(Hardwired(c.rf), i.a1.reg, v, w);
      SameLength(i, z, ri, a);
    }
  }

  /** A step that agrees with the ISA leaves enough memory. */
  lemma SameLength(i: Instr, c: F.Core, ri: R.Instr, a: S.Arch)
    requires StepsAlike(i, c, ri, a)
    ensures |F.Process(i, c).value.mem| >= MEM_SIZE
  {
    hide F.Process, R.IsaStep, Index, Hardwired;
  }

  lemma StaleBranch(i: Instr, c: F.Core, ri: R.Instr, a: S.Arch)
    requires IsBranch(i.op) && StepsAlike(i, Zeroed(c), ri, a)
    ensures StepsAlike(i, c, ri, a) <==> !ShowsX0(i, c)
  {
    hide F.Process, Agree, R.IsaStep, Hardwired, ReadReg, Next, ToNum, LowMem, F.Holds, IsBranch;
    ZeroedFacts(c);
    F.BranchGoes(i, c);
    F.BranchGoes(i, Zeroed(c));
    SameLength(i, Zeroed(c), ri, a);
    AgreeLike(F.Process(i, Zeroed(c)).value, F.Process(i, c).value, R.IsaStep(ri, a));
  }

  lemma StoreNeverGrows(op: Op, mem: seq<bv8>, at: Addr, v: Word)
    requires M.Store(op, mem, at, v).Some?
    ensures |M.Store(op, mem, at, v).value| == |mem|
  {
    hide M.BytesOf;
  }

  lemma StaleStore(i: Instr, c: F.Core, ri: R.Instr, a: S.Arch)
    requires IsStore(i.op) && !IsBranch(i.op) && StepsAlike(i, Zeroed(c), ri, a)
    ensures StepsAlike(i, c, ri, a) <==> !ShowsX0(i, c)
  {
    hide F.Process, Agree, R.IsaStep, Hardwired, ReadReg, Next, ToNum, LowMem, M.Store, Sum, IsStore, IsBranch;
    var z := Zeroed(c);
    ZeroedFacts(c);
    F.StoreGoes(i, c);
    F.StoreGoes(i, z);
    SameLength(i, z, ri, a);
    StoreNeverGrows(i.op, z.mem, AddressOf(i, z), ReadReg(z.rf, i.a1.reg));
    if StoredMem(i, c).Some? {
      StoreNeverGrows(i.op, c.mem, AddressOf(i, c), ReadReg(c.rf, i.a1.reg));
      AgreeLike(F.Process(i, z).value, F.Process(i, c).value, R.IsaStep(ri, a));
    }
  }


  /** A small address is not the word zero. */
  lemma LinkIsNotZero(n: int)
    requires 0 < n < MEM_SIZE
    ensures ToWord(n) != 0
  {
    hide ToWord, ToNum;
    NumBack(n);
    ZeroIsZero();
  }

  lemma ZeroIsZero()
    ensures ToNum(0) == 0
  {
  }

  lemma StaleJalr(i: Instr, c: F.Core, ri: R.Instr, a: S.Arch)
    requires i.op == Jalr && AsIsa(i, Zeroed(c)) && 0 < Next(c.pc) < MEM_SIZE && StepsAlike(i, Zeroed(c), ri, a)
    ensures StepsAlike(i, c, ri, a) <==> !ShowsX0(i, c)
  {
    hide F.Process, Agree, R.IsaStep, Hardwired, ReadReg, F.Put, R.SetReg, Next, ToNum, ToWord, LowMem, Sum,
      Flag, Below;
    var z, link := Zeroed(c), ToWord(Next(c.pc));
    ZeroedFacts(c);
    F.JalrGoes(i, c);
    F.JalrGoes(i, z);
    SameLength(i, z, ri, a);
    AgreeLike(F.Process(i, z).value, F.Process(i, c).value, R.IsaStep(ri, a));
    PutAgrees(c.rf, i.a1.reg, link);
    PutAgrees(z.rf, i.a1.reg, link);
    ReadsBack(c.rf, i.a1.reg, link, i.a2.reg);
    ReadsBack(z.rf, i.a1.reg, link, i.a2.reg);
    LinkIsNotZero(Next(c.pc));
    if i.a2.reg == 0 {
      OffsetApart(ReadReg(c.rf, 0), 0, i.a3.imm);
    } else {
      ReadAgrees(c.rf, i.a2.reg);
      ReadAgrees(z.rf, i.a2.reg);
    }
  }

  lemma Kinds(i: Instr, pc: Word, ri: R.Instr)
    requires Matches(i, pc, ri)
    ensures IsBranch(i.op) || IsStore(i.op) || i.op == Jalr || F.WritesReg(i.op)
    ensures IsBranch(i.op) ==> !IsStore(i.op)
  {
    hide Sum, R.Imm12, F.Upper, R.Upper, R.JumpOffset, R.BranchOffset;
  }

  /** The next address of an instruction that is in reach and no taken branch. */
  lemma ReachNext(i: Instr, c: F.Core)
    requires InReach(i, c) && i.op == Jalr
    ensures Next(c.pc) < MEM_SIZE
  {
    hide ToNum, Next, ReadReg, F.Holds, Sum;
  }

  /** The value in slot 0, exactly. Whenever the models agree on x1 to x31 and the instruction, with x0 read
      as zero, is in reach and as the ISA has it: the simulator's step is that of the ISA if and only if
      what slot 0 really holds does not show. */
  lemma StaleZeroIff(imem: seq<Instr>, c: F.Core, a: S.Arch, i: Instr, ri: R.Instr)
    requires F.Fetch(imem, c.pc) == Some(i) && Agree(c, a) && Matches(i, Extend(a.pc), ri)
    requires InReach(i, Zeroed(c)) && AsIsa(i, Zeroed(c))
    ensures !ShowsX0(i, c) <==> F.StepCore(imem, c).Some? && Agree(F.StepCore(imem, c).value, R.IsaStep(ri, a))
    ensures R.Supported(ri, a.regs) && R.Legal(ri)
  {
    hide Matches, InReach, AsIsa, Agree, R.IsaStep, F.Process, R.Supported, R.Legal, ShowsX0, Hardwired, ReadReg, Next;
    var z := Zeroed(c);
    ZeroedFacts(c);
    ZeroedAgrees(c, a);
    PcPositive(c, a);
    assert ReadsZero(i, z);
    StepIsIsaIff(imem, z, a, i, ri);
    Kinds(i, Extend(a.pc), ri);
    if IsBranch(i.op) {
      StaleBranch(i, c, ri, a);
    } else if IsStore(i.op) {
      StaleStore(i, c, ri, a);
    } else if i.op == Jalr {
      ReachNext(i, z);
      StaleJalr(i, c, ri, a);
    } else {
      StaleWrite(i, c, ri, a);
    }
  }

  lemma ZeroedAgrees(c: F.Core, a: S.Arch)
    requires Agree(c, a)
    ensures Agree(Zeroed(c), a)
  {
    hide Index;
  }

  lemma PcPositive(c: F.Core, a: S.Arch)
    requires Agree(c, a)
    ensures 0 < Next(c.pc)
  {
    hide Hardwired, Index;
    assert 0 <= Index(a.pc) < MEM_SIZE;
  }

  /** With zero in slot 0 nothing stale can show. */
  lemma CleanSlotFits(imem: seq<Instr>, c: F.Core)
    requires F.Fetch(imem, c.pc).Some? && ReadReg(c.rf, 0) == 0
    requires var i := imem[c.pc / 4];
             i.op != Unimpl && InReach(i, c) && AsIsa(i, c) && (F.WritesReg(i.op) ==> F.Written(i, c).Some?)
    ensures Fits(imem, c)
  {
    hide InReach, AsIsa, ReadReg, Hardwired, F.Written, F.WritesReg, F.Holds, StoredMem;
    ZeroedFacts(c);
  }

  /** Any encoded instruction that fits is the same step in the simulator and in the ISA. */
  lemma StepIsIsa(imem: seq<Instr>, c: F.Core, a: S.Arch, i: Instr, ri: R.Instr)
    requires Agree(c, a) && Fits(imem, c) && i == imem[c.pc / 4] && Matches(i, Extend(a.pc), ri)
    ensures F.StepCore(imem, c).Some?
    ensures Agree(F.StepCore(imem, c).value, R.IsaStep(ri, a)) && R.Supported(ri, a.regs) && R.Legal(ri)
  {
    hide Agree, R.IsaStep, F.Process, Matches, InReach, AsIsa, ShowsX0, R.Supported, R.Legal;
    StaleZeroIff(imem, c, a, i, ri);
  }

  /** The opcode of an encoding. */
  function OpcodeOf(ri: R.Instr): bv7 {
    match ri
    case OpImm(_, _, _, _) => RiscvDefs.OP_IMM
    case Shift(_, _, _, _) => RiscvDefs.OP_IMM
    case OpReg(_, _, _, _) => RiscvDefs.OP
    case Lui(_, _) => RiscvDefs.LUI
    case Auipc(_, _) => RiscvDefs.AUIPC
    case Jal(_, _) => RiscvDefs.JAL
    case Jalr(_, _, _) => RiscvDefs.JALR
    case Branch(_, _, _, _) => RiscvDefs.BRANCH
    case Load(_, _, _, _) => RiscvDefs.LOAD
    case Store(_, _, _, _) => RiscvDefs.STORE
  }

  lemma EncodedOpcode(ri: R.Instr)
    ensures RiscvDefs.Opcode(R.Encode(ri)) == OpcodeOf(ri)
  {
    hide R.EncI, R.EncR, R.EncU, R.EncJ, R.EncB, RiscvDefs.Opcode;
    match ri
    case OpImm(o, rd, rs1, imm) => R.DecodeI(imm, rs1, R.ImmOpBits(o), rd, RiscvDefs.OP_IMM);
    case Shift(o, rd, rs1, n) => R.DecodeR(R.ShiftFunct7(o), n, rs1, R.ShiftBits(o), rd, RiscvDefs.OP_IMM);
    case OpReg(o, rd, rs1, rs2) => R.DecodeR(R.RegOpFunct7(o), rs2, rs1, R.RegOpBits(o), rd, RiscvDefs.OP);
    case Lui(rd, imm) => R.DecodeU(imm, rd, RiscvDefs.LUI);
    case Auipc(rd, imm) => R.DecodeU(imm, rd, RiscvDefs.AUIPC);
    case Jal(rd, half) => R.DecodeJ(half, rd, RiscvDefs.JAL);
    case Jalr(rd, rs1, imm) => R.DecodeI(imm, rs1, 0, rd, RiscvDefs.JALR);
    case Branch(_, _, _, _) => R.BranchFields(ri);
    case Load(w, rd, rs1, imm) => R.DecodeI(imm, rs1, R.WidthBits(w), rd, RiscvDefs.LOAD);
    case Store(_, _, _, _) => R.StoreFields(ri);
  }
}
