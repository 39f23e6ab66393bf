/** RV32I as the RISC-V Unprivileged ISA states it (sections 2.3 to 2.6), and the proof that decoding
    and executing an encoded instruction on the processor's datapath means what that text says. */
module Rv32i {
  import opened Words
  import opened RiscvDefs
  import opened Datapath
  import opened Controller
  import D = DataMem
  import S = Sequential

  datatype Cond = Beq | Bne | Blt | Bge | Bltu | Bgeu
  datatype Width = B | H | W | Bu | Hu
  datatype ImmOp = Addi | Slti | Sltiu | Xori | Ori | Andi
  datatype ShiftOp = Slli | Srli | Srai
  datatype RegOp = Add | Sub | Sll | Slt | Sltu | Xor | Srl | Sra | Or | And

  datatype Instr =
    | OpImm(iop: ImmOp, rd: bv5, rs1: bv5, imm12: bv12)
    | Shift(sop: ShiftOp, rd: bv5, rs1: bv5, shamt: bv5)
    | OpReg(rop: RegOp, rd: bv5, rs1: bv5, rs2: bv5)
    | Lui(rd: bv5, imm20: bv20)
    | Auipc(rd: bv5, imm20: bv20)
    | Jal(rd: bv5, half20: bv20)
    | Jalr(rd: bv5, rs1: bv5, imm12: bv12)
    | Branch(cond: Cond, rs1: bv5, rs2: bv5, half12: bv12)
    | Load(width: Width, rd: bv5, rs1: bv5, imm12: bv12)
    | Store(width: Width, rs1: bv5, rs2: bv5, imm12: bv12)

  // ----- Encoding -----

  function EncR(f7: bv7, rs2: bv5, rs1: bv5, f3: bv3, rd: bv5, op: bv7): Word {
    (f7 as Word << 25) | (rs2 as Word << 20) | (rs1 as Word << 15) | (f3 as Word << 12) | (rd as Word << 7) | op as Word
  }

  function EncI(imm: bv12, rs1: bv5, f3: bv3, rd: bv5, op: bv7): Word {
    (imm as Word << 20) | (rs1 as Word << 15) | (f3 as Word << 12) | (rd as Word << 7) | op as Word
  }

  function EncS(imm: bv12, rs2: bv5, rs1: bv5, f3: bv3, op: bv7): Word {
    EncR((imm >> 5) as bv7, rs2, rs1, f3, (imm & 0x1f) as bv5, op)
  }

  /** half is the offset divided by two: bits 12 to 1 of a branch offset. */
  function EncB(half: bv12, rs2: bv5, rs1: bv5, f3: bv3, op: bv7): Word {
    EncR((((half >> 11) << 6) | ((half >> 4) & 0x3f)) as bv7, rs2, rs1, f3,
         (((half & 0xf) << 1) | ((half >> 10) & 1)) as bv5, op)
  }

  function EncU(imm: bv20, rd: bv5, op: bv7): Word {
    (imm as Word << 12) | (rd as Word << 7) | op as Word
  }

  /** half is the offset divided by two: bits 20 to 1 of a jump offset. */
  function EncJ(half: bv20, rd: bv5, op: bv7): Word {
    EncU(((half >> 19) << 19) | ((half & 0x3ff) << 9) | (((half >> 10) & 1) << 8) | ((half >> 11) & 0xff), rd, op)
  }

  function CondBits(c: Cond): bv3 {
    match c case Beq => 0 case Bne => 1 case Blt => 4 case Bge => 5 case Bltu => 6 case Bgeu => 7
  }

  function WidthBits(w: Width): bv3 {
    match w case B => 0 case H => 1 case W => 2 case Bu => 4 case Hu => 5
  }

  function ImmOpBits(o: ImmOp): bv3 {
    match o case Addi => 0 case Slti => 2 case Sltiu => 3 case Xori => 4 case Ori => 6 case Andi => 7
  }

  function RegOpFunct7(o: RegOp): bv7 { if o == Sub || o == Sra then 0x20 else 0 }

  function ShiftBits(o: ShiftOp): bv3 { if o == Slli then 1 else 5 }

  function ShiftFunct7(o: ShiftOp): bv7 { if o == Srai then 0x20 else 0 }

  function RegOpBits(o: RegOp): bv3 {
    match o
    case Add => 0 case Sub => 0 case Sll => 1 case Slt => 2 case Sltu => 3
    case Xor => 4 case Srl => 5 case Sra => 5 case Or => 6 case And => 7
  }

  function Encode(i: Instr): Word {
    match i
    case OpImm(o, rd, rs1, imm) => EncI(imm, rs1, ImmOpBits(o), rd, OP_IMM)
    case Shift(o, rd, rs1, sh) => EncR(ShiftFunct7(o), sh, rs1, ShiftBits(o), rd, OP_IMM)
    case OpReg(o, rd, rs1, rs2) => EncR(RegOpFunct7(o), rs2, rs1, RegOpBits(o), rd, OP)
    case Lui(rd, imm) => EncU(imm, rd, LUI)
    case Auipc(rd, imm) => EncU(imm, rd, AUIPC)
    case Jal(rd, half) => EncJ(half, rd, JAL)
    case Jalr(rd, rs1, imm) => EncI(imm, rs1, 0, rd, JALR)
    case Branch(c, rs1, rs2, half) => EncB(half, rs2, rs1, CondBits(c), BRANCH)
    case Load(w, rd, rs1, imm) => EncI(imm, rs1, WidthBits(w), rd, LOAD)
    case Store(w, rs1, rs2, imm) => EncS(imm, rs2, rs1, WidthBits(w), STORE)
  }

  // ----- Meaning -----

  /** Signed order is unsigned order with both ends shifted by 2^31. */
  predicate Less(a: Word, b: Word) { a + 0x8000_0000 < b + 0x8000_0000 }

  /** The upper twenty bits of a word. */
  function Upper(imm: bv20): Word { imm as Word << 12 }

  function Imm12(i: bv12): Word { Signed(i as Word, 0x1000) }

  /** A halved branch or jump offset, doubled and sign extended. */
  function BranchOffset(half: bv12): Word { Signed(half as Word << 1, 0x2000) }
  function JumpOffset(half: bv20): Word { Signed(half as Word << 1, 0x20_0000) }

  /** Arithmetic right shift rounds towards minus infinity. */
  function Sar(a: Word, n: bv5): Word { if a < 0x8000_0000 then Shr(a, n) else !Shr(!a, n) }

  function EvalImm(o: ImmOp, a: Word, b: Word): Word {
    match o
    case Addi => Sum(a, b)
    case Slti => Flag(Less(a, b))
    case Sltiu => Flag(Below(a, b))
    case Xori => BitXor(a, b)
    case Ori => BitOr(a, b)
    case Andi => BitAnd(a, b)
  }

  function EvalShift(o: ShiftOp, a: Word, n: bv5): Word {
    match o
    case Slli => Shl(a, n)
    case Srli => Shr(a, n)
    case Srai => Sar(a, n)
  }

  function EvalReg(o: RegOp, a: Word, b: Word): Word {
    var n := Low5(b);
    match o
    case Add => Sum(a, b)
    case Sub => Minus(a, b)
    case Sll => Shl(a, n)
    case Slt => Flag(Less(a, b))
    case Sltu => Flag(Below(a, b))
    case Xor => BitXor(a, b)
    case Srl => Shr(a, n)
    case Sra => Sar(a, n)
    case Or => BitOr(a, b)
    case And => BitAnd(a, b)
  }

  predicate Holds(c: Cond, a: Word, b: Word) {
    match c
    case Beq => a == b
    case Bne => a != b
    case Blt => Less(a, b)
    case Bge => !Less(a, b)
    case Bltu => a < b
    case Bgeu => a >= b
  }

  /** Little-endian values at an address, which wraps at 15 bits. */
  function ReadByte(mem: Bytes, a: Pc): Word { ByteAt(mem, a) as Word }

  function ReadHalf(mem: Bytes, a: Pc): Word {
    (ByteAt(mem, a) as Word) + (ByteAfter(mem, a, 1) as Word << 8)
  }

  function ReadWord(mem: Bytes, a: Pc): Word {
    (ByteAt(mem, a) as Word) + (ByteAfter(mem, a, 1) as Word << 8)
    + (ByteAfter(mem, a, 2) as Word << 16) + (ByteAfter(mem, a, 3) as Word << 24)
  }

  function ReadMem(mem: Bytes, w: Width, a: Pc): Word {
    match w
    case B => Signed(ReadByte(mem, a), 0x100)
    case H => Signed(ReadHalf(mem, a), 0x1_0000)
    case W => ReadWord(mem, a)
    case Bu => ReadByte(mem, a)
    case Hu => ReadHalf(mem, a)
  }

  function WriteMem(mem: Bytes, w: Width, a: Pc, v: Word): Bytes {
    var m1 := SetByte(mem, a, D.ByteOf(v, 0));
    var m2 := SetByte(m1, a + 1, D.ByteOf(v, 8));
    match w
    case B => m1
    case H => m2
    case _ => SetByte(SetByte(m2, a + 2, D.ByteOf(v, 16)), a + 3, D.ByteOf(v, 24))
  }

  /** A register write; x0 stays zero. */
  function SetReg(regs: Regs, rd: bv5, v: Word): Regs {
    if rd == 0 then regs else regs[rd as int := v]
  }

  /** The address of a load or store, or the target of a JALR. */
  function Target(regs: Regs, rs1: bv5, imm: bv12): Word { Sum(ReadReg(regs, rs1), Imm12(imm)) }

  predicate Even(w: Word) { w & 1 == 0 }

  function ClearBit0(w: Word): Word { w & 0xffff_fffe }

  function IsaStep(i: Instr, a: S.Arch): S.Arch {
    var next := Plus4(a.pc);
    match i
    case OpImm(o, rd, rs1, imm) =>
      S.Arch(next, SetReg(a.regs, rd, EvalImm(o, ReadReg(a.regs, rs1), Imm12(imm))), a.mem)
    case Shift(o, rd, rs1, n) =>
      S.Arch(next, SetReg(a.regs, rd, EvalShift(o, ReadReg(a.regs, rs1), n)), a.mem)
    case OpReg(o, rd, rs1, rs2) =>
      S.Arch(next, SetReg(a.regs, rd, EvalReg(o, ReadReg(a.regs, rs1), ReadReg(a.regs, rs2))), a.mem)
    case Lui(rd, imm) =>
      S.Arch(next, SetReg(a.regs, rd, Upper(imm)), a.mem)
    case Auipc(rd, imm) =>
      S.Arch(next, SetReg(a.regs, rd, Sum(Extend(a.pc), Upper(imm))), a.mem)
    case Jal(rd, half) =>
      S.Arch(Low15(Sum(Extend(a.pc), JumpOffset(half))), SetReg(a.regs, rd, Extend(next)), a.mem)
    case Jalr(rd, rs1, imm) =>
      S.Arch(Low15(ClearBit0(Target(a.regs, rs1, imm))), SetReg(a.regs, rd, Extend(next)), a.mem)
    case Branch(c, rs1, rs2, half) =>
      S.Arch(if Holds(c, ReadReg(a.regs, rs1), ReadReg(a.regs, rs2)) then Low15(Sum(Extend(a.pc), BranchOffset(half)))
             else next,
             a.regs, a.mem)
    case Load(w, rd, rs1, imm) =>
      S.Arch(next, SetReg(a.regs, rd, ReadMem(a.mem, w, Low15(Target(a.regs, rs1, imm)))), a.mem)
    case Store(w, rs1, rs2, imm) =>
      S.Arch(next, a.regs, WriteMem(a.mem, w, Low15(Target(a.regs, rs1, imm)), ReadReg(a.regs, rs2)))
  }

  // ----- Decoding inverts encoding -----

  lemma DecodeR(f7: bv7, rs2: bv5, rs1: bv5, f3: bv3, rd: bv5, op: bv7)
    ensures var i := EncR(f7, rs2, rs1, f3, rd, op);
            && Opcode(i) == op && Rd(i) == rd && Funct3(i) == f3 && Rs1(i) == rs1 && Rs2(i) == rs2 && Funct7(i) == f7
            && (i >> 13) & 1 == (f3 as Word >> 1) & 1
  {
  }

  lemma DecodeI(imm: bv12, rs1: bv5, f3: bv3, rd: bv5, op: bv7)
    ensures var i := EncI(imm, rs1, f3, rd, op);
            && Opcode(i) == op && Rd(i) == rd && Funct3(i) == f3 && Rs1(i) == rs1
            && ImmGen(IType, i) == Imm12(imm)
  {
  }

  /** The shift forms of OP-IMM carry the shift amount in the low bits of the immediate. */
  lemma DecodeShift(f7: bv7, shamt: bv5, rs1: bv5, f3: bv3, rd: bv5)
    ensures ImmGen(IType, EncR(f7, shamt, rs1, f3, rd, OP_IMM)) & 0x1f == shamt as Word
  {
  }

  lemma StoreBitsOfEnc(imm: bv12, rs2: bv5, rs1: bv5, f3: bv3, op: bv7)
    ensures StoreBits(EncS(imm, rs2, rs1, f3, op)) == imm
  {
  }

  lemma DecodeS(imm: bv12, rs2: bv5, rs1: bv5, f3: bv3, op: bv7)
    ensures ImmGen(SType, EncS(imm, rs2, rs1, f3, op)) == Imm12(imm)
  {
    hide StoreBits, EncS;
    StoreBitsOfEnc(imm, rs2, rs1, f3, op);
  }

  lemma BranchBitsOfEnc(half: bv12, rs2: bv5, rs1: bv5, f3: bv3, op: bv7)
    ensures BranchBits(EncB(half, rs2, rs1, f3, op)) == (half as bv13) << 1
  {
  }

  lemma DecodeB(half: bv12, rs2: bv5, rs1: bv5, f3: bv3, op: bv7)
    ensures ImmGen(BType, EncB(half, rs2, rs1, f3, op)) == BranchOffset(half)
  {
    hide BranchBits, EncB;
    BranchBitsOfEnc(half, rs2, rs1, f3, op);
  }

  lemma DecodeU(imm: bv20, rd: bv5, op: bv7)
    ensures var i := EncU(imm, rd, op);
            Opcode(i) == op && Rd(i) == rd && ImmGen(UType, i) == Upper(imm)
  {
  }

  lemma JumpBitsOfEnc(half: bv20, rd: bv5, op: bv7)
    ensures JumpBits(EncJ(half, rd, op)) == (half as bv21) << 1
  {
  }

  lemma DecodeJ(half: bv20, rd: bv5, op: bv7)
    ensures var i := EncJ(half, rd, op);
            Opcode(i) == op && Rd(i) == rd && ImmGen(JType, i) == JumpOffset(half)
  {
    hide JumpBits;
    JumpBitsOfEnc(half, rd, op);
    JumpSign(half);
  }

  lemma JumpSign(half: bv20)
    ensures SignExtend21((half as bv21) << 1) == JumpOffset(half)
  {
  }

  lemma SignedLessIsLess(a: Word, b: Word)
    ensures SignedLess(a, b) == Less(a, b)
  {
  }

  /** m is the disjoint union of the bits of x and y. */
  predicate Splits(x: Word, y: Word, m: Word) { x ^ y == m && x & y == 0 }

  function Half(x: Word): Word { x >> 1 }

  lemma ShrZero(a: Word)
    ensures Shr(a, 0) == a
  {
  }

  lemma ShrNext(a: Word, n: bv5)
    requires n != 0
    ensures Shr(a, n) == Half(Shr(a, n - 1))
  {
  }

  lemma SplitsHalf(x: Word, y: Word, m: Word)
    requires Splits(x, y, m)
    ensures Splits(Half(x), Half(y), Half(m))
  {
    hide Half;
    HalfXor(x, y);
    HalfAnd(x, y);
    HalfZero();
  }

  lemma HalfXor(x: Word, y: Word)
    ensures Half(x) ^ Half(y) == Half(x ^ y)
  {
  }

  lemma HalfAnd(x: Word, y: Word)
    ensures Half(x) & Half(y) == Half(x & y)
  {
  }

  lemma HalfZero()
    ensures Half(0) == 0
  {
  }

  lemma {:induction false} ShrSplits(x: Word, y: Word, m: Word, n: bv5)
    requires Splits(x, y, m)
    ensures Splits(Shr(x, n), Shr(y, n), Shr(m, n))
    decreases n
  {
    hide Shr, Splits, Half;
    if n == 0 {
      ShrZero(x);
      ShrZero(y);
      ShrZero(m);
    } else {
      ShrSplits(x, y, m, n - 1);
      ShrNext(x, n);
      ShrNext(y, n);
      ShrNext(m, n);
      SplitsHalf(Shr(x, n - 1), Shr(y, n - 1), Shr(m, n - 1));
    }
  }

  lemma SplitComplement(x: Word, y: Word, m: Word)
    requires Splits(x, y, m)
    ensures !y == x | !m
  {
  }

  lemma SignBit(a: Word)
    ensures a < 0x8000_0000 <==> a >> 31 != 1
    ensures Splits(a, !a, 0xffff_ffff)
  {
  }

  lemma ShiftRightArithIsSar(a: Word, n: bv5)
    ensures ShiftRightArith(a, n) == Sar(a, n)
  {
    hide Shr, Splits;
    SignBit(a);
    if a >= 0x8000_0000 {
      ShrSplits(a, !a, 0xffff_ffff, n);
      SplitComplement(Shr(a, n), Shr(!a, n), Shr(0xffff_ffff, n));
    }
  }

  // ----- Executing an encoded instruction -----

  /** Natural alignment; unsigned loads, which the data memory aligns to words, need word alignment. */
  predicate NaturallyAligned(w: Width, addr: Pc) {
    match w
    case B => true
    case H => addr & 1 == 0
    case _ => addr & 3 == 0
  }

  lemma LoadAgrees(mem: Bytes, w: Width, addr: Pc)
    requires NaturallyAligned(w, addr)
    ensures D.LoadValue(mem, WidthBits(w) as bv4, addr) == ReadMem(mem, w, addr)
  {
    hide ByteAt, D.SignExtend8, D.SignExtend16, Signed, D.Aligned, D.HalfAt, D.WordAt, ReadHalf, ReadWord,
      NaturallyAligned;
    AlignedStays(w, addr);
    SameValues(mem, addr);
  }

  lemma SameValues(mem: Bytes, a: Pc)
    ensures D.SignExtend8(ByteAt(mem, a)) == Signed(ByteAt(mem, a) as Word, 0x100)
    ensures D.SignExtend16(D.HalfAt(mem, a)) == Signed(ReadHalf(mem, a), 0x1_0000)
    ensures D.HalfAt(mem, a) == ReadHalf(mem, a) && D.WordAt(mem, a) == ReadWord(mem, a)
  {
    hide ByteAt, ByteAfter, D.SignExtend8, D.SignExtend16, Signed;
    SignedBytes(ByteAt(mem, a), ByteAfter(mem, a, 1), ByteAfter(mem, a, 2), ByteAfter(mem, a, 3));
  }

  lemma AlignedStays(w: Width, addr: Pc)
    requires NaturallyAligned(w, addr)
    ensures D.Aligned(WidthBits(w) as bv4, addr) == addr
  {
  }

  lemma SignedBytes(b0: bv8, b1: bv8, b2: bv8, b3: bv8)
    ensures D.SignExtend8(b0) == Signed(b0 as Word, 0x100)
    ensures D.SignExtend16((b1 as Word << 8) | b0 as Word) == Signed(b0 as Word + (b1 as Word << 8), 0x1_0000)
    ensures (b1 as Word << 8) | b0 as Word == b0 as Word + (b1 as Word << 8)
    ensures (b3 as Word << 24) | (b2 as Word << 16) | (b1 as Word << 8) | b0 as Word
            == b0 as Word + (b1 as Word << 8) + (b2 as Word << 16) + (b3 as Word << 24)
  {
  }

  lemma StoreAgrees(mem: Bytes, w: Width, addr: Pc, v: Word)
    requires NaturallyAligned(w, addr) && w != Bu && w != Hu
    ensures D.StoreBytes(mem, WidthBits(w) as bv4, addr, v) == WriteMem(mem, w, addr, v)
  {
    hide SetByte, D.ByteOf;
    assert D.Aligned(WidthBits(w) as bv4, addr) == addr;
  }

  /** Encodings the data memory and the jump path carry out as the ISA asks. */
  predicate Supported(i: Instr, regs: Regs) {
    match i
    case Load(w, rd, rs1, imm) => rd == 0 || NaturallyAligned(w, Low15(Target(regs, rs1, imm)))
    case Store(w, rs1, _, imm) => NaturallyAligned(w, Low15(Target(regs, rs1, imm)))
    case Jalr(_, rs1, imm) => Even(Target(regs, rs1, imm))
    case _ => true
  }

  /** Store encodings exist for three widths. */
  predicate Legal(i: Instr) {
    i.Store? ==> i.width != Bu && i.width != Hu
  }

  lemma WriteIsSetReg(regs: Regs, rd: bv5, v: Word)
    requires regs[0] == 0
    ensures NextRegs(regs, true, rd, v) == SetReg(regs, rd, v)
    ensures NextRegs(regs, false, rd, v) == regs
  {
  }

  // Rows of the decode tables.

  lemma OpImmRow(inst: Word, pc: Pc, imm: Word, r1: Word, r2: Word)
    requires Opcode(inst) == OP_IMM
    ensures WritesRd(inst) && !IsControl(inst) && !IsMem(inst) && ImmSel(inst) == IType
    ensures AluOut(inst, pc, imm, r1, r2)
            == Alu(if Funct3(inst) == 5 then ((Funct7(inst) as bv15) << 8) | 0xfd
                else 0xf8 | (Funct3(inst) as bv15), r1, imm)
  {
    hide Opcode, Funct3, Funct7, Alu;
  }

  /** Row select bits of OP: funct7, five ones, funct3. */
  function Row(f7: bv7, f3: bv3): bv15 { ((f7 as bv15) << 8) | 0xf8 | (f3 as bv15) }

  lemma OpRow(inst: Word, pc: Pc, imm: Word, r1: Word, r2: Word)
    requires Opcode(inst) == OP
    ensures WritesRd(inst) && !IsControl(inst) && !IsMem(inst)
    ensures AluOut(inst, pc, imm, r1, r2) == Alu(Row(Funct7(inst), Funct3(inst)), r1, r2)
  {
    hide Opcode, Funct3, Funct7, Alu;
  }

  lemma AluAdds(a: Word, b: Word)
    ensures Alu(ADD, a, b) == Sum(a, b)
  {
  }

  lemma UpperRow(inst: Word, pc: Pc, imm: Word, r1: Word, r2: Word)
    requires Opcode(inst) == LUI || Opcode(inst) == AUIPC
    ensures WritesRd(inst) && !IsControl(inst) && !IsMem(inst) && ImmSel(inst) == UType
    ensures AluOut(inst, pc, imm, r1, r2) == Sum(if Opcode(inst) == LUI then 0 else Extend(pc), imm)
  {
    hide Extend, Opcode, Funct3, Funct7, Alu, Sum, BranchLess;
    AluAdds(if Opcode(inst) == LUI then 0 else Extend(pc), imm);
  }

  lemma JumpRow(inst: Word, pc: Pc, imm: Word, r1: Word, r2: Word)
    requires Opcode(inst) == JAL || Opcode(inst) == JALR
    ensures WritesRd(inst) && IsJump(inst) && !IsMem(inst) && BranchTaken(inst, r1, r2)
    ensures ImmSel(inst) == if Opcode(inst) == JAL then JType else IType
    ensures AluOut(inst, pc, imm, r1, r2) == Sum(if Opcode(inst) == JAL then Extend(pc) else r1, imm)
  {
    hide Extend, Opcode, Funct3, Funct7, Alu, Sum, BranchLess;
    AluAdds(if Opcode(inst) == JAL then Extend(pc) else r1, imm);
  }

  lemma BranchRow(inst: Word, pc: Pc, imm: Word, r1: Word, r2: Word)
    requires Opcode(inst) == BRANCH
    ensures !WritesRd(inst) && IsControl(inst) && !IsMem(inst) && ImmSel(inst) == BType
    ensures AluOut(inst, pc, imm, r1, r2) == Sum(Extend(pc), imm)
  {
    hide Extend, Opcode, Funct3, Funct7, Alu, Sum, BranchLess;
    AluAdds(Extend(pc), imm);
  }

  lemma MemRow(inst: Word, pc: Pc, imm: Word, r1: Word, r2: Word)
    requires Opcode(inst) == LOAD || Opcode(inst) == STORE
    ensures !IsControl(inst) && !IsJump(inst) && (WritesRd(inst) <==> Opcode(inst) == LOAD)
    ensures ImmSel(inst) == if Opcode(inst) == LOAD then IType else SType
    ensures AluOut(inst, pc, imm, r1, r2) == Sum(r1, imm)
  {
    hide Extend, Opcode, Funct3, Funct7, Alu, Sum, BranchLess;
    AluAdds(r1, imm);
  }

  // What the rows make of one instruction.

  lemma ExecAlu(im: Bytes, a: S.Arch, rd: bv5, v: Word)
    requires a.regs[0] == 0
    requires var inst := S.Inst(im, a);
             WritesRd(inst) && !IsControl(inst) && !IsMem(inst) && Rd(inst) == rd && S.AluResult(im, a) == v
    ensures S.Exec(im, a, false) == S.Arch(Plus4(a.pc), SetReg(a.regs, rd, v), a.mem)
  {
    hide Opcode, Rd, Fetch, S.AluResult, NextRegs, SetReg, Plus4, WritesRd;
    WriteIsSetReg(a.regs, rd, v);
  }

  lemma ExecOpImm(im: Bytes, i: Instr, a: S.Arch)
    requires a.regs[0] == 0 && S.Inst(im, a) == Encode(i) && i.OpImm?
    ensures S.Exec(im, a, false) == IsaStep(i, a)
  {
    hide Fetch, Opcode, Rd, Rs1, Rs2, Funct3, Funct7, EncI, ImmGen, ImmSel, AluOut, Alu, ReadReg, SetReg, Imm12,
      S.Exec, EvalImm, WritesRd, IsControl, IsMem, Plus4, S.Inst, EvalShift, EvalReg, ReadMem, WriteMem;
    var inst, r1 := S.Inst(im, a), ReadReg(a.regs, i.rs1);
    DecodeI(i.imm12, i.rs1, ImmOpBits(i.iop), i.rd, OP_IMM);
    OpImmRow(inst, a.pc, Imm12(i.imm12), S.Op1(im, a), S.Op2(im, a));
    AluImm(i.iop, r1, Imm12(i.imm12));
    ExecAlu(im, a, i.rd, EvalImm(i.iop, r1, Imm12(i.imm12)));
  }

  lemma AluImm(o: ImmOp, a: Word, b: Word)
    ensures Alu(0xf8 | (ImmOpBits(o) as bv15), a, b) == EvalImm(o, a, b) && ImmOpBits(o) != 5
  {
    hide SignedLess, Less;
    SignedLessIsLess(a, b);
  }

  lemma ExecShift(im: Bytes, i: Instr, a: S.Arch)
    requires a.regs[0] == 0 && S.Inst(im, a) == Encode(i) && i.Shift?
    ensures S.Exec(im, a, false) == IsaStep(i, a)
  {
    hide Fetch, Opcode, Rd, Rs1, Rs2, Funct3, Funct7, EncR, ImmGen, ImmSel, AluOut, Alu, ReadReg, SetReg,
      S.Exec, EvalShift, WritesRd, IsControl, IsMem, Plus4, S.Inst, EvalImm, EvalReg, ReadMem, WriteMem,
      ShiftBits, ShiftFunct7, Low5;
    var inst, r1 := S.Inst(im, a), ReadReg(a.regs, i.rs1);
    DecodeR(ShiftFunct7(i.sop), i.shamt, i.rs1, ShiftBits(i.sop), i.rd, OP_IMM);
    OpImmRow(inst, a.pc, ImmGen(IType, inst), S.Op1(im, a), S.Op2(im, a));
    ShiftAmount(i);
    AluShift(i.sop, r1, ImmGen(IType, inst));
    ExecAlu(im, a, i.rd, EvalShift(i.sop, r1, i.shamt));
  }

  lemma ShiftAmount(i: Instr)
    requires i.Shift?
    ensures Low5(ImmGen(IType, Encode(i))) == i.shamt
  {
    hide ImmGen, EncR;
    DecodeShift(ShiftFunct7(i.sop), i.shamt, i.rs1, ShiftBits(i.sop), i.rd);
  }

  /** Row select bits of the OP-IMM shifts, which are also those of the register shifts. */
  function ShiftSel(o: ShiftOp): bv15 {
    if ShiftBits(o) == 5 then ((ShiftFunct7(o) as bv15) << 8) | 0xfd else 0xf8 | (ShiftBits(o) as bv15)
  }

  lemma ShiftSelIs(o: ShiftOp)
    ensures ShiftSel(o) == (match o case Slli => SLL case Srli => SRL case Srai => SRA)
  {
  }

  lemma AluShift(o: ShiftOp, a: Word, b: Word)
    ensures Alu(ShiftSel(o), a, b) == EvalShift(o, a, Low5(b))
  {
    hide ShiftSel, Shl, Shr, ShiftRightArith, Sar, SignedLess, Low5;
    ShiftSelIs(o);
    ShiftRightArithIsSar(a, Low5(b));
  }

  lemma ExecOpReg(im: Bytes, i: Instr, a: S.Arch)
    requires a.regs[0] == 0 && S.Inst(im, a) == Encode(i) && i.OpReg?
    ensures S.Exec(im, a, false) == IsaStep(i, a)
  {
    hide Fetch, Opcode, Rd, Rs1, Rs2, Funct3, Funct7, EncR, ImmGen, ImmSel, AluOut, Alu, ReadReg, SetReg,
      S.Exec, EvalReg, WritesRd, IsControl, IsMem, Plus4, S.Inst, EvalImm, EvalShift, ReadMem, WriteMem,
      RegOpBits, RegOpFunct7, Row;
    var inst, r1, r2 := S.Inst(im, a), ReadReg(a.regs, i.rs1), ReadReg(a.regs, i.rs2);
    DecodeR(RegOpFunct7(i.rop), i.rs2, i.rs1, RegOpBits(i.rop), i.rd, OP);
    OpRow(inst, a.pc, ImmGen(ImmSel(inst), inst), S.Op1(im, a), S.Op2(im, a));
    AluReg(i.rop, r1, r2);
    ExecAlu(im, a, i.rd, EvalReg(i.rop, r1, r2));
  }

  function AsShift(o: RegOp): ShiftOp {
    if o == Sll then Slli else if o == Srl then Srli else Srai
  }

  function AsImm(o: RegOp): ImmOp {
    match o case Slt => Slti case Sltu => Sltiu case Xor => Xori case Or => Ori case And => Andi case _ => Addi
  }

  function RegSel(o: RegOp): bv15 {
    Row(RegOpFunct7(o), RegOpBits(o))
  }

  lemma RegSelIs(o: RegOp)
    ensures RegSel(o) == if o == Sub then SUB
                         else if o == Sll || o == Srl || o == Sra then ShiftSel(AsShift(o))
                         else 0xf8 | (ImmOpBits(AsImm(o)) as bv15)
  {
  }

  lemma AluReg(o: RegOp, a: Word, b: Word)
    ensures Alu(RegSel(o), a, b) == EvalReg(o, a, b)
  {
    hide Alu, Less, Sar, Shr, Shl, Low5, RegSel, ShiftSel, ImmOpBits;
    RegSelIs(o);
    if o == Sub {
      AluSub(a, b);
    } else if o == Sll || o == Srl || o == Sra {
      AluShift(AsShift(o), a, b);
    } else {
      AluImm(AsImm(o), a, b);
    }
  }

  lemma AluSub(a: Word, b: Word)
    ensures Alu(0x20f8, a, b) == Minus(a, b)
  {
  }

  lemma ExecLui(im: Bytes, i: Instr, a: S.Arch)
    requires a.regs[0] == 0 && S.Inst(im, a) == Encode(i) && i.Lui?
    ensures S.Exec(im, a, false) == IsaStep(i, a)
  {
    hide Extend, Sum, Fetch, Opcode, Rd, Rs1, Rs2, Funct3, Funct7, EncU, ImmGen, ImmSel, AluOut, ReadReg,
      SetReg, S.Exec, Upper, WritesRd, IsControl, IsMem, Plus4, S.Inst, EvalImm, EvalShift, EvalReg, ReadMem,
      WriteMem;
    var inst := S.Inst(im, a);
    DecodeU(i.imm20, i.rd, LUI);
    UpperRow(inst, a.pc, ImmGen(UType, inst), S.Op1(im, a), S.Op2(im, a));
    SumZero(Upper(i.imm20));
    ExecAlu(im, a, i.rd, Upper(i.imm20));
  }

  lemma ExecAuipc(im: Bytes, i: Instr, a: S.Arch)
    requires a.regs[0] == 0 && S.Inst(im, a) == Encode(i) && i.Auipc?
    ensures S.Exec(im, a, false) == IsaStep(i, a)
  {
    hide Extend, Sum, Fetch, Opcode, Rd, Rs1, Rs2, Funct3, Funct7, EncU, ImmGen, ImmSel, AluOut, ReadReg,
      SetReg, S.Exec, Upper, WritesRd, IsControl, IsMem, Plus4, S.Inst, EvalImm, EvalShift, EvalReg, ReadMem,
      WriteMem;
    var inst := S.Inst(im, a);
    DecodeU(i.imm20, i.rd, AUIPC);
    UpperRow(inst, a.pc, ImmGen(UType, inst), S.Op1(im, a), S.Op2(im, a));
    ExecAlu(im, a, i.rd, Sum(Extend(a.pc), Upper(i.imm20)));
  }

  lemma SumZero(b: Word)
    ensures Sum(0, b) == b
  {
  }

  lemma ExecLink(im: Bytes, a: S.Arch, rd: bv5, target: Word)
    requires a.regs[0] == 0
    requires var inst := S.Inst(im, a);
             && WritesRd(inst) && IsJump(inst) && !IsMem(inst) && Rd(inst) == rd
             && BranchTaken(inst, S.Op1(im, a), S.Op2(im, a)) && S.AluResult(im, a) == target
    ensures S.Exec(im, a, false) == S.Arch(Low15(target), SetReg(a.regs, rd, Extend(Plus4(a.pc))), a.mem)
  {
    hide Extend, Opcode, Rd, Fetch, S.AluResult, NextRegs, SetReg, Plus4, WritesRd, Low15, BranchTaken, IsJump;
    WriteIsSetReg(a.regs, rd, Extend(Plus4(a.pc)));
  }

  lemma ExecJump(im: Bytes, i: Instr, a: S.Arch)
    requires a.regs[0] == 0 && S.Inst(im, a) == Encode(i) && (i.Jal? || (i.Jalr? && Supported(i, a.regs)))
    ensures S.Exec(im, a, false) == IsaStep(i, a)
  {
    hide Extend, Sum, Fetch, Opcode, Rd, Rs1, Rs2, Funct3, Funct7, EncI, EncJ, ImmGen, ImmSel, AluOut, ReadReg,
      SetReg, S.Exec, Low15, Imm12, JumpOffset, WritesRd, IsJump, IsMem, BranchTaken, Plus4, S.Inst, Even,
      ClearBit0, EvalImm, EvalShift, EvalReg, ReadMem, WriteMem;
    var inst := S.Inst(im, a);
    if i.Jal? {
      DecodeJ(i.half20, i.rd, JAL);
      JumpRow(inst, a.pc, JumpOffset(i.half20), S.Op1(im, a), S.Op2(im, a));
      ExecLink(im, a, i.rd, Sum(Extend(a.pc), JumpOffset(i.half20)));
    } else {
      var target := Target(a.regs, i.rs1, i.imm12);
      DecodeI(i.imm12, i.rs1, 0, i.rd, JALR);
      JumpRow(inst, a.pc, Imm12(i.imm12), S.Op1(im, a), S.Op2(im, a));
      ExecLink(im, a, i.rd, target);
      ClearingBit0(target);
    }
  }

  lemma ExecBranch(im: Bytes, i: Instr, a: S.Arch)
    requires a.regs[0] == 0 && S.Inst(im, a) == Encode(i) && i.Branch?
    ensures S.Exec(im, a, false) == IsaStep(i, a)
  {
    hide Extend, Sum, Fetch, Opcode, Rd, Rs1, Rs2, Funct3, Funct7, EncR, ImmGen, ImmSel, AluOut, ReadReg,
      SetReg, Low15, BranchOffset, WritesRd, IsControl, IsMem, IsLoad, IsJump, BranchTaken, Holds, Plus4,
      S.Inst, EvalImm, EvalShift, EvalReg, ReadMem, WriteMem, NextRegs, S.Result;
    var inst := S.Inst(im, a);
    BranchFields(i);
    DecodeB(i.half12, i.rs2, i.rs1, CondBits(i.cond), BRANCH);
    BranchRow(inst, a.pc, BranchOffset(i.half12), S.Op1(im, a), S.Op2(im, a));
    BranchHolds(inst, i.cond, S.Op1(im, a), S.Op2(im, a));
    WriteIsSetReg(a.regs, Rd(inst), S.Result(im, a));
  }

  lemma BranchFields(i: Instr)
    requires i.Branch?
    ensures var w := Encode(i);
            && Opcode(w) == BRANCH && Rs1(w) == i.rs1 && Rs2(w) == i.rs2 && Funct3(w) == CondBits(i.cond)
            && (w >> 13) & 1 == (CondBits(i.cond) as Word >> 1) & 1
  {
    hide EncB, Opcode, Rs1, Rs2, Funct3;
    DecodeBFields(i.half12, i.rs2, i.rs1, CondBits(i.cond), BRANCH);
  }

  lemma DecodeBFields(half: bv12, rs2: bv5, rs1: bv5, f3: bv3, op: bv7)
    ensures var w := EncB(half, rs2, rs1, f3, op);
            && Opcode(w) == op && Rs1(w) == rs1 && Rs2(w) == rs2 && Funct3(w) == f3
            && (w >> 13) & 1 == (f3 as Word >> 1) & 1
  {
  }

  lemma BranchHolds(inst: Word, c: Cond, a: Word, b: Word)
    requires Opcode(inst) == BRANCH && Funct3(inst) == CondBits(c) && (inst >> 13) & 1 == (CondBits(c) as Word >> 1) & 1
    ensures BranchTaken(inst, a, b) == Holds(c, a, b)
  {
    hide Opcode, Funct3, SignedLess, Less;
    SignedLessIsLess(a, b);
  }

  /** What the datapath makes of any load or store, aligned or not. */
  lemma ExecLoad(im: Bytes, i: Instr, a: S.Arch)
    requires a.regs[0] == 0 && S.Inst(im, a) == Encode(i) && i.Load?
    ensures S.Exec(im, a, false)
            == S.Arch(Plus4(a.pc),
                      SetReg(a.regs, i.rd, D.LoadValue(a.mem, WidthBits(i.width) as bv4,
                          Low15(Target(a.regs, i.rs1, i.imm12)))),
                      a.mem)
  {
    hide Sum, Fetch, Opcode, Rd, Rs1, Rs2, Funct3, Funct7, EncI, ImmGen, ImmSel, AluOut, ReadReg, NextRegs,
      SetReg, Low15, Imm12, D.LoadValue, WritesRd, IsControl, IsJump, Plus4, S.Inst, WidthBits;
    var inst := S.Inst(im, a);
    DecodeI(i.imm12, i.rs1, WidthBits(i.width), i.rd, LOAD);
    MemRow(inst, a.pc, Imm12(i.imm12), S.Op1(im, a), S.Op2(im, a));
    WriteIsSetReg(a.regs, i.rd, D.LoadValue(a.mem, Length(inst), Low15(Target(a.regs, i.rs1, i.imm12))));
  }

  lemma ExecStore(im: Bytes, i: Instr, a: S.Arch)
    requires a.regs[0] == 0 && S.Inst(im, a) == Encode(i) && i.Store?
    ensures S.Exec(im, a, false)
            == S.Arch(Plus4(a.pc), a.regs,
                      D.StoreBytes(a.mem, WidthBits(i.width) as bv4, Low15(Target(a.regs, i.rs1, i.imm12)),
                          ReadReg(a.regs, i.rs2)))
  {
    hide Sum, Fetch, Opcode, Rd, Rs1, Rs2, Funct3, Funct7, EncS, ImmGen, ImmSel, AluOut, ReadReg, NextRegs,
      Low15, Imm12, D.StoreBytes, WritesRd, IsControl, IsJump, Plus4, S.Inst, WidthBits, S.Result;
    var inst := S.Inst(im, a);
    StoreFields(i);
    DecodeS(i.imm12, i.rs2, i.rs1, WidthBits(i.width), STORE);
    MemRow(inst, a.pc, Imm12(i.imm12), S.Op1(im, a), S.Op2(im, a));
    WriteIsSetReg(a.regs, Rd(inst), S.Result(im, a));
  }

  /** A store whose width field is none of the three writes a zero word, at the aligned address. */
  lemma IllegalStore(im: Bytes, a: S.Arch, f3: bv3, rs1: bv5, rs2: bv5, imm: bv12)
    requires a.regs[0] == 0 && S.Inst(im, a) == EncS(imm, rs2, rs1, f3, STORE) && f3 >= 3
    ensures S.Exec(im, a, false)
            == S.Arch(Plus4(a.pc), a.regs, D.StoreWord(a.mem, Low15(Target(a.regs, rs1, imm)) & 0x7ffc, 0))
  {
    hide Sum, Fetch, Opcode, Rd, Rs1, Rs2, Funct3, Funct7, EncS, ImmGen, ImmSel, AluOut, ReadReg, NextRegs,
      Low15, Imm12, D.StoreWord, WritesRd, IsControl, IsJump, Plus4, S.Inst, S.Result;
    var inst := S.Inst(im, a);
    StoreParts(f3, rs1, rs2, imm);
    DecodeS(imm, rs2, rs1, f3, STORE);
    MemRow(inst, a.pc, Imm12(imm), S.Op1(im, a), S.Op2(im, a));
    WriteIsSetReg(a.regs, Rd(inst), S.Result(im, a));
  }

  lemma StoreParts(f3: bv3, rs1: bv5, rs2: bv5, imm: bv12)
    ensures var w := EncS(imm, rs2, rs1, f3, STORE);
            Opcode(w) == STORE && Rs1(w) == rs1 && Rs2(w) == rs2 && Funct3(w) == f3
  {
    hide EncR, Opcode, Rs1, Rs2, Funct3;
    DecodeR((imm >> 5) as bv7, rs2, rs1, f3, (imm & 0x1f) as bv5, STORE);
  }

  lemma StoreFields(i: Instr)
    requires i.Store?
    ensures var w := Encode(i);
            Opcode(w) == STORE && Rs1(w) == i.rs1 && Rs2(w) == i.rs2 && Funct3(w) == WidthBits(i.width)
  {
    hide EncS, Opcode, Rs1, Rs2, Funct3;
    StoreParts(WidthBits(i.width), i.rs1, i.rs2, i.imm12);
  }

  /** Decoding and executing an encoded instruction on the datapath is what the ISA says it does. */
  lemma ExecImplementsIsa(im: Bytes, i: Instr, a: S.Arch)
    requires a.regs[0] == 0 && S.Inst(im, a) == Encode(i) && Legal(i) && Supported(i, a.regs)
    ensures S.Exec(im, a, false) == IsaStep(i, a)
  {
    hide Fetch, S.Exec, Encode, ReadMem, D.LoadValue, WriteMem, D.StoreBytes, NaturallyAligned, EvalImm,
      EvalReg, EvalShift, Target;
    match i
    case OpImm(_, _, _, _) => ExecOpImm(im, i, a);
    case Shift(_, _, _, _) => ExecShift(im, i, a);
    case OpReg(_, _, _, _) => ExecOpReg(im, i, a);
    case Lui(_, _) => ExecLui(im, i, a);
    case Auipc(_, _) => ExecAuipc(im, i, a);
    case Jal(_, _) => ExecJump(im, i, a);
    case Jalr(_, _, _) => ExecJump(im, i, a);
    case Branch(_, _, _, _) => ExecBranch(im, i, a);
    case Load(w, rd, rs1, imm) =>
      ExecLoad(im, i, a);
      if rd != 0 { LoadAgrees(a.mem, w, Low15(Target(a.regs, rs1, imm))); }
    case Store(w, rs1, rs2, imm) =>
      ExecStore(im, i, a);
      StoreAgrees(a.mem, w, Low15(Target(a.regs, rs1, imm)), ReadReg(a.regs, rs2));
  }

  // ----- Exactly where the processor departs from the ISA -----

  predicate LowByteIs(w: Word, b: bv8) { w & 0xff == b as Word }

  lemma LowValues(mem: Bytes, a: Pc)
    ensures LowByteIs(ByteAt(mem, a) as Word, ByteAt(mem, a))
            && LowByteIs(D.SignExtend8(ByteAt(mem, a)), ByteAt(mem, a))
    ensures LowByteIs(D.SignExtend16(D.HalfAt(mem, a)), ByteAt(mem, a)) && LowByteIs(D.HalfAt(mem, a), ByteAt(mem, a))
    ensures LowByteIs(D.WordAt(mem, a), ByteAt(mem, a))
  {
    hide ByteAt, ByteAfter;
  }

  lemma LoadLowByte(mem: Bytes, w: Width, addr: Pc)
    ensures LowByteIs(D.LoadValue(mem, WidthBits(w) as bv4, addr), ByteAt(mem, D.Aligned(WidthBits(w) as bv4, addr)))
    ensures LowByteIs(ReadMem(mem, w, addr), ByteAt(mem, addr))
  {
    hide ByteAt, D.SignExtend8, D.SignExtend16, D.Aligned, LowByteIs, D.HalfAt, D.WordAt, ReadHalf, ReadWord, Signed;
    LowValues(mem, D.Aligned(WidthBits(w) as bv4, addr));
    LowValues(mem, addr);
    SameValues(mem, addr);
  }

  lemma MisalignedMoves(w: Width, addr: Pc)
    requires !NaturallyAligned(w, addr)
    ensures var a := D.Aligned(WidthBits(w) as bv4, addr);
            w != B && a != addr && a != addr + 1 && a != addr + 2 && a != addr + 3
  {
  }

  /** A misaligned load reads a wrong value from some memory. */
  lemma MisalignedLoad(w: Width, addr: Pc) returns (mem: Bytes)
    requires !NaturallyAligned(w, addr)
    ensures D.LoadValue(mem, WidthBits(w) as bv4, addr) != ReadMem(mem, w, addr)
  {
    hide ByteAt, SetByte, D.LoadValue, ReadMem, D.Aligned, NaturallyAligned;
    var zeros: Bytes := seq(MEM_SIZE, _ => 0);
    var a := D.Aligned(WidthBits(w) as bv4, addr);
    mem := SetByte(zeros, addr, !ByteAt(zeros, a));
    MisalignedMoves(w, addr);
    LoadLowByte(mem, w, addr);
    ByteOfSet(zeros, addr, !ByteAt(zeros, a), addr);
    ByteOfSet(zeros, addr, !ByteAt(zeros, a), a);
    NotItself(ByteAt(zeros, a));
  }

  lemma NotItself(b: bv8)
    ensures (!b) as Word != b as Word
  {
  }

  /** A misaligned store writes its low byte elsewhere. */
  lemma MisalignedStore(w: Width, addr: Pc, v: Word) returns (mem: Bytes)
    requires !NaturallyAligned(w, addr) && w != Bu && w != Hu
    ensures D.StoreBytes(mem, WidthBits(w) as bv4, addr, v) != WriteMem(mem, w, addr, v)
  {
    hide ByteAt, SetByte, D.Aligned, D.ByteOf, NaturallyAligned;
    var zeros: Bytes := seq(MEM_SIZE, _ => 0);
    var a := D.Aligned(WidthBits(w) as bv4, addr);
    mem := SetByte(zeros, a, !D.ByteOf(v, 0));
    MisalignedMoves(w, addr);
    NotItself(D.ByteOf(v, 0));
    StoreLowByte(mem, w, addr, v);
    WriteMisses(mem, w, addr, v, a);
    ByteOfSet(zeros, a, !D.ByteOf(v, 0), a);
  }

  lemma StoreLowByte(mem: Bytes, w: Width, addr: Pc, v: Word)
    requires w != Bu && w != Hu
    ensures var a := D.Aligned(WidthBits(w) as bv4, addr);
            ByteAt(D.StoreBytes(mem, WidthBits(w) as bv4, addr, v), a) == D.ByteOf(v, 0)
  {
    hide ByteAt, SetByte, D.Aligned, D.ByteOf, WidthBits, D.StoreBytes;
    StoreWidths(w);
    LowByteStored(mem, WidthBits(w) as bv4, addr, v);
  }

  lemma StoreWidths(w: Width)
    requires w != Bu && w != Hu
    ensures var l := WidthBits(w) as bv4; l == BYTE || l == HALF || l == WORD
  {
  }

  lemma LowByteStored(mem: Bytes, length: bv4, addr: Pc, v: Word)
    requires length == BYTE || length == HALF || length == WORD
    ensures ByteAt(D.StoreBytes(mem, length, addr, v), D.Aligned(length, addr)) == D.ByteOf(v, 0)
  {
    hide ByteAt, SetByte, D.Aligned, D.ByteOf, D.StoreWord;
    LowByteFirst(mem, D.Aligned(length, addr), v);
  }

  lemma LowByteFirst(mem: Bytes, a: Pc, v: Word)
    ensures ByteAt(SetByte(mem, a, D.ByteOf(v, 0)), a) == D.ByteOf(v, 0)
    ensures ByteAt(SetByte(SetByte(mem, a, D.ByteOf(v, 0)), a + 1, D.ByteOf(v, 8)), a) == D.ByteOf(v, 0)
    ensures ByteAt(D.StoreWord(mem, a, v), a) == D.ByteOf(v, 0)
  {
    hide ByteAt, SetByte, D.ByteOf;
    ByteOfSet(mem, a, D.ByteOf(v, 0), a);
    HigherBytes(SetByte(mem, a, D.ByteOf(v, 0)), a, D.ByteOf(v, 8), D.ByteOf(v, 16), D.ByteOf(v, 24));
  }

  /** Writing the bytes above an address leaves the byte there alone. */
  lemma HigherBytes(mem: Bytes, a: Pc, b1: bv8, b2: bv8, b3: bv8)
    ensures ByteAt(SetByte(mem, a + 1, b1), a) == ByteAt(mem, a)
    ensures ByteAt(SetByte(SetByte(SetByte(mem, a + 1, b1), a + 2, b2), a + 3, b3), a) == ByteAt(mem, a)
  {
    hide ByteAt, SetByte;
    var m1 := SetByte(mem, a + 1, b1);
    Above(a);
    ByteOfSet(mem, a + 1, b1, a);
    ByteOfSet(m1, a + 2, b2, a);
    ByteOfSet(SetByte(m1, a + 2, b2), a + 3, b3, a);
  }

  lemma Above(a: Pc)
    ensures a != a + 1 && a != a + 2 && a != a + 3
  {
  }

  lemma WriteMisses(mem: Bytes, w: Width, addr: Pc, v: Word, a: Pc)
    requires a != addr && a != addr + 1 && a != addr + 2 && a != addr + 3
    ensures ByteAt(WriteMem(mem, w, addr, v), a) == ByteAt(mem, a)
  {
    hide ByteAt, SetByte, D.ByteOf;
    var m1 := SetByte(mem, addr, D.ByteOf(v, 0));
    var m2 := SetByte(m1, addr + 1, D.ByteOf(v, 8));
    var m3 := SetByte(m2, addr + 2, D.ByteOf(v, 16));
    ByteOfSet(mem, addr, D.ByteOf(v, 0), a);
    ByteOfSet(m1, addr + 1, D.ByteOf(v, 8), a);
    ByteOfSet(m2, addr + 2, D.ByteOf(v, 16), a);
    ByteOfSet(m3, addr + 3, D.ByteOf(v, 24), a);
  }

  lemma OddTarget(im: Bytes, i: Instr, a: S.Arch)
    requires a.regs[0] == 0 && S.Inst(im, a) == Encode(i) && i.Jalr? && !Supported(i, a.regs)
    ensures S.Exec(im, a, false).pc != IsaStep(i, a).pc
  {
    hide Extend, Sum, Fetch, Opcode, Rd, Rs1, Rs2, Funct3, Funct7, EncI, ImmGen, ImmSel, AluOut, ReadReg,
      SetReg, S.Exec, Low15, Imm12, WritesRd, IsJump, IsMem, BranchTaken, Plus4, S.Inst, Even, ClearBit0;
    var inst, target := S.Inst(im, a), Target(a.regs, i.rs1, i.imm12);
    DecodeI(i.imm12, i.rs1, 0, i.rd, JALR);
    JumpRow(inst, a.pc, Imm12(i.imm12), S.Op1(im, a), S.Op2(im, a));
    ExecLink(im, a, i.rd, target);
    ClearingBit0(target);
  }

  lemma ClearingBit0(w: Word)
    ensures Low15(ClearBit0(w)) == Low15(w) <==> Even(w)
  {
  }

  lemma SetRegDiffers(regs: Regs, rd: bv5, v: Word, w: Word)
    requires rd != 0 && v != w
    ensures SetReg(regs, rd, v) != SetReg(regs, rd, w)
  {
    var k := rd as int;
    assert regs[k := v][k] != regs[k := w][k];
  }

  /** The processor does the wrong thing in some memory state whenever an encoding is not supported. */
  lemma Departs(im: Bytes, i: Instr, pc: Pc, regs: Regs) returns (mem: Bytes)
    requires regs[0] == 0 && Fetch(im, pc) == Encode(i) && Legal(i) && !Supported(i, regs)
    ensures S.Exec(im, S.Arch(pc, regs, mem), false) != IsaStep(i, S.Arch(pc, regs, mem))
  {
    hide Fetch, Encode, ReadMem, D.LoadValue, WriteMem, D.StoreBytes, NaturallyAligned, EvalImm, EvalReg,
      EvalShift, Target, S.RegsAfter, S.MemAfter, S.NextPc, Low15, ReadReg, SetReg;
    match i
    case Jalr(_, _, _) =>
      mem := seq(MEM_SIZE, _ => 0);
      OddTarget(im, i, S.Arch(pc, regs, mem));
    case Load(w, rd, rs1, imm) =>
      mem := MisalignedLoad(w, Low15(Target(regs, rs1, imm)));
      ExecLoad(im, i, S.Arch(pc, regs, mem));
      SetRegDiffers(regs, rd, D.LoadValue(mem, WidthBits(w) as bv4, Low15(Target(regs, rs1, imm))),
                    ReadMem(mem, w, Low15(Target(regs, rs1, imm))));
    case Store(w, rs1, rs2, imm) =>
      mem := MisalignedStore(w, Low15(Target(regs, rs1, imm)), ReadReg(regs, rs2));
      ExecStore(im, i, S.Arch(pc, regs, mem));
  }

  /** RV32I, exactly: an encoded instruction does what the ISA says on every memory if and only if its
      address is naturally aligned (to words for LBU and LHU), or its JALR target even. */
  lemma ImplementsIsaIff(im: Bytes, i: Instr, pc: Pc, regs: Regs)
    requires regs[0] == 0 && Fetch(im, pc) == Encode(i) && Legal(i)
    ensures Supported(i, regs)
            <==> forall mem: Bytes :: S.Exec(im, S.Arch(pc, regs, mem), false) == IsaStep(i, S.Arch(pc, regs, mem))
  {
    hide Fetch, Encode, S.Exec, IsaStep, Supported, Legal;
    if Supported(i, regs) {
      forall mem: Bytes { ExecImplementsIsa(im, i, S.Arch(pc, regs, mem)); }
    } else {
      var mem := Departs(im, i, pc, regs);
    }
  }
}
