/** The functional processor: one decoded instruction at a time, as the simulator executes it. Slot 0 of
    its register file is an ordinary slot. None stands for a run the C++ gives no meaning to: a shift
    by 32 or more, an access that fails the memory's bounds check, a fetch past the instruction memory. */
module FunctionalCpu {
  import opened Words
  import opened Numbers
  import opened DataStruct
  import Datapath
  import M = ByteMemory

  datatype Core = Core(pc: Addr, rf: Regs, mem: seq<bv8>)

  function Put(rf: Regs, rd: bv5, v: Word): Regs {
    rf[rd as int := v]
  }

  /** A shift by a whole register or immediate; it has a meaning below 32 only. */
  function Shift(op: Op, x: Word, y: Word): Option<Word> {
    if y >= 32 then None
    else
      var n := Datapath.Low5(y);
      if op == Sll || op == Slli then Some(Datapath.Shl(x, n))
      else if op == Srl || op == Srli then Some(Datapath.Shr(x, n))
      else Some(Datapath.ShiftRightArith(x, n))
  }

  /** Register-register and register-immediate operations. SLTU adds. */
  function Arith(op: Op, x: Word, y: Word): Option<Word> {
    match op
    case Add | Addi | Sltu => Some(Sum(x, y))
    case Sub => Some(Minus(x, y))
    case Slt | Slti => Some(Flag(SignedLess(x, y)))
    case Sltiu => Some(Flag(Below(x, y)))
    case And | Andi => Some(BitAnd(x, y))
    case Or | Ori => Some(BitOr(x, y))
    case Xor | Xori => Some(BitXor(x, y))
    case _ => Shift(op, x, y)
  }

  predicate Holds(op: Op, x: Word, y: Word) {
    match op
    case Beq => x == y
    case Bge => !SignedLess(x, y)
    case Bgeu => !Below(x, y)
    case Blt => SignedLess(x, y)
    case Bltu => Below(x, y)
    case _ => x != y
  }

  function Upper(imm: Word): Word { imm << 12 }

  /** Writing a result and moving on to the next instruction. */
  function WriteBack(c: Core, rd: bv5, v: Option<Word>): Option<Core> {
    match v
    case None => None
    case Some(w) => Some(Core(Next(c.pc), Put(c.rf, rd, w), c.mem))
  }

  /** The effect of one instruction. JALR writes its link before it reads its base. */
  function Process(i: Instr, c: Core): Option<Core> {
    var x1, x2, x3 := ReadReg(c.rf, i.a1.reg), ReadReg(c.rf, i.a2.reg), ReadReg(c.rf, i.a3.reg);
    var link := ToWord(Next(c.pc));
    if IsRegOp(i.op) then WriteBack(c, i.a1.reg, Arith(i.op, x2, x3))
    else if IsImmOp(i.op) then WriteBack(c, i.a1.reg, Arith(i.op, x2, i.a3.imm))
    else if IsBranch(i.op) then
      Some(Core(if Holds(i.op, x1, x2) then ToNum(i.a3.imm) else Next(c.pc), c.rf, c.mem))
    else if i.op == Jal then Some(Core(ToNum(i.a2.imm), Put(c.rf, i.a1.reg, link), c.mem))
    else if i.op == Jalr then
      var rf := Put(c.rf, i.a1.reg, link);
      Some(Core(ToNum(Sum(ReadReg(rf, i.a2.reg), i.a3.imm)), rf, c.mem))
    else if i.op == Auipc then WriteBack(c, i.a1.reg, Some(Sum(ToWord(c.pc), Upper(i.a2.imm))))
    else if i.op == Lui then WriteBack(c, i.a1.reg, Some(Upper(i.a2.imm)))
    else if IsLoad(i.op) then WriteBack(c, i.a1.reg, M.Load(i.op, c.mem, ToNum(Sum(x2, i.a3.imm))))
    else if IsStore(i.op) then
      match M.Store(i.op, c.mem, ToNum(Sum(x2, i.a3.imm)), x1)
      case None => None
      case Some(mem) => Some(Core(Next(c.pc), c.rf, mem))
    else Some(c.(pc := Next(c.pc)))
  }

  function Fetch(im: seq<Instr>, pc: Addr): Option<Instr> {
    if pc / 4 < |im| then Some(im[pc / 4]) else None
  }

  function StepCore(im: seq<Instr>, c: Core): Option<Core> {
    match Fetch(im, c.pc)
    case None => None
    case Some(i) => Process(i, c)
  }

  /** State after n instructions. */
  function CoreAt(im: seq<Instr>, c: Core, n: nat): Option<Core> {
    if n == 0 then Some(c)
    else
      match CoreAt(im, c, n - 1)
      case None => None
      case Some(d) => StepCore(im, d)
  }

  predicate AtHcf(im: seq<Instr>, c: Core) {
    Fetch(im, c.pc).Some? && Fetch(im, c.pc).value.op == Hcf
  }

  lemma NothingToDo(i: Instr, c: Core)
    requires i.op == Hcf || i.op == Unimpl
    ensures Process(i, c) == Some(c.(pc := Next(c.pc)))
  {
    hide ReadReg, Next, ToNum, ToWord, Arith, Put;
  }

  lemma HcfDoesNothing(im: seq<Instr>, c: Core)
    requires AtHcf(im, c)
    ensures StepCore(im, c) == Some(c.(pc := Next(c.pc)))
  {
    hide Process, Next;
    NothingToDo(im[c.pc / 4], c);
  }

  /** The packet the processor sends on for one instruction. */
  function PacketOf(im: seq<Instr>, c: Core): Packet
    requires StepCore(im, c).Some?
  {
    Packet(im[c.pc / 4], c.pc, StepCore(im, c).value.pc != Next(c.pc))
  }

  lemma {:induction false} RunSplits(im: seq<Instr>, c: Core, m: nat, n: nat)
    requires CoreAt(im, c, m).Some?
    ensures CoreAt(im, c, m + n) == CoreAt(im, CoreAt(im, c, m).value, n)
  {
    hide StepCore;
    if n > 0 { RunSplits(im, c, m, n - 1); }
  }

  lemma {:induction false} RunGoesBack(im: seq<Instr>, c: Core, m: nat, n: nat)
    requires m <= n && CoreAt(im, c, n).Some?
    ensures CoreAt(im, c, m).Some?
    decreases n
  {
    hide StepCore;
    if m < n { RunGoesBack(im, c, m, n - 1); }
  }

  lemma StepDefined(im: seq<Instr>, c: Core, n: nat)
    requires n > 0 && CoreAt(im, c, n).Some?
    ensures CoreAt(im, c, n - 1).Some? && StepCore(im, CoreAt(im, c, n - 1).value) == CoreAt(im, c, n)
  {
    hide StepCore;
  }

  // ----- One instruction, by kind -----

  predicate WritesReg(op: Op) {
    IsRegOp(op) || IsImmOp(op) || IsLoad(op) || op == Jal || op == Jalr || op == Lui || op == Auipc
  }
  /** What an instruction writes to its first operand; None where it has no meaning. */
  function Written(i: Instr, c: Core): Option<Word>
    requires WritesReg(i.op)
  {
    var x2 := ReadReg(c.rf, i.a2.reg);
    if IsRegOp(i.op) then Arith(i.op, x2, ReadReg(c.rf, i.a3.reg))
    else if IsImmOp(i.op) then Arith(i.op, x2, i.a3.imm)
    else if IsLoad(i.op) then M.Load(i.op, c.mem, ToNum(Sum(x2, i.a3.imm)))
    else if i.op == Lui then Some(Upper(i.a2.imm))
    else if i.op == Auipc then Some(Sum(ToWord(c.pc), Upper(i.a2.imm)))
    else Some(ToWord(Next(c.pc)))
  }
  /** What an instruction that writes a register does, in one line. */
  lemma WritesIt(i: Instr, c: Core)
    requires WritesReg(i.op)
    ensures Process(i, c)
            == match Written(i, c)
               case None => None
               case Some(w) =>
                 Some(Core(if i.op == Jal then ToNum(i.a2.imm)
                           else if i.op == Jalr then ToNum(Sum(ReadReg(Put(c.rf, i.a1.reg, w), i.a2.reg), i.a3.imm))
                           else Next(c.pc),
                           Put(c.rf, i.a1.reg, w), c.mem))
  {
    hide ReadReg, Next, ToNum, ToWord, Arith, Put, Sum, Upper, M.Load;
  }
  lemma UpperGoes(i: Instr, c: Core)
    requires i.op == Lui || i.op == Auipc
    ensures var v := if i.op == Lui then Upper(i.a2.imm) else Sum(ToWord(c.pc), Upper(i.a2.imm));
            Process(i, c) == Some(Core(Next(c.pc), Put(c.rf, i.a1.reg, v), c.mem))
  {
    hide ReadReg, Put, Next, ToNum, ToWord, Sum, Upper;
  }

  lemma ArithGoes(i: Instr, c: Core)
    requires IsRegOp(i.op) || IsImmOp(i.op)
    ensures Process(i, c)
            == WriteBack(c, i.a1.reg, Arith(i.op, ReadReg(c.rf, i.a2.reg),
                                            if IsRegOp(i.op) then ReadReg(c.rf, i.a3.reg) else i.a3.imm))
  {
    hide ReadReg, Put, Next, ToNum, ToWord, Arith;
  }

  lemma JalGoes(i: Instr, c: Core)
    requires i.op == Jal
    ensures Process(i, c) == Some(Core(ToNum(i.a2.imm), Put(c.rf, i.a1.reg, ToWord(Next(c.pc))), c.mem))
  {
    hide ReadReg, Put, Next, ToNum, ToWord;
  }

  lemma JalrGoes(i: Instr, c: Core)
    requires i.op == Jalr
    ensures var rf := Put(c.rf, i.a1.reg, ToWord(Next(c.pc)));
            Process(i, c) == Some(Core(ToNum(Sum(ReadReg(rf, i.a2.reg), i.a3.imm)), rf, c.mem))
  {
    hide ReadReg, Put, Next, ToNum, ToWord, Sum;
  }

  lemma LoadGoes(i: Instr, c: Core)
    requires IsLoad(i.op)
    ensures Process(i, c)
            == match M.Load(i.op, c.mem, ToNum(Sum(ReadReg(c.rf, i.a2.reg), i.a3.imm)))
               case None => None
               case Some(w) => Some(Core(Next(c.pc), Put(c.rf, i.a1.reg, w), c.mem))
  {
    hide M.Load, ReadReg, Put, ToNum, ToWord, Next, Sum;
  }

  lemma BranchGoes(i: Instr, c: Core)
    requires IsBranch(i.op)
    ensures Process(i, c) == Some(c.(pc := if Holds(i.op, ReadReg(c.rf, i.a1.reg), ReadReg(c.rf, i.a2.reg))
                                           then ToNum(i.a3.imm) else Next(c.pc)))
  {
    hide Holds, ReadReg, ToNum, ToWord, Next;
  }

  lemma StoreGoes(i: Instr, c: Core)
    requires IsStore(i.op)
    ensures Process(i, c)
            == match M.Store(i.op, c.mem, ToNum(Sum(ReadReg(c.rf, i.a2.reg), i.a3.imm)), ReadReg(c.rf, i.a1.reg))
               case None => None
               case Some(mem) => Some(Core(Next(c.pc), c.rf, mem))
  {
    hide M.Store, ReadReg, ToNum, ToWord, Next, Sum;
  }

  // ----- A register x0 that is only kept at zero by the program -----



  /** The instruction is about to put a value into x0. */
  predicate FillsX0(im: seq<Instr>, c: Core) {
    Fetch(im, c.pc).Some? &&
    var i := Fetch(im, c.pc).value;
    WritesReg(i.op) && i.a1.reg == 0 && Written(i, c).Some? && Written(i, c).value != 0
  }

  /** One instruction of the machine an assembly programmer expects: what is written to x0 is dropped. */
  function ProcessZero(i: Instr, c: Core): Option<Core> {
    if !WritesReg(i.op) || i.a1.reg != 0 then Process(i, c)
    else
      match Written(i, c)
      case None => None
      case Some(_) =>
        Some(c.(pc := if i.op == Jal then ToNum(i.a2.imm)
                      else if i.op == Jalr then ToNum(Sum(ReadReg(c.rf, i.a2.reg), i.a3.imm))
                      else Next(c.pc)))
  }

  function StepZero(im: seq<Instr>, c: Core): Option<Core> {
    match Fetch(im, c.pc)
    case None => None
    case Some(i) => ProcessZero(i, c)
  }

  function ZeroAt(im: seq<Instr>, c: Core, n: nat): Option<Core> {
    if n == 0 then Some(c)
    else
      match ZeroAt(im, c, n - 1)
      case None => None
      case Some(d) => StepZero(im, d)
  }

  ghost predicate RunAlike(im: seq<Instr>, c: Core, n: nat) {
    forall k: nat :: k <= n ==> CoreAt(im, c, k) == ZeroAt(im, c, k)
  }

  /** The k-th instruction of the run does not fill x0. */
  predicate SparesX0(im: seq<Instr>, c: Core, k: nat) {
    CoreAt(im, c, k).Some? ==> !FillsX0(im, CoreAt(im, c, k).value)
  }

  ghost predicate SparesX0To(im: seq<Instr>, c: Core, n: nat) {
    forall k: nat :: k < n ==> SparesX0(im, c, k)
  }

  lemma PutZero(rf: Regs, rd: bv5, v: Word)
    ensures rd != 0 ==> ReadReg(Put(rf, rd, v), 0) == ReadReg(rf, 0)
    ensures ReadReg(Put(rf, 0, v), 0) == v
    ensures ReadReg(rf, 0) == 0 ==> Put(rf, 0, 0) == rf
  {
    RegIndex(rd);
  }

  lemma RegIndex(rd: bv5)
    ensures (rd as int) as bv5 == rd
  {
  }


  lemma KeepsRegs(i: Instr, c: Core)
    requires !WritesReg(i.op)
    ensures Process(i, c).Some? ==> Process(i, c).value.rf == c.rf
  {
    hide ReadReg, Next, ToNum, ToWord, Arith, Put, Sum, Upper, M.Store, Holds;
  }

  /** One instruction is the same in both machines exactly when it does not fill x0. */
  lemma ZeroStepIff(im: seq<Instr>, c: Core)
    requires ReadReg(c.rf, 0) == 0
    ensures StepCore(im, c) == StepZero(im, c) <==> !FillsX0(im, c)
    ensures StepZero(im, c).Some? ==> ReadReg(StepZero(im, c).value.rf, 0) == 0
  {
    hide Process, Written, ReadReg, Put, Next, ToNum, Sum, WritesReg;
    if Fetch(im, c.pc).Some? {
      var i := Fetch(im, c.pc).value;
      if WritesReg(i.op) {
        WritesIt(i, c);
        if Written(i, c).Some? { PutZero(c.rf, i.a1.reg, Written(i, c).value); }
      } else {
        KeepsRegs(i, c);
      }
    }
  }

  lemma {:induction false} ZeroStays(im: seq<Instr>, c: Core, n: nat)
    requires ReadReg(c.rf, 0) == 0 && ZeroAt(im, c, n).Some?
    ensures ReadReg(ZeroAt(im, c, n).value.rf, 0) == 0
  {
    hide StepZero, ReadReg, FillsX0, StepCore;
    if n > 0 {
      ZeroStays(im, c, n - 1);
      ZeroStepIff(im, ZeroAt(im, c, n - 1).value);
    }
  }

  /** The simulator runs like the machine whose x0 is fixed at zero for exactly as long as no instruction
      it is about to execute fills x0: one that writes there, and not zero. */
  lemma {:induction false} ZeroRegisterIff(im: seq<Instr>, c: Core, n: nat)
    requires ReadReg(c.rf, 0) == 0
    ensures RunAlike(im, c, n) <==> SparesX0To(im, c, n)
  {
    hide StepZero, StepCore, ReadReg, FillsX0;
    if n == 0 {
      StartsAlike(im, c);
    } else {
      ZeroRegisterIff(im, c, n - 1);
      assert RunAlike(im, c, n) <==> RunAlike(im, c, n - 1) && CoreAt(im, c, n) == ZeroAt(im, c, n);
      assert SparesX0To(im, c, n) <==> SparesX0To(im, c, n - 1) && SparesX0(im, c, n - 1);
      if RunAlike(im, c, n - 1) && CoreAt(im, c, n - 1).Some? {
        assert CoreAt(im, c, n - 1) == ZeroAt(im, c, n - 1);
        ZeroStays(im, c, n - 1);
        ZeroStepIff(im, CoreAt(im, c, n - 1).value);
      }
    }
  }

  lemma StartsAlike(im: seq<Instr>, c: Core)
    ensures CoreAt(im, c, 0) == ZeroAt(im, c, 0)
  {
  }

  /** No instruction of the program names x0 as the register it writes. */
  ghost predicate NeverNamesX0(im: seq<Instr>) {
    forall k :: 0 <= k < |im| && WritesReg(im[k].op) ==> im[k].a1.reg != 0
  }

  /** A check of the program text alone: without such an instruction every run is the zero machine's. */
  lemma TextKeepsZero(im: seq<Instr>, c: Core, n: nat)
    requires ReadReg(c.rf, 0) == 0 && NeverNamesX0(im)
    ensures RunAlike(im, c, n)
  {
    hide CoreAt, ZeroAt, WritesReg, Written, ReadReg;
    ZeroRegisterIff(im, c, n);
  }

  /** A jump without a link register fills x0 with its return address, wherever it is but at the very top. */
  lemma JumpFillsX0(im: seq<Instr>, c: Core)
    requires Fetch(im, c.pc).Some? && Fetch(im, c.pc).value.op == Jal && Fetch(im, c.pc).value.a1.reg == 0
    ensures FillsX0(im, c) <==> Next(c.pc) != 0
  {
    hide ToWord, ToNum;
    NumBack(Next(c.pc));
    NumBack(0);
    ZeroWord();
  }

  lemma ZeroWord()
    ensures ToWord(0) == 0
  {
  }
}
