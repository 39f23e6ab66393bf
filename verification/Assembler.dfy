/** The two-pass assembler, from parsed lines to instruction memory, data memory and labels. */
module Assembler {
  import opened Words
  import opened Numbers
  import opened DataStruct
  import M = ByteMemory

  /** One instruction as written, its registers and numbers already read. */
  datatype Source =
    | Reg3(op: Op, rd: bv5, rs1: bv5, rs2: bv5)
    | RegImm(op: Op, rd: bv5, rs1: bv5, imm: int)
    | MemRef(op: Op, r: bv5, base: bv5, imm: int)
    | Branch(op: Op, rs1: bv5, rs2: bv5, target: string)
    | Jump(rd: bv5, target: string)
    | UpperImm(op: Op, rd: bv5, imm: int)
    | Halt
    | Unknown
    | Li(rd: bv5, value: int)
    | La(rd: bv5, target: string)
    | Ret
    | J(target: string)
    | Mv(rd: bv5, rs: bv5)
    | Bnez(rs: bv5, target: string)
    | Beqz(rs: bv5, target: string)

  predicate WellFormed(src: Source) {
    match src
    case Reg3(op, _, _, _) => IsRegOp(op)
    case RegImm(op, _, _, _) => IsImmOp(op)
    case MemRef(op, _, _, _) => IsLoad(op) || IsStore(op) || op == Jalr
    case Branch(op, _, _, _) => IsBranch(op)
    case UpperImm(op, _, _) => op == Lui || op == Auipc
    case _ => true
  }

  /** A line; a label and what follows it on the same line count as two. */
  datatype Line =
    | Text
    | Data
    | Elements(size: nat, values: seq<int>)
    | LabelDef(name: string)
    | Code(src: Source)

  predicate WellFormedLine(l: Line) {
    && (l.Code? ==> WellFormed(l.src))
    && (l.Elements? ==> l.size == 1 || l.size == 2 || l.size == 4)
  }

  datatype Config = Config(textOffset: nat, dataOffset: nat, memSize: nat, maxLabels: nat)

  predicate ValidConfig(cfg: Config) {
    cfg.textOffset <= cfg.memSize && cfg.dataOffset <= cfg.memSize < 0x7fff_fff0
  }

  /** Where the assembler gives up. DoesNotFit stands for writes past the ends of the two memories. */
  datatype Error =
    | BadImmediate | CodeInData | DoesNotFit | ValueOutOfBounds
    | TooManyLabels | LabelTooLong | UndefinedLabel | OutOfReach

  datatype Result<T> = Ok(value: T) | Err(error: Error)

  datatype LabelLoc = LabelLoc(name: string, loc: nat)

  /** The assembler's memories, its labels and the address of the next line. */
  datatype Asm = Asm(imem: seq<Instr>, mem: seq<bv8>, labels: seq<LabelLoc>, memoff: nat)

  const MAX_LABEL_LEN := 32

  function Start(cfg: Config): Asm {
    Asm(seq(cfg.dataOffset / 4, _ => BLANK), M.Zeroed(cfg.memSize), [], 0)
  }

  // ----- Immediates -----

  /** Two's complement on 32 bits. */
  function Wrap(n: int): U32 {
    n % 0x1_0000_0000
  }

  function ParseImm(n: int, bits: nat): Option<Word>
    requires bits == 12 || bits == 20
  {
    var top := if bits == 12 then 0x1000 else 0x10_0000;
    if n > top - 1 || n < -(top / 2) then None else Some(ToWord(Wrap(n)))
  }

  function SignExtend12(w: Word): Word {
    if w & 0x800 != 0 then w | 0xffff_f000 else w
  }

  function High20(w: Word): Word { w >> 12 }
  function Low12(w: Word): Word { w & 0xfff }

  // ----- First pass: one instruction -----

  function Slots(src: Source): nat {
    if src.Li? || src.La? then 2 else 1
  }

  function SetReg(o: Operand, r: bv5): Operand { o.(reg := r) }
  function SetImm(o: Operand, w: Word): Operand { o.(imm := w) }
  function TypedReg(o: Operand, r: bv5): Operand { o.(kind := Register, reg := r) }
  function TypedImm(o: Operand, w: Word): Operand { o.(kind := Immediate, imm := w) }
  function TypedLabel(o: Operand, name: string): Operand { o.(kind := Label, name := name) }

  /** What an instruction writes over the slots it is given; fields it does not mention keep what they
      held. The second slot is used by li and la alone. */
  function Emit(src: Source, i: Instr, i2: Instr): Option<(Instr, Instr)> {
    match src
    case Reg3(op, rd, rs1, rs2) => Some((Instr(op, SetReg(i.a1, rd), SetReg(i.a2, rs1), SetReg(i.a3, rs2)), i2))
    case RegImm(op, rd, rs1, imm) =>
      var w := ParseImm(imm, 12);
      if w.None? then None
      else Some((Instr(op, SetReg(i.a1, rd), SetReg(i.a2, rs1), SetImm(i.a3, SignExtend12(w.value))), i2))
    case MemRef(op, r, base, imm) =>
      var w := ParseImm(imm, 12);
      if w.None? then None else Some((Instr(op, SetReg(i.a1, r), SetReg(i.a2, base), SetImm(i.a3, w.value)), i2))
    case Branch(op, rs1, rs2, t) => Some((Instr(op, SetReg(i.a1, rs1), SetReg(i.a2, rs2), TypedLabel(i.a3, t)), i2))
    case Jump(rd, t) => Some((Instr(Jal, TypedReg(i.a1, rd), TypedLabel(i.a2, t), i.a3), i2))
    case UpperImm(op, rd, imm) =>
      var w := ParseImm(imm, 20);
      if w.None? then None else Some((Instr(op, SetReg(i.a1, rd), SetImm(i.a2, w.value), i.a3), i2))
    case Halt => Some((i.(op := Hcf), i2))
    case Unknown => Some((i.(op := Unimpl), i2))
    case Li(rd, value) =>
      if value > 0xffff_ffff || value < -0x8000_0000 then None
      else
        var hv := ToWord(Wrap(value));
        Some((Instr(Lui, TypedReg(i.a1, rd), TypedImm(i.a2, High20(hv)), i.a3),
              Instr(Addi, TypedReg(i2.a1, rd), TypedReg(i2.a2, rd), TypedImm(i2.a3, Low12(hv)))))
    case La(rd, t) =>
      Some((Instr(Lui, TypedReg(i.a1, rd), TypedLabel(i.a2, t), i.a3),
            Instr(Addi, TypedReg(i2.a1, rd), TypedReg(i2.a2, rd), TypedLabel(i2.a3, t))))
    case Ret => Some((Instr(Jalr, TypedReg(i.a1, 0), TypedReg(i.a2, 1), TypedImm(i.a3, 0)), i2))
    case J(t) => Some((Instr(Jal, TypedReg(i.a1, 0), TypedLabel(i.a2, t), i.a3), i2))
    case Mv(rd, rs) => Some((Instr(Addi, TypedReg(i.a1, rd), TypedReg(i.a2, rs), TypedImm(i.a3, 0)), i2))
    case Bnez(rs, t) => Some((Instr(Bne, TypedReg(i.a1, rs), TypedReg(i.a2, 0), TypedLabel(i.a3, t)), i2))
    case Beqz(rs, t) => Some((Instr(Beq, TypedReg(i.a1, rs), TypedReg(i.a2, 0), TypedLabel(i.a3, t)), i2))
  }

  /** The word the first pass leaves in data memory under every instruction slot. */
  function Marker(): seq<bv8> { [0xcc, 0xcc, 0xcc, 0xcc] }

  function ParseCode(cfg: Config, st: Asm, src: Source): Result<Asm> {
    var k, n := st.memoff / 4, Slots(src);
    if st.memoff + 4 > cfg.dataOffset then Err(CodeInData)
    else if k + n > |st.imem| || !M.InRange(st.mem, st.memoff, 4 * n) then Err(DoesNotFit)
    else
      match Emit(src, st.imem[k], st.imem[k + n - 1])
      case None => Err(BadImmediate)
      case Some((i, i2)) =>
        var marked := M.Splice(st.mem, st.memoff, Marker());
        Ok(Asm(if n == 2 then st.imem[k := i][k + 1 := i2] else st.imem[k := i],
               if n == 2 then M.Splice(marked, st.memoff + 4, Marker()) else marked,
               st.labels, st.memoff + 4 * n))
  }

  // ----- First pass: data elements -----

  /** The bounds test of a data element: at the lower end only what 64 bits cannot hold is refused. */
  predicate ElementFits(size: nat, v: int)
    requires size == 1 || size == 2 || size == 4
  {
    -0x8000_0000_0000_0000 <= v < (if size == 1 then 0x100 else if size == 2 then 0x1_0000 else 0x1_0000_0000)
  }

  /** Places the first n values of a directive. */
  function ParseElements(st: Asm, size: nat, values: seq<int>, n: nat): Result<Asm>
    requires (size == 1 || size == 2 || size == 4) && n <= |values|
  {
    if n == 0 then Ok(st)
    else
      match ParseElements(st, size, values, n - 1)
      case Err(e) => Err(e)
      case Ok(t) =>
        if !ElementFits(size, values[n - 1]) then Err(ValueOutOfBounds)
        else if !M.InRange(t.mem, t.memoff, size) then Err(DoesNotFit)
        else Ok(t.(mem := M.Splice(t.mem, t.memoff, M.BytesOf(ToWord(Wrap(values[n - 1])), size)),
                   memoff := t.memoff + size))
  }

  // ----- First pass: lines -----

  function ParseLine(cfg: Config, st: Asm, l: Line): Result<Asm>
    requires WellFormedLine(l)
  {
    match l
    case Text => Ok(st.(memoff := cfg.textOffset))
    case Data => Ok(st.(memoff := cfg.dataOffset))
    case Elements(size, values) => ParseElements(st, size, values, |values|)
    case LabelDef(name) =>
      if |name| >= MAX_LABEL_LEN then Err(LabelTooLong)
      else if |st.labels| >= cfg.maxLabels then Err(TooManyLabels)
      else Ok(st.(labels := st.labels + [LabelLoc(name, st.memoff)]))
    case Code(src) => ParseCode(cfg, st, src)
  }

  ghost predicate WellFormedLines(lines: seq<Line>) {
    forall j :: 0 <= j < |lines| ==> WellFormedLine(lines[j])
  }

  /** The first pass over the first n lines. */
  ghost function Parse(cfg: Config, lines: seq<Line>, n: nat): Result<Asm>
    requires WellFormedLines(lines) && n <= |lines|
  {
    if n == 0 then Ok(Start(cfg))
    else
      match Parse(cfg, lines, n - 1)
      case Err(e) => Err(e)
      case Ok(st) => ParseLine(cfg, st, lines[n - 1])
  }

  // ----- Second pass -----

  /** The first definition of a label. */
  function LabelAddr(labels: seq<LabelLoc>, name: string): Option<nat> {
    if labels == [] then None
    else if labels[0].name == name then Some(labels[0].loc)
    else LabelAddr(labels[1..], name)
  }

  function SignedNum(w: Word): int {
    if ToNum(w) >= 0x8000_0000 then ToNum(w) - 0x1_0000_0000 else ToNum(w)
  }

  function Distance(a: int, b: int): nat {
    if a < b then b - a else a - b
  }

  function Bind(labels: seq<LabelLoc>, o: Operand): Result<Operand> {
    if o.kind != Label then Ok(o)
    else
      match LabelAddr(labels, o.name)
      case None => Err(UndefinedLabel)
      case Some(a) => Ok(o.(kind := Immediate, imm := ToWord(Wrap(a))))
  }

  /** What a label in the second operand means to the instruction in slot k. */
  function Second(k: nat, i: Instr): Result<Instr> {
    if i.op == Lui then Ok(i.(a2 := SetImm(i.a2, High20(i.a2.imm))))
    else if i.op == Jal && Distance(4 * k, SignedNum(i.a3.imm)) >= 0x20_0000 then Err(OutOfReach)
    else Ok(i)
  }

  /** What a label in the third operand means to it. */
  function Third(k: nat, i: Instr): Result<Instr> {
    if i.op == Addi then Ok(i.(a3 := SetImm(i.a3, Low12(i.a3.imm))))
    else if IsBranch(i.op) && Distance(4 * k, SignedNum(i.a3.imm)) >= 0x2000 then Err(OutOfReach)
    else Ok(i)
  }

  function ResolveFirst(labels: seq<LabelLoc>, i: Instr): Result<Instr> {
    match Bind(labels, i.a1)
    case Err(e) => Err(e)
    case Ok(o) => Ok(i.(a1 := o))
  }

  function ResolveSecond(labels: seq<LabelLoc>, k: nat, i: Instr): Result<Instr> {
    if i.a2.kind != Label then Ok(i)
    else
      match Bind(labels, i.a2)
      case Err(e) => Err(e)
      case Ok(o) => Second(k, i.(a2 := o))
  }

  function ResolveThird(labels: seq<LabelLoc>, k: nat, i: Instr): Result<Instr> {
    if i.a3.kind != Label then Ok(i)
    else
      match Bind(labels, i.a3)
      case Err(e) => Err(e)
      case Ok(o) => Third(k, i.(a3 := o))
  }

  /** Slot k after the second pass. */
  function Resolve(labels: seq<LabelLoc>, k: nat, i: Instr): Result<Instr> {
    if i.op == Unimpl then Ok(i)
    else
      match ResolveFirst(labels, i)
      case Err(e) => Err(e)
      case Ok(j) =>
        match ResolveSecond(labels, k, j)
        case Err(e) => Err(e)
        case Ok(m) => ResolveThird(labels, k, m)
  }

  /** The second pass over the first n slots. */
  function Normalize(labels: seq<LabelLoc>, imem: seq<Instr>, n: nat): (r: Result<seq<Instr>>)
    requires n <= |imem|
    ensures r.Ok? ==> |r.value| == |imem|
  {
    if n == 0 then Ok(imem)
    else
      match Normalize(labels, imem, n - 1)
      case Err(e) => Err(e)
      case Ok(m) =>
        match Resolve(labels, n - 1, m[n - 1])
        case Err(e) => Err(e)
        case Ok(i) => Ok(m[n - 1 := i])
  }

  /** Both passes: the processor's instruction memory and the initial data memory. */
  ghost function Assemble(cfg: Config, lines: seq<Line>): Result<Asm>
    requires WellFormedLines(lines)
  {
    match Parse(cfg, lines, |lines|)
    case Err(e) => Err(e)
    case Ok(st) =>
      match Normalize(st.labels, st.imem, |st.imem|)
      case Err(e) => Err(e)
      case Ok(imem) => Ok(st.(imem := imem))
  }
}
