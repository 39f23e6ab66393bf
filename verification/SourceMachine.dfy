/** The assembly language as a programmer reads it: lines, symbolic labels, and li, la, mv, j, ret, bnez
    and beqz as single steps. Register slots are the machine's, so x0 is an ordinary slot and j and ret
    leave their link in it. */
module SourceMachine {
  import opened Words
  import opened Numbers
  import opened DataStruct
  import opened Assembler
  import F = FunctionalCpu
  import M = ByteMemory

  /** The address of a line: where the section it is in has got to. */
  function Loc(cfg: Config, lines: seq<Line>, j: nat): nat
    requires j <= |lines|
  {
    if j == 0 then 0
    else
      match lines[j - 1]
      case Text => cfg.textOffset
      case Data => cfg.dataOffset
      case Elements(size, values) => Loc(cfg, lines, j - 1) + size * |values|
      case LabelDef(_) => Loc(cfg, lines, j - 1)
      case Code(src) => Loc(cfg, lines, j - 1) + 4 * Slots(src)
  }

  /** The first of the first n lines that defines a label. */
  function Find(lines: seq<Line>, name: string, n: nat): (k: Option<nat>)
    requires n <= |lines|
    ensures k.Some? ==> k.value < n && lines[k.value] == LabelDef(name)
  {
    if n == 0 then None
    else if Find(lines, name, n - 1).Some? then Find(lines, name, n - 1)
    else if lines[n - 1] == LabelDef(name) then Some(n - 1)
    else None
  }

  /** The first line from j on with an instruction at an address. */
  function LineAt(cfg: Config, lines: seq<Line>, a: int, j: nat): (k: Option<nat>)
    requires j <= |lines|
    ensures k.Some? ==> j <= k.value < |lines| && lines[k.value].Code? && Loc(cfg, lines, k.value) == a
    decreases |lines| - j
  {
    if j == |lines| then None
    else if lines[j].Code? && Loc(cfg, lines, j) == a then Some(j)
    else LineAt(cfg, lines, a, j + 1)
  }

  datatype Ref = Ref(line: nat, rf: Regs, mem: seq<bv8>)

  /** A number as a 32-bit word, and the sign-extended low twelve bits of one in reach of an immediate. */
  function Number(n: int): Word { ToWord(Wrap(n)) }
  function Signed12(n: int): int { if n >= 0x800 then n - 0x1000 else n }

  function Goto(k: Option<nat>, rf: Regs, mem: seq<bv8>): Option<Ref> {
    match k case None => None case Some(j) => Some(Ref(j, rf, mem))
  }

  function Assign(r: Ref, rd: bv5, v: Option<Word>): Option<Ref> {
    match v case None => None case Some(w) => Some(Ref(r.line + 1, F.Put(r.rf, rd, w), r.mem))
  }

  /** One line. None: the program runs into a directive or off its end, a jump lands between
      instructions, or the instruction has no meaning. */
  function Step(cfg: Config, lines: seq<Line>, r: Ref): Option<Ref> {
    if r.line >= |lines| then None
    else
      match lines[r.line]
      case LabelDef(_) => Some(r.(line := r.line + 1))
      case Code(src) => StepCode(cfg, lines, r, src)
      case _ => None
  }

  function StepCode(cfg: Config, lines: seq<Line>, r: Ref, src: Source): Option<Ref>
    requires r.line < |lines|
  {
    var link := Number(Loc(cfg, lines, r.line + 1));
    match src
    case Reg3(op, rd, rs1, rs2) => Assign(r, rd, F.Arith(op, ReadReg(r.rf, rs1), ReadReg(r.rf, rs2)))
    case RegImm(op, rd, rs1, imm) => Assign(r, rd, F.Arith(op, ReadReg(r.rf, rs1), Number(Signed12(imm))))
    case MemRef(op, reg, base, imm) => StepMem(cfg, lines, r, op, reg, base, imm)
    case Branch(op, rs1, rs2, t) =>
      if F.Holds(op, ReadReg(r.rf, rs1), ReadReg(r.rf, rs2)) then Goto(Find(lines, t, |lines|), r.rf, r.mem)
      else Some(r.(line := r.line + 1))
    case Jump(rd, t) => Goto(Find(lines, t, |lines|), F.Put(r.rf, rd, link), r.mem)
    case UpperImm(op, rd, imm) =>
      var upper := F.Upper(Number(imm));
      Assign(r, rd, Some(if op == Lui then upper else Sum(Number(Loc(cfg, lines, r.line)), upper)))
    case Halt => Some(r.(line := r.line + 1))
    case Unknown => Some(r.(line := r.line + 1))
    case Li(rd, value) => Assign(r, rd, Some(Number(value)))
    case La(rd, t) =>
      var k := Find(lines, t, |lines|);
      Assign(r, rd, if k.None? then None else Some(Number(Loc(cfg, lines, k.value))))
    case Ret => Goto(LineAt(cfg, lines, ToNum(ReadReg(r.rf, 1)), 0), F.Put(r.rf, 0, link), r.mem)
    case J(t) => Goto(Find(lines, t, |lines|), F.Put(r.rf, 0, link), r.mem)
    case Mv(rd, rs) => Assign(r, rd, Some(ReadReg(r.rf, rs)))
    case Bnez(rs, t) =>
      if ReadReg(r.rf, rs) != ReadReg(r.rf, 0) then Goto(Find(lines, t, |lines|), r.rf, r.mem)
      else Some(r.(line := r.line + 1))
    case Beqz(rs, t) =>
      if ReadReg(r.rf, rs) == ReadReg(r.rf, 0) then Goto(Find(lines, t, |lines|), r.rf, r.mem)
      else Some(r.(line := r.line + 1))
  }

  /** Loads, stores and register jumps. */
  function StepMem(cfg: Config, lines: seq<Line>, r: Ref, op: Op, reg: bv5, base: bv5, imm: int): Option<Ref>
    requires r.line < |lines|
  {
    var a := ToNum(Sum(ReadReg(r.rf, base), Number(imm)));
    if IsLoad(op) then Assign(r, reg, M.Load(op, r.mem, a))
    else if IsStore(op) then
      match M.Store(op, r.mem, a, ReadReg(r.rf, reg))
      case None => None
      case Some(mem) => Some(Ref(r.line + 1, r.rf, mem))
    else
      var rf := F.Put(r.rf, reg, Number(Loc(cfg, lines, r.line + 1)));
      Goto(LineAt(cfg, lines, ToNum(Sum(ReadReg(rf, base), Number(imm))), 0), rf, r.mem)
  }

  function RefAt(cfg: Config, lines: seq<Line>, r: Ref, n: nat): Option<Ref> {
    if n == 0 then Some(r)
    else
      match RefAt(cfg, lines, r, n - 1)
      case None => None
      case Some(q) => Step(cfg, lines, q)
  }

  /** Machine instructions a line takes. */
  function Cost(lines: seq<Line>, r: Ref): nat {
    if r.line < |lines| && lines[r.line].Code? then Slots(lines[r.line].src) else 0
  }

  /** Machine instructions the first n lines of a run take. */
  function CostTo(cfg: Config, lines: seq<Line>, r: Ref, n: nat): nat {
    if n == 0 || RefAt(cfg, lines, r, n - 1).None? then 0
    else CostTo(cfg, lines, r, n - 1) + Cost(lines, RefAt(cfg, lines, r, n - 1).value)
  }

  // ----- Programs the assembler lays out without overwriting -----

  predicate IsCode(lines: seq<Line>, j: int) {
    0 <= j < |lines| && lines[j].Code?
  }

  /** The instruction slots of a line. */
  predicate InSlots(cfg: Config, lines: seq<Line>, j: int, k: int) {
    IsCode(lines, j) && Loc(cfg, lines, j) / 4 <= k < Loc(cfg, lines, j) / 4 + Slots(lines[j].src)
  }

  ghost predicate NoOverlap(cfg: Config, lines: seq<Line>) {
    forall i, j, k :: i < j && InSlots(cfg, lines, i, k) ==> !InSlots(cfg, lines, j, k)
  }

  /** One text section: all instructions are between lines a and b, with only labels among them. */
  ghost predicate OneSection(lines: seq<Line>, a: nat, b: nat) {
    && a <= b <= |lines|
    && (forall j :: IsCode(lines, j) ==> a <= j < b)
    && (forall j :: a <= j < b ==> lines[j].Code? || lines[j].LabelDef?)
  }

  /** Within the section a line moves the address on by its slots, a label not at all. */
  lemma LocStep(cfg: Config, lines: seq<Line>, a: nat, b: nat, j: nat)
    requires OneSection(lines, a, b) && a <= j < b
    ensures Loc(cfg, lines, j + 1) == Loc(cfg, lines, j) + (if IsCode(lines, j) then 4 * Slots(lines[j].src) else 0)
  {
    hide Slots;
  }

  lemma {:induction false} LocGrows(cfg: Config, lines: seq<Line>, a: nat, b: nat, i: nat, j: nat)
    requires OneSection(lines, a, b) && a <= i <= j <= b
    ensures Loc(cfg, lines, i) <= Loc(cfg, lines, j)
    ensures Loc(cfg, lines, j) % 4 == Loc(cfg, lines, i) % 4
    ensures i < j && IsCode(lines, i) ==> Loc(cfg, lines, i) + 4 * Slots(lines[i].src) <= Loc(cfg, lines, j)
    decreases j
  {
    hide Loc, Slots, OneSection;
    if i == j {
    } else {
      LocStep(cfg, lines, a, b, j - 1);
      LocGrows(cfg, lines, a, b, i, j - 1);
    }
  }

  /** Instructions in one section never share a slot. */
  lemma OneSectionNoOverlap(cfg: Config, lines: seq<Line>, a: nat, b: nat)
    requires OneSection(lines, a, b)
    ensures NoOverlap(cfg, lines)
  {
    hide Loc, Slots;
    forall i, j, k | i < j && InSlots(cfg, lines, i, k) ensures !InSlots(cfg, lines, j, k) {
      if IsCode(lines, j) {
        LocGrows(cfg, lines, a, b, i, j);
        QuotientsApart(Loc(cfg, lines, i), Loc(cfg, lines, j), Slots(lines[i].src));
      }
    }
  }

  lemma QuotientsApart(x: nat, y: nat, n: nat)
    requires x + 4 * n <= y
    ensures x / 4 + n <= y / 4
  {
  }
}
