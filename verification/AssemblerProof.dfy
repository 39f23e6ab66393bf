/** Assembling preserves meaning: the processor, running what the two passes produce, does step for step
    what the source machine does with the lines. */
module AssemblerProof {
  import opened Words
  import opened Numbers
  import opened DataStruct
  import opened Assembler
  import opened SourceMachine
  import F = FunctionalCpu
  import M = ByteMemory

  // ----- First pass: layout -----

  /** The labels of the first n lines, with their addresses. */
  function LabelsTo(cfg: Config, lines: seq<Line>, n: nat): seq<LabelLoc>
    requires n <= |lines|
  {
    if n == 0 then []
    else if lines[n - 1].LabelDef? then
      LabelsTo(cfg, lines, n - 1) + [LabelLoc(lines[n - 1].name, Loc(cfg, lines, n - 1))]
    else LabelsTo(cfg, lines, n - 1)
  }

  /** What one instruction leaves in blank slots. */
  function Fresh(src: Source): Option<(Instr, Instr)> {
    Emit(src, BLANK, BLANK)
  }

  /** The slots of line j hold its instruction. */
  predicate Placed(cfg: Config, lines: seq<Line>, imem: seq<Instr>, j: nat)
    requires IsCode(lines, j)
  {
    var k, src := Loc(cfg, lines, j) / 4, lines[j].src;
    && k + Slots(src) <= |imem|
    && Fresh(src).Some? && imem[k] == Fresh(src).value.0
    && (Slots(src) == 2 ==> imem[k + 1] == Fresh(src).value.1)
  }

  ghost predicate Laid(cfg: Config, lines: seq<Line>, st: Asm, n: nat)
    requires n <= |lines|
  {
    && st.memoff == Loc(cfg, lines, n)
    && |st.imem| == cfg.dataOffset / 4 && |st.mem| == cfg.memSize
    && st.labels == LabelsTo(cfg, lines, n)
    && (forall j :: 0 <= j <= n ==> Loc(cfg, lines, j) <= cfg.memSize)
    && (forall j :: 0 <= j < n && IsCode(lines, j) ==> Placed(cfg, lines, st.imem, j))
    && (forall k ::
          0 <= k < |st.imem| && (forall j :: 0 <= j < n ==> !InSlots(cfg, lines, j, k)) ==> st.imem[k] == BLANK)
  }

  lemma {:induction false} ElementsKeep(st: Asm, size: nat, values: seq<int>, n: nat)
    requires (size == 1 || size == 2 || size == 4) && n <= |values|
    requires ParseElements(st, size, values, n).Ok? && st.memoff <= |st.mem|
    ensures var t := ParseElements(st, size, values, n).value;
            && t.imem == st.imem && t.labels == st.labels && |t.mem| == |st.mem|
            && t.memoff == st.memoff + size * n && t.memoff <= |t.mem|
  {
    hide M.BytesOf, ElementFits;
    if n > 0 {
      ElementsKeep(st, size, values, n - 1);
      assert size * n == size * (n - 1) + size;
    }
  }

  lemma CodeKeeps(cfg: Config, st: Asm, src: Source)
    requires ParseCode(cfg, st, src).Ok?
    ensures var t, k, n := ParseCode(cfg, st, src).value, st.memoff / 4, Slots(src);
            && t.labels == st.labels && |t.mem| == |st.mem| && |t.imem| == |st.imem|
            && t.memoff == st.memoff + 4 * n <= |t.mem| && k + n <= |st.imem|
            && Emit(src, st.imem[k], st.imem[k + n - 1]).Some?
            && var e := Emit(src, st.imem[k], st.imem[k + n - 1]).value;
            t.imem == if n == 2 then st.imem[k := e.0][k + 1 := e.1] else st.imem[k := e.0]
  {
    hide Emit;
  }

  /** The second argument of Emit only matters to instructions with two slots. */
  lemma OneSlotIgnores(src: Source, i: Instr, i2: Instr)
    requires Slots(src) == 1
    ensures Emit(src, i, i).Some? == Emit(src, i, i2).Some?
    ensures Emit(src, i, i).Some? ==> Emit(src, i, i).value.0 == Emit(src, i, i2).value.0
  {
    hide ToWord;
  }

  /** The slots an instruction takes hold it afterwards, and no other slot changes. */
  lemma CodeWrites(cfg: Config, lines: seq<Line>, st: Asm, n: nat)
    requires n < |lines| && lines[n].Code? && st.memoff == Loc(cfg, lines, n)
    requires ParseCode(cfg, st, lines[n].src).Ok?
    requires forall k :: InSlots(cfg, lines, n, k) && k < |st.imem| ==> st.imem[k] == BLANK
    ensures var t := ParseCode(cfg, st, lines[n].src).value;
            && |t.imem| == |st.imem| && Placed(cfg, lines, t.imem, n)
            && forall m :: 0 <= m < |st.imem| && !InSlots(cfg, lines, n, m) ==> t.imem[m] == st.imem[m]
  {
    hide Emit, ParseCode, Loc;
    var src, k := lines[n].src, st.memoff / 4;
    CodeKeeps(cfg, st, src);
    assert InSlots(cfg, lines, n, k) && InSlots(cfg, lines, n, k + Slots(src) - 1);
    if Slots(src) == 1 { OneSlotIgnores(src, BLANK, BLANK); }
  }

  lemma PlaceCode(cfg: Config, lines: seq<Line>, st: Asm, n: nat)
    requires n < |lines| && lines[n].Code? && NoOverlap(cfg, lines) && Laid(cfg, lines, st, n)
    requires ParseCode(cfg, st, lines[n].src).Ok?
    ensures Laid(cfg, lines, ParseCode(cfg, st, lines[n].src).value, n + 1)
  {
    hide Emit, Slots, ParseCode, Placed, InSlots, NoOverlap;
    var src := lines[n].src;
    var t := ParseCode(cfg, st, src).value;
    CodeKeeps(cfg, st, src);
    NewSlotsBlank(cfg, lines, st, n);
    CodeWrites(cfg, lines, st, n);
    forall j | 0 <= j < n && IsCode(lines, j) ensures Placed(cfg, lines, t.imem, j) {
      OldSlotsKept(cfg, lines, st.imem, t.imem, n, j);
    }
    BlanksRemain(cfg, lines, st, t.imem, n);
  }

  lemma BlanksRemain(cfg: Config, lines: seq<Line>, st: Asm, after: seq<Instr>, n: nat)
    requires n < |lines| && Laid(cfg, lines, st, n) && |after| == |st.imem|
    requires forall m :: 0 <= m < |after| && !InSlots(cfg, lines, n, m) ==> after[m] == st.imem[m]
    ensures forall k ::
              0 <= k < |after| && (forall j :: 0 <= j < n + 1 ==> !InSlots(cfg, lines, j, k)) ==> after[k] == BLANK
  {
    hide InSlots, Placed, LabelsTo, Loc;
    forall k | 0 <= k < |after| && (forall j :: 0 <= j < n + 1 ==> !InSlots(cfg, lines, j, k))
      ensures after[k] == BLANK
    {
      assert !InSlots(cfg, lines, n, k);
    }
  }

  lemma NewSlotsBlank(cfg: Config, lines: seq<Line>, st: Asm, n: nat)
    requires n < |lines| && lines[n].Code? && NoOverlap(cfg, lines) && Laid(cfg, lines, st, n)
    requires st.memoff / 4 + Slots(lines[n].src) <= |st.imem|
    ensures forall k :: InSlots(cfg, lines, n, k) ==> st.imem[k] == BLANK
  {
    hide Slots;
  }

  lemma OldSlotsKept(cfg: Config, lines: seq<Line>, before: seq<Instr>, after: seq<Instr>, n: nat, j: nat)
    requires j < n < |lines| && IsCode(lines, j) && lines[n].Code? && NoOverlap(cfg, lines)
    requires Placed(cfg, lines, before, j) && |after| == |before|
    requires forall k :: 0 <= k < |before| && !InSlots(cfg, lines, n, k) ==> after[k] == before[k]
    ensures Placed(cfg, lines, after, j)
  {
    hide Emit, Loc;
    var k := Loc(cfg, lines, j) / 4;
    assert InSlots(cfg, lines, j, k);
    assert Slots(lines[j].src) == 2 ==> InSlots(cfg, lines, j, k + 1);
  }

  lemma {:induction false} ParseLays(cfg: Config, lines: seq<Line>, n: nat)
    requires WellFormedLines(lines) && n <= |lines| && ValidConfig(cfg) && NoOverlap(cfg, lines)
    requires Parse(cfg, lines, n).Ok?
    ensures Laid(cfg, lines, Parse(cfg, lines, n).value, n)
  {
    hide ParseCode, ParseElements, NoOverlap, InSlots, Placed, Slots;
    if n > 0 {
      ParseLays(cfg, lines, n - 1);
      var st, t := Parse(cfg, lines, n - 1).value, Parse(cfg, lines, n).value;
      assert ParseLine(cfg, st, lines[n - 1]) == Parse(cfg, lines, n);
      match lines[n - 1]
      case Code(src) => PlaceCode(cfg, lines, st, n - 1);
      case Elements(size, values) =>
        ElementsKeep(st, size, values, |values|);
        NothingPlaced(cfg, lines, st, t, n - 1);
      case Text => NothingPlaced(cfg, lines, st, t, n - 1);
      case Data => NothingPlaced(cfg, lines, st, t, n - 1);
      case LabelDef(_) => NothingPlaced(cfg, lines, st, t, n - 1);
    }
  }

  lemma NothingPlaced(cfg: Config, lines: seq<Line>, st: Asm, t: Asm, n: nat)
    requires n < |lines| && !lines[n].Code? && Laid(cfg, lines, st, n)
    requires t.imem == st.imem && |t.mem| == |st.mem| && t.memoff == Loc(cfg, lines, n + 1) <= cfg.memSize
    requires t.labels == LabelsTo(cfg, lines, n + 1)
    ensures Laid(cfg, lines, t, n + 1)
  {
    hide Loc, LabelsTo, Placed;
    assert forall k :: !InSlots(cfg, lines, n, k);
  }

  // ----- Second pass: labels -----

  lemma {:induction false} AddrOfAppended(labels: seq<LabelLoc>, l: LabelLoc, name: string)
    ensures LabelAddr(labels + [l], name)
            == if LabelAddr(labels, name).Some? then LabelAddr(labels, name)
               else if l.name == name then Some(l.loc) else None
  {
    if labels == [] {
      assert labels + [l] == [l];
    } else {
      assert (labels + [l])[1..] == labels[1..] + [l];
      AddrOfAppended(labels[1..], l, name);
    }
  }

  /** Looking a label up finds the address of its first definition, before or behind its use. */
  lemma {:induction false} LabelsResolve(cfg: Config, lines: seq<Line>, name: string, n: nat)
    requires n <= |lines|
    ensures LabelAddr(LabelsTo(cfg, lines, n), name)
            == match Find(lines, name, n) case None => None case Some(j) => Some(Loc(cfg, lines, j))
  {
    hide Loc, LabelAddr;
    if n == 0 {
      NoLabels(name);
    } else {
      LabelsResolve(cfg, lines, name, n - 1);
      if lines[n - 1].LabelDef? {
        AddrOfAppended(LabelsTo(cfg, lines, n - 1), LabelLoc(lines[n - 1].name, Loc(cfg, lines, n - 1)), name);
      }
    }
  }

  lemma NoLabels(name: string)
    ensures LabelAddr([], name).None?
  {
  }

  /** The second pass treats every slot on its own. */
  lemma {:induction false} NormalizeSlots(labels: seq<LabelLoc>, imem: seq<Instr>, n: nat)
    requires n <= |imem| && Normalize(labels, imem, n).Ok?
    ensures var m := Normalize(labels, imem, n).value;
            && (forall k :: 0 <= k < n ==> Resolve(labels, k, imem[k]) == Ok(m[k]))
            && (forall k :: n <= k < |imem| ==> m[k] == imem[k])
  {
    hide Resolve;
    if n > 0 { NormalizeSlots(labels, imem, n - 1); }
  }

  // ----- Numbers -----

  lemma NumberOfAddr(a: int)
    requires 0 <= a < 0x8000_0000
    ensures ToNum(Number(a)) == a && Number(a) == ToWord(a)
  {
    hide ToNum, ToWord;
    NumBack(a);
  }

  /** li and la need no carry correction: the second instruction adds the raw low twelve bits. */
  lemma PairRebuilds(w: Word)
    ensures Sum(F.Upper(High20(w)), Low12(w)) == w
  {
  }

  lemma SumZero(w: Word)
    ensures Sum(w, 0) == w
  {
  }

  /** Sign extension of a parsed immediate. */
  lemma SignExtendParsed(n: int)
    requires -0x800 <= n <= 0xfff
    ensures SignExtend12(Number(n)) == Number(Signed12(n))
  {
    hide Byte, Pack, SignExtend12;
    var b := Wrap(n) / 0x100 % 0x100;
    WrapDigits(n);
    NibbleBits(b);
    EndBytes();
    SignExtendPack(Byte(Wrap(n) % 0x100), Byte(b));
  }

  lemma EndBytes()
    ensures Byte(0) == 0 && Byte(255) == 0xff
  {
  }

  /** The bytes of a number below 2^12, and of one that far below 2^32. */
  lemma LowBytes(m: int)
    requires 0 <= m <= 0xfff
    ensures m / 0x100 % 0x100 == m / 0x100 < 16
    ensures m / 0x1_0000 % 0x100 == 0 && m / 0x100_0000 == 0
  {
    DigitsBack(m % 0x100, m / 0x100, 0, 0);
  }

  lemma HighBytes(m: int)
    requires 0 <= m <= 0xfff
    ensures var x := m + 0xffff_f000;
            && x % 0x100 == m % 0x100 && x / 0x100 % 0x100 == m / 0x100 + 240
            && x / 0x1_0000 % 0x100 == 255 && x / 0x100_0000 == 255
  {
    DigitsBack(m % 0x100, m / 0x100 + 240, 255, 255);
  }

  lemma WrapIs(n: int)
    ensures 0 <= n < 0x1_0000_0000 ==> Wrap(n) == n
    ensures -0x1_0000_0000 <= n < 0 ==> Wrap(n) == n + 0x1_0000_0000
  {
  }

  lemma WrapDigits(n: int)
    requires -0x800 <= n <= 0xfff
    ensures var u, v := Wrap(n), Wrap(Signed12(n));
            && u % 0x100 == v % 0x100
            && (if n >= 0 then
                  && u / 0x100 % 0x100 == n / 0x100 && 0 <= n / 0x100 < 16 && (n < 0x800 <==> n / 0x100 < 8)
                  && u / 0x1_0000 % 0x100 == 0 && u / 0x100_0000 == 0
                else
                  u / 0x100 % 0x100 >= 248 && u / 0x1_0000 % 0x100 == 255 && u / 0x100_0000 == 255)
            && (if 0 <= n < 0x800 then v == u
                else
                  && v / 0x100 % 0x100 == (if n < 0 then u / 0x100 % 0x100 else u / 0x100 % 0x100 + 240)
                  && v / 0x1_0000 % 0x100 == 255 && v / 0x100_0000 == 255)
  {
    hide Wrap;
    WrapIs(n);
    WrapIs(Signed12(n));
    if n < 0 {
      HighBytes(n + 0x1000);
    } else {
      LowBytes(n);
      HighBytes(n);
    }
  }

  lemma NibbleNum(b: bv8)
    ensures (b < 16 <==> Num(b) < 16) && (b < 8 <==> Num(b) < 8) && (b >= 248 <==> Num(b) >= 248)
  {
  }

  lemma HighNibble(b: bv8)
    requires b < 16
    ensures Num(b | 0xf0) == Num(b) + 240
  {
  }

  lemma NibbleMask(b: bv8)
    ensures b < 16 ==> (b & 8 != 0 <==> b >= 8)
    ensures b >= 248 ==> b & 8 != 0 && b | 0xf0 == b
  {
  }

  lemma NibbleBits(x: int)
    requires 0 <= x < 16 || 248 <= x < 256
    ensures Byte(x) & 8 != 0 <==> (8 <= x < 16 || 248 <= x)
    ensures 8 <= x < 16 ==> Byte(x) | 0xf0 == Byte(x + 240)
    ensures 248 <= x ==> Byte(x) | 0xf0 == Byte(x)
  {
    hide Num, Byte;
    var b := Byte(x);
    NumOfByte(x);
    NibbleNum(b);
    NibbleMask(b);
    if x < 16 {
      HighNibble(b);
      ByteOfNum(b | 0xf0);
    }
  }

  lemma SignExtendPack(b0: bv8, b1: bv8)
    ensures SignExtend12(Pack(b0, b1, 0, 0)) == if b1 & 8 != 0 then Pack(b0, b1 | 0xf0, 0xff, 0xff)
            else Pack(b0, b1, 0, 0)
    ensures SignExtend12(Pack(b0, b1, 0xff, 0xff)) == if b1 & 8 != 0 then Pack(b0, b1 | 0xf0, 0xff, 0xff)
            else Pack(b0, b1, 0xff, 0xff)
  {
  }

  // ----- Simulation -----

  /** Assembling succeeded, on a program whose instructions do not share slots. */
  ghost predicate Assembled(cfg: Config, lines: seq<Line>, prog: Asm) {
    && WellFormedLines(lines) && ValidConfig(cfg) && NoOverlap(cfg, lines)
    && Assemble(cfg, lines) == Ok(prog)
  }

  ghost predicate InBounds(cfg: Config, lines: seq<Line>) {
    && cfg.memSize < 0x7fff_fff0
    && forall j :: 0 <= j <= |lines| ==> Loc(cfg, lines, j) <= cfg.memSize
  }

  /** The processor state a source state stands for. */
  function CoreOf(cfg: Config, lines: seq<Line>, r: Ref): F.Core
    requires r.line <= |lines| && Loc(cfg, lines, r.line) < 0x8000_0000
  {
    F.Core(Loc(cfg, lines, r.line), r.rf, r.mem)
  }

  /** What assembling gives: every label resolves to its first definition, and the slots of every line
      hold its instruction with the labels filled in. */
  lemma AssembledSlots(cfg: Config, lines: seq<Line>, prog: Asm, j: nat)
    requires Assembled(cfg, lines, prog) && j <= |lines|
    ensures InBounds(cfg, lines) && |prog.mem| == cfg.memSize
    ensures prog.labels == LabelsTo(cfg, lines, |lines|)
    ensures IsCode(lines, j) ==>
              var k, src := Loc(cfg, lines, j) / 4, lines[j].src;
              && k + Slots(src) <= |prog.imem| && Fresh(src).Some?
              && Resolve(prog.labels, k, Fresh(src).value.0) == Ok(prog.imem[k])
              && (Slots(src) == 2 ==> Resolve(prog.labels, k + 1, Fresh(src).value.1) == Ok(prog.imem[k + 1]))
  {
    hide Emit, Resolve, LabelsTo, Loc, Parse, NoOverlap;
    ParseLays(cfg, lines, |lines|);
    var st := Parse(cfg, lines, |lines|).value;
    NormalizeSlots(st.labels, st.imem, |st.imem|);
  }

  /** Goto lands on the address a label was resolved to. */
  lemma GotoLands(cfg: Config, lines: seq<Line>, name: string)
    requires InBounds(cfg, lines) && Find(lines, name, |lines|).Some?
    ensures var a := Loc(cfg, lines, Find(lines, name, |lines|).value);
            && LabelAddr(LabelsTo(cfg, lines, |lines|), name) == Some(a)
            && ToWord(Wrap(a)) == Number(a) && ToNum(Number(a)) == a && 0 <= a < 0x8000_0000
  {
    hide Loc, LabelAddr, Find, LabelsTo;
    LabelsResolve(cfg, lines, name, |lines|);
    NumberOfAddr(Loc(cfg, lines, Find(lines, name, |lines|).value));
  }

  /** The line after an instruction is where the processor goes next. */
  lemma NextLine(cfg: Config, lines: seq<Line>, j: nat)
    requires InBounds(cfg, lines) && IsCode(lines, j)
    ensures Loc(cfg, lines, j + 1) == Loc(cfg, lines, j) + 4 * Slots(lines[j].src) < 0x8000_0000
    ensures Next(Loc(cfg, lines, j)) == Loc(cfg, lines, j) + 4
    ensures ToWord(Next(Loc(cfg, lines, j))) == Number(Loc(cfg, lines, j) + 4)
    ensures Number(Loc(cfg, lines, j)) == ToWord(Loc(cfg, lines, j))
  {
    hide ToWord, ToNum;
    assert Loc(cfg, lines, j + 1) <= cfg.memSize;
    NumberOfAddr(Loc(cfg, lines, j) + 4);
    NumberOfAddr(Loc(cfg, lines, j));
  }

  /** The fields of an instruction that its execution reads. */
  datatype Fields = Fields(op: Op, r1: bv5, r2: bv5, r3: bv5, imm2: Word, imm3: Word)

  function FieldsOf(i: Instr): Fields {
    Fields(i.op, i.a1.reg, i.a2.reg, i.a3.reg, i.a2.imm, i.a3.imm)
  }

  /** The value of a label, if it has one. */
  function LabelNumber(cfg: Config, lines: seq<Line>, name: string): Word {
    var k := Find(lines, name, |lines|);
    if k.None? then 0 else Number(Loc(cfg, lines, k.value))
  }

  /** What the assembler makes of an instruction, labels filled in: the first of its slots. */
  function Expected(cfg: Config, lines: seq<Line>, src: Source): Fields {
    match src
    case Reg3(op, rd, rs1, rs2) => Fields(op, rd, rs1, rs2, 0, 0)
    case RegImm(op, rd, rs1, imm) => Fields(op, rd, rs1, 0, 0, Number(Signed12(imm)))
    case MemRef(op, r, base, imm) => Fields(op, r, base, 0, 0, Number(imm))
    case Branch(op, rs1, rs2, t) => Fields(op, rs1, rs2, 0, 0, LabelNumber(cfg, lines, t))
    case Jump(rd, t) => Fields(Jal, rd, 0, 0, LabelNumber(cfg, lines, t), 0)
    case UpperImm(op, rd, imm) => Fields(op, rd, 0, 0, Number(imm), 0)
    case Halt => Fields(Hcf, 0, 0, 0, 0, 0)
    case Unknown => Fields(Unimpl, 0, 0, 0, 0, 0)
    case Li(rd, value) => Fields(Lui, rd, 0, 0, High20(Number(value)), 0)
    case La(rd, t) => Fields(Lui, rd, 0, 0, High20(LabelNumber(cfg, lines, t)), 0)
    case Ret => Fields(Jalr, 0, 1, 0, 0, 0)
    case J(t) => Fields(Jal, 0, 0, 0, LabelNumber(cfg, lines, t), 0)
    case Mv(rd, rs) => Fields(Addi, rd, rs, 0, 0, 0)
    case Bnez(rs, t) => Fields(Bne, rs, 0, 0, 0, LabelNumber(cfg, lines, t))
    case Beqz(rs, t) => Fields(Beq, rs, 0, 0, 0, LabelNumber(cfg, lines, t))
  }

  function Target(src: Source): string {
    match src
    case Branch(_, _, _, t) => t
    case Jump(_, t) => t
    case La(_, t) => t
    case J(t) => t
    case Bnez(_, t) => t
    case Beqz(_, t) => t
    case _ => ""
  }

  predicate HasTarget(src: Source) {
    src.Branch? || src.Jump? || src.La? || src.J? || src.Bnez? || src.Beqz?
  }

  lemma PlainSlot(cfg: Config, lines: seq<Line>, src: Source)
    requires WellFormed(src) && Fresh(src).Some? && !HasTarget(src)
    ensures var i := Fresh(src).value.0;
            && FieldsOf(i) == Expected(cfg, lines, src)
            && i.a1.kind != Label && i.a2.kind != Label && i.a3.kind != Label
  {
    hide ToWord, SignExtend12, High20, Low12;
    if src.RegImm? { SignExtendParsed(src.imm); }
  }

  lemma AddressSlot(cfg: Config, lines: seq<Line>, k: nat, src: Source, i: Instr)
    requires WellFormed(src) && InBounds(cfg, lines) && Fresh(src).Some? && (src.La?)
    requires Resolve(LabelsTo(cfg, lines, |lines|), k, Fresh(src).value.0) == Ok(i)
    ensures FieldsOf(i) == Expected(cfg, lines, src)
  {
    hide ToWord, High20, Low12, LabelsTo, LabelAddr, Find, Loc, Distance, SignedNum;
    LabelsResolve(cfg, lines, Target(src), |lines|);
  }

  lemma JumpSlot(cfg: Config, lines: seq<Line>, k: nat, src: Source, i: Instr)
    requires WellFormed(src) && InBounds(cfg, lines) && Fresh(src).Some? && (src.Jump? || src.J?)
    requires Resolve(LabelsTo(cfg, lines, |lines|), k, Fresh(src).value.0) == Ok(i)
    ensures FieldsOf(i) == Expected(cfg, lines, src)
  {
    hide ToWord, High20, Low12, LabelsTo, LabelAddr, Find, Loc, Distance, SignedNum;
    LabelsResolve(cfg, lines, Target(src), |lines|);
  }

  lemma BranchSlot(cfg: Config, lines: seq<Line>, k: nat, src: Source, i: Instr)
    requires WellFormed(src) && InBounds(cfg, lines) && Fresh(src).Some? && (src.Branch? || src.Bnez? || src.Beqz?)
    requires Resolve(LabelsTo(cfg, lines, |lines|), k, Fresh(src).value.0) == Ok(i)
    ensures FieldsOf(i) == Expected(cfg, lines, src)
  {
    hide ToWord, High20, Low12, LabelsTo, LabelAddr, Find, Loc, Distance, SignedNum;
    LabelsResolve(cfg, lines, Target(src), |lines|);
  }

  lemma LabelledSlot(cfg: Config, lines: seq<Line>, k: nat, src: Source, i: Instr)
    requires WellFormed(src) && InBounds(cfg, lines) && Fresh(src).Some? && HasTarget(src)
    requires Resolve(LabelsTo(cfg, lines, |lines|), k, Fresh(src).value.0) == Ok(i)
    ensures FieldsOf(i) == Expected(cfg, lines, src)
  {
    hide WellFormed, Fresh, Resolve, LabelsTo, Expected, Loc, FieldsOf;
    if src.La? {
      AddressSlot(cfg, lines, k, src, i);
    } else if src.Jump? || src.J? {
      JumpSlot(cfg, lines, k, src, i);
    } else {
      BranchSlot(cfg, lines, k, src, i);
    }
  }

  lemma NothingToBind(labels: seq<LabelLoc>, k: nat, i: Instr)
    requires i.a1.kind != Label && i.a2.kind != Label && i.a3.kind != Label
    ensures Resolve(labels, k, i) == Ok(i)
  {
  }

  /** The two passes together: a slot holds what is expected of its line. */
  lemma SlotIsExpected(cfg: Config, lines: seq<Line>, k: nat, src: Source, i: Instr)
    requires WellFormed(src) && InBounds(cfg, lines) && Fresh(src).Some?
    requires Resolve(LabelsTo(cfg, lines, |lines|), k, Fresh(src).value.0) == Ok(i)
    ensures FieldsOf(i) == Expected(cfg, lines, src)
  {
    hide Fresh, Resolve, LabelsTo, Expected, WellFormed, Loc;
    if HasTarget(src) {
      LabelledSlot(cfg, lines, k, src, i);
    } else {
      PlainSlot(cfg, lines, src);
      NothingToBind(LabelsTo(cfg, lines, |lines|), k, Fresh(src).value.0);
    }
  }

  /** The second slot of li and la. */
  lemma SecondIsExpected(cfg: Config, lines: seq<Line>, k: nat, src: Source, i: Instr)
    requires InBounds(cfg, lines) && Fresh(src).Some? && Slots(src) == 2
    requires Resolve(LabelsTo(cfg, lines, |lines|), k, Fresh(src).value.1) == Ok(i)
    ensures FieldsOf(i) == Fields(Addi, src.rd, src.rd, 0, 0,
                                  Low12(if src.Li? then Number(src.value) else LabelNumber(cfg, lines, src.target)))
  {
    hide ToWord, SignExtend12, High20, Low12, LabelsTo, LabelAddr, Find, Loc, Distance, SignedNum;
    LabelsResolve(cfg, lines, Target(src), |lines|);
  }

  /** What the instruction in a slot does in one step is what its line does. */
  ghost predicate Simulates(cfg: Config, lines: seq<Line>, i: Instr, r: Ref, src: Source)
    requires r.line < |lines| && lines[r.line] == Code(src) && InBounds(cfg, lines)
  {
    var q := StepCode(cfg, lines, r, src);
    q.Some? && q.value.line <= |lines| ==> F.Process(i, CoreOf(cfg, lines, r)) == Some(CoreOf(cfg, lines, q.value))
  }

  lemma SimArith(cfg: Config, lines: seq<Line>, i: Instr, r: Ref, src: Source)
    requires r.line < |lines| && lines[r.line] == Code(src) && InBounds(cfg, lines) && WellFormed(src)
    requires src.Reg3? || src.RegImm? || src.Mv?
    requires FieldsOf(i) == Expected(cfg, lines, src)
    ensures Simulates(cfg, lines, i, r, src)
  {
    hide F.Process, F.Arith, F.Put, Sum, F.Upper, ReadReg, ToNum, ToWord, Next, Loc, Find, Number, LineAt;
    NextLine(cfg, lines, r.line);
    F.ArithGoes(i, CoreOf(cfg, lines, r));
    if src.Mv? { MoveAdds(ReadReg(r.rf, src.rs)); }
  }

  lemma SimUpper(cfg: Config, lines: seq<Line>, i: Instr, r: Ref, src: Source)
    requires r.line < |lines| && lines[r.line] == Code(src) && InBounds(cfg, lines) && WellFormed(src)
    requires src.UpperImm?
    requires FieldsOf(i) == Expected(cfg, lines, src)
    ensures Simulates(cfg, lines, i, r, src)
  {
    hide F.Process, F.Arith, F.Put, Sum, F.Upper, ReadReg, ToNum, ToWord, Next, Loc, Find, Number, LineAt;
    NextLine(cfg, lines, r.line);
    F.UpperGoes(i, CoreOf(cfg, lines, r));
  }

  lemma SimNothing(cfg: Config, lines: seq<Line>, i: Instr, r: Ref, src: Source)
    requires r.line < |lines| && lines[r.line] == Code(src) && InBounds(cfg, lines) && WellFormed(src)
    requires src.Halt? || src.Unknown?
    requires FieldsOf(i) == Expected(cfg, lines, src)
    ensures Simulates(cfg, lines, i, r, src)
  {
    hide F.Process, StepMem, F.Arith, F.Put, Sum, F.Upper, ReadReg, ToNum, ToWord, Next, Loc, Find, Number, LineAt;
    NextLine(cfg, lines, r.line);
    F.NothingToDo(i, CoreOf(cfg, lines, r));
  }

  lemma MoveAdds(w: Word)
    ensures F.Arith(Addi, w, 0) == Some(w)
  {
  }


  lemma SimBranch(cfg: Config, lines: seq<Line>, i: Instr, r: Ref, src: Source)
    requires r.line < |lines| && lines[r.line] == Code(src) && InBounds(cfg, lines) && WellFormed(src)
    requires src.Branch? || src.Bnez? || src.Beqz?
    requires FieldsOf(i) == Expected(cfg, lines, src)
    ensures Simulates(cfg, lines, i, r, src)
  {
    hide F.Process, F.Arith, F.Put, Sum, F.Upper, ReadReg, ToNum, ToWord, Next, Loc, Find, Number, LineAt,
      SignedLess, StepMem;
    NextLine(cfg, lines, r.line);
    F.BranchGoes(i, CoreOf(cfg, lines, r));
    if Find(lines, Target(src), |lines|).Some? { GotoLands(cfg, lines, Target(src)); }
  }

  lemma SimJump(cfg: Config, lines: seq<Line>, i: Instr, r: Ref, src: Source)
    requires r.line < |lines| && lines[r.line] == Code(src) && InBounds(cfg, lines) && WellFormed(src)
    requires src.Jump? || src.J?
    requires FieldsOf(i) == Expected(cfg, lines, src)
    ensures Simulates(cfg, lines, i, r, src)
  {
    hide F.Process, F.Arith, F.Put, Sum, F.Upper, ReadReg, ToNum, ToWord, Next, Loc, Find, Number, LineAt,
      SignedLess, StepMem;
    NextLine(cfg, lines, r.line);
    F.JalGoes(i, CoreOf(cfg, lines, r));
    if Find(lines, Target(src), |lines|).Some? { GotoLands(cfg, lines, Target(src)); }
  }

  lemma SimLoad(cfg: Config, lines: seq<Line>, i: Instr, r: Ref, src: Source)
    requires r.line < |lines| && lines[r.line] == Code(src) && InBounds(cfg, lines) && WellFormed(src)
    requires src.MemRef? && IsLoad(src.op)
    requires FieldsOf(i) == Expected(cfg, lines, src)
    ensures Simulates(cfg, lines, i, r, src)
  {
    hide F.Process, F.Arith, Sum, F.Upper, F.Put, ReadReg, ToNum, ToWord, Next, Loc, Find, Number, M.Load,
      M.Store, LineAt;
    NextLine(cfg, lines, r.line);
    F.LoadGoes(i, CoreOf(cfg, lines, r));
  }


  lemma SimStore(cfg: Config, lines: seq<Line>, i: Instr, r: Ref, src: Source)
    requires r.line < |lines| && lines[r.line] == Code(src) && InBounds(cfg, lines) && WellFormed(src)
    requires src.MemRef? && IsStore(src.op)
    requires FieldsOf(i) == Expected(cfg, lines, src)
    ensures Simulates(cfg, lines, i, r, src)
  {
    hide F.Process, F.Arith, Sum, F.Upper, F.Put, ReadReg, ToNum, ToWord, Next, Loc, Find, Number, M.Load,
      M.Store, LineAt;
    NextLine(cfg, lines, r.line);
    F.StoreGoes(i, CoreOf(cfg, lines, r));
  }

  lemma SimJalr(cfg: Config, lines: seq<Line>, i: Instr, r: Ref, src: Source)
    requires r.line < |lines| && lines[r.line] == Code(src) && InBounds(cfg, lines) && WellFormed(src)
    requires src.MemRef? && !IsLoad(src.op) && !IsStore(src.op)
    requires FieldsOf(i) == Expected(cfg, lines, src)
    ensures Simulates(cfg, lines, i, r, src)
  {
    hide F.Process, F.Arith, Sum, F.Upper, F.Put, ReadReg, ToNum, ToWord, Next, Loc, Find, Number, M.Load, M.Store;
    NextLine(cfg, lines, r.line);
    F.JalrGoes(i, CoreOf(cfg, lines, r));
  }

  lemma SimRet(cfg: Config, lines: seq<Line>, i: Instr, r: Ref, src: Source)
    requires r.line < |lines| && lines[r.line] == Code(src) && InBounds(cfg, lines) && src.Ret?
    requires FieldsOf(i) == Expected(cfg, lines, src)
    ensures Simulates(cfg, lines, i, r, src)
  {
    hide F.Process, F.Arith, Sum, F.Upper, F.Put, ReadReg, ToNum, ToWord, Next, Loc, Find, Number, M.Load, M.Store;
    NextLine(cfg, lines, r.line);
    F.JalrGoes(i, CoreOf(cfg, lines, r));
    LinkKeepsBase(r.rf, Number(Loc(cfg, lines, r.line) + 4));
  }

  /** ret leaves its link in slot 0, which is not the register it returns through. */
  lemma LinkKeepsBase(rf: Regs, link: Word)
    ensures Sum(ReadReg(F.Put(rf, 0, link), 1), 0) == ReadReg(rf, 1)
  {
    SumZero(ReadReg(rf, 1));
  }

  lemma SimOne(cfg: Config, lines: seq<Line>, i: Instr, r: Ref, src: Source)
    requires r.line < |lines| && lines[r.line] == Code(src) && InBounds(cfg, lines) && WellFormed(src)
    requires Slots(src) == 1 && FieldsOf(i) == Expected(cfg, lines, src)
    ensures Simulates(cfg, lines, i, r, src)
  {
    hide Expected, Simulates, WellFormed, Loc;
    if src.Ret? {
      SimRet(cfg, lines, i, r, src);
    } else if src.MemRef? {
      if IsLoad(src.op) {
        SimLoad(cfg, lines, i, r, src);
      } else if IsStore(src.op) {
        SimStore(cfg, lines, i, r, src);
      } else {
        SimJalr(cfg, lines, i, r, src);
      }
    } else if HasTarget(src) {
      if src.Jump? || src.J? { SimJump(cfg, lines, i, r, src); } else { SimBranch(cfg, lines, i, r, src); }
    } else if src.Reg3? || src.RegImm? || src.Mv? {
      SimArith(cfg, lines, i, r, src);
    } else if src.UpperImm? {
      SimUpper(cfg, lines, i, r, src);
    } else {
      SimNothing(cfg, lines, i, r, src);
    }
  }

  lemma LuiLoads(c: F.Core, i: Instr, rd: bv5, w: Word)
    requires c.pc < 0x8000_0000 && FieldsOf(i) == Fields(Lui, rd, 0, 0, w, 0)
    ensures F.Process(i, c) == Some(F.Core(c.pc + 4, F.Put(c.rf, rd, F.Upper(w)), c.mem))
  {
    hide Sum, F.Upper, F.Put, F.Arith, ReadReg, ToWord, ToNum;
  }

  lemma AddiAdds(c: F.Core, i: Instr, rd: bv5, w: Word)
    requires c.pc < 0x8000_0000 && FieldsOf(i) == Fields(Addi, rd, rd, 0, 0, w)
    ensures F.Process(i, c) == Some(F.Core(c.pc + 4, F.Put(c.rf, rd, Sum(ReadReg(c.rf, rd), w)), c.mem))
  {
    hide Sum, F.Upper, F.Put, ReadReg, ToWord, ToNum, F.Shift, SignedLess;
  }

  /** The pair of li and la, executed: LUI, then ADDI on the same register. */
  lemma PairLoads(c: F.Core, i: Instr, i2: Instr, rd: bv5, w: Word)
    requires c.pc < 0x7fff_fff0
    requires FieldsOf(i) == Fields(Lui, rd, 0, 0, High20(w), 0)
    requires FieldsOf(i2) == Fields(Addi, rd, rd, 0, 0, Low12(w))
    ensures F.Process(i, c) == Some(F.Core(c.pc + 4, F.Put(c.rf, rd, F.Upper(High20(w))), c.mem))
    ensures F.Process(i2, F.Core(c.pc + 4, F.Put(c.rf, rd, F.Upper(High20(w))), c.mem))
            == Some(F.Core(c.pc + 8, F.Put(c.rf, rd, w), c.mem))
  {
    hide F.Process, F.Put, ReadReg, Sum, F.Upper, High20, Low12;
    var d := F.Core(c.pc + 4, F.Put(c.rf, rd, F.Upper(High20(w))), c.mem);
    LuiLoads(c, i, rd, High20(w));
    AddiAdds(d, i2, rd, Low12(w));
    PairRebuilds(w);
    PutTwice(c.rf, rd, F.Upper(High20(w)), w);
  }

  lemma PutTwice(rf: Regs, rd: bv5, v: Word, w: Word)
    ensures ReadReg(F.Put(rf, rd, v), rd) == v
    ensures F.Put(F.Put(rf, rd, v), rd, w) == F.Put(rf, rd, w)
  {
  }

  /** A value within reach of li is the word it names, and la's is the label's address. */
  function PairValue(cfg: Config, lines: seq<Line>, src: Source): Word
    requires Slots(src) == 2
  {
    if src.Li? then Number(src.value) else LabelNumber(cfg, lines, src.target)
  }

  lemma PairStep(cfg: Config, lines: seq<Line>, r: Ref, src: Source)
    requires r.line < |lines| && lines[r.line] == Code(src) && InBounds(cfg, lines) && Slots(src) == 2
    requires StepCode(cfg, lines, r, src).Some?
    ensures Loc(cfg, lines, r.line + 1) == Loc(cfg, lines, r.line) + 8 < 0x8000_0000
    ensures StepCode(cfg, lines, r, src)
            == Some(Ref(r.line + 1, F.Put(r.rf, src.rd, PairValue(cfg, lines, src)), r.mem))
    ensures Expected(cfg, lines, src) == Fields(Lui, src.rd, 0, 0, High20(PairValue(cfg, lines, src)), 0)
  {
    hide F.Put, ToWord, Find, High20;
    assert Loc(cfg, lines, r.line + 1) <= cfg.memSize;
  }

  lemma OneStep(im: seq<Instr>, c: F.Core)
    ensures F.CoreAt(im, c, 0) == Some(c) && F.CoreAt(im, c, 1) == F.StepCore(im, c)
  {
    hide F.StepCore;
    assert F.CoreAt(im, c, 0) == Some(c);
  }

  lemma TwoSteps(im: seq<Instr>, c: F.Core, d: F.Core)
    requires F.StepCore(im, c) == Some(d)
    ensures F.CoreAt(im, c, 2) == F.StepCore(im, d)
  {
    hide F.StepCore;
    OneStep(im, c);
  }

  /** One line of the source machine is so many steps of the processor, from the same state to the same
      state. */
  lemma LineSimulates(cfg: Config, lines: seq<Line>, prog: Asm, r: Ref)
    requires Assembled(cfg, lines, prog) && r.line < |lines| && InBounds(cfg, lines)
    requires Step(cfg, lines, r).Some? && Step(cfg, lines, r).value.line <= |lines|
    ensures F.CoreAt(prog.imem, CoreOf(cfg, lines, r), Cost(lines, r))
            == Some(CoreOf(cfg, lines, Step(cfg, lines, r).value))
  {
    hide Loc, Expected, Fresh, Resolve, F.Process, F.Put, StepCode, LabelsTo, Assemble, NoOverlap, ToWord,
      ToNum, PairValue;
    var c := CoreOf(cfg, lines, r);
    OneStep(prog.imem, c);
    match lines[r.line]
    case LabelDef(_) => LabelStays(cfg, lines, r.line);
    case Code(src) =>
      AssembledSlots(cfg, lines, prog, r.line);
      var k := Loc(cfg, lines, r.line) / 4;
      SlotIsExpected(cfg, lines, k, src, prog.imem[k]);
      if Slots(src) == 1 {
        SimOne(cfg, lines, prog.imem[k], r, src);
      } else {
        SecondIsExpected(cfg, lines, k + 1, src, prog.imem[k + 1]);
        PairStep(cfg, lines, r, src);
        PairIsValue(cfg, lines, src);
        var w := PairValue(cfg, lines, src);
        PairLoads(c, prog.imem[k], prog.imem[k + 1], src.rd, w);
        TwoSteps(prog.imem, c, F.Core(c.pc + 4, F.Put(c.rf, src.rd, F.Upper(High20(w))), c.mem));
      }
  }

  lemma PairIsValue(cfg: Config, lines: seq<Line>, src: Source)
    requires Slots(src) == 2
    ensures PairValue(cfg, lines, src) == if src.Li? then Number(src.value) else LabelNumber(cfg, lines, src.target)
  {
  }

  lemma LabelStays(cfg: Config, lines: seq<Line>, j: nat)
    requires j < |lines| && lines[j].LabelDef?
    ensures Loc(cfg, lines, j + 1) == Loc(cfg, lines, j)
  {
  }

  // ----- Whole runs -----

  lemma {:induction false} RefStaysInside(cfg: Config, lines: seq<Line>, r: Ref, n: nat)
    requires r.line <= |lines| && RefAt(cfg, lines, r, n).Some?
    ensures RefAt(cfg, lines, r, n).value.line <= |lines|
  {
    hide Step;
    if n > 0 {
      RefStaysInside(cfg, lines, r, n - 1);
      StepsInside(cfg, lines, RefAt(cfg, lines, r, n - 1).value);
    }
  }

  /** Assembling preserves meaning. Whenever n lines of the source machine have a meaning, the processor
      reaches the same registers and memory, at the address of the same line, in exactly CostTo steps;
      forward references, li, la and the other shorthands included. */
  lemma {:induction false} AssemblingPreservesMeaning(cfg: Config, lines: seq<Line>, prog: Asm, r: Ref, n: nat)
    requires Assembled(cfg, lines, prog) && InBounds(cfg, lines) && r.line <= |lines|
    requires RefAt(cfg, lines, r, n).Some?
    ensures RefAt(cfg, lines, r, n).value.line <= |lines|
    ensures F.CoreAt(prog.imem, CoreOf(cfg, lines, r), CostTo(cfg, lines, r, n))
            == Some(CoreOf(cfg, lines, RefAt(cfg, lines, r, n).value))
  {
    hide Step, Loc, Assembled, F.StepCore, Cost;
    RefStaysInside(cfg, lines, r, n);
    if n == 0 {
      OneStep(prog.imem, CoreOf(cfg, lines, r));
    } else {
      var q := RefAt(cfg, lines, r, n - 1).value;
      RefStaysInside(cfg, lines, r, n - 1);
      AssemblingPreservesMeaning(cfg, lines, prog, r, n - 1);
      StepsInside(cfg, lines, q);
      LineSimulates(cfg, lines, prog, q);
      F.RunSplits(prog.imem, CoreOf(cfg, lines, r), CostTo(cfg, lines, r, n - 1), Cost(lines, q));
    }
  }

  lemma StepsInside(cfg: Config, lines: seq<Line>, r: Ref)
    requires Step(cfg, lines, r).Some?
    ensures r.line < |lines| && Step(cfg, lines, r).value.line <= |lines|
  {
    hide F.Arith, F.Put, F.Holds, Sum, F.Upper, ToNum, ToWord, Loc, M.Load, M.Store;
  }

  /** The processor is at HCF exactly when the source machine is at its halt line. */
  lemma HaltsTogether(cfg: Config, lines: seq<Line>, prog: Asm, r: Ref)
    requires Assembled(cfg, lines, prog) && InBounds(cfg, lines) && IsCode(lines, r.line)
    ensures F.AtHcf(prog.imem, CoreOf(cfg, lines, r)) <==> lines[r.line].src.Halt?
  {
    hide Loc, Fresh, Resolve, LabelsTo, Assemble, NoOverlap, ToWord, High20, LabelNumber;
    AssembledSlots(cfg, lines, prog, r.line);
    var k := Loc(cfg, lines, r.line) / 4;
    SlotIsExpected(cfg, lines, k, lines[r.line].src, prog.imem[k]);
  }
}
