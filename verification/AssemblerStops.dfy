/** The other direction of the assembler's correctness: where the source machine has no step, and what the
    processor running the assembled program does there. */
module AssemblerStops {
  import opened Words
  import opened Numbers
  import opened DataStruct
  import opened Assembler
  import opened SourceMachine
  import opened AssemblerProof
  import F = FunctionalCpu
  import M = ByteMemory

  /** The operation of a line has no meaning: a shift by 32 or more, or an access outside the memory. */
  predicate Meaningless(r: Ref, src: Source) {
    match src
    case Reg3(op, _, rs1, rs2) => F.Arith(op, ReadReg(r.rf, rs1), ReadReg(r.rf, rs2)).None?
    case RegImm(op, _, rs1, imm) => F.Arith(op, ReadReg(r.rf, rs1), Number(Signed12(imm))).None?
    case MemRef(op, reg, base, imm) =>
      var a := ToNum(Sum(ReadReg(r.rf, base), Number(imm)));
      (IsLoad(op) && M.Load(op, r.mem, a).None?) || (IsStore(op) && M.Store(op, r.mem, a, ReadReg(r.rf, reg)).None?)
    case _ => false
  }

  predicate JumpsByRegister(src: Source) { src.Ret? || (src.MemRef? && src.op == Jalr) }

  /** Where a jump through a register goes. */
  function RegisterTarget(cfg: Config, lines: seq<Line>, r: Ref, src: Source): Addr
    requires r.line < |lines| && JumpsByRegister(src)
  {
    if src.Ret? then ToNum(ReadReg(r.rf, 1))
    else
      var rf := F.Put(r.rf, src.r, Number(Loc(cfg, lines, r.line + 1)));
      ToNum(Sum(ReadReg(rf, src.base), Number(src.imm)))
  }

  /** No line has an instruction at an address. */
  ghost predicate NoLineAt(cfg: Config, lines: seq<Line>, a: int) {
    forall j :: IsCode(lines, j) ==> Loc(cfg, lines, j) != a
  }

  lemma {:induction false} LineAtNone(cfg: Config, lines: seq<Line>, a: int, j: nat)
    requires j <= |lines|
    ensures LineAt(cfg, lines, a, j).None? <==> forall k :: j <= k && IsCode(lines, k) ==> Loc(cfg, lines, k) != a
    decreases |lines| - j
  {
    hide Loc;
    if j < |lines| { LineAtNone(cfg, lines, a, j + 1); }
    if LineAt(cfg, lines, a, j).Some? { assert IsCode(lines, LineAt(cfg, lines, a, j).value); }
  }

  // ----- The source machine -----

  /** Every label an assembled line uses is defined. */
  lemma TargetDefined(cfg: Config, lines: seq<Line>, prog: Asm, j: nat)
    requires Assembled(cfg, lines, prog) && IsCode(lines, j) && HasTarget(lines[j].src)
    ensures Find(lines, Target(lines[j].src), |lines|).Some?
  {
    hide Loc, Assemble, NoOverlap, LabelAddr, Find, Emit, Resolve;
    AssembledSlots(cfg, lines, prog, j);
    BoundTarget(prog.labels, Loc(cfg, lines, j) / 4, lines[j].src);
    LabelsResolve(cfg, lines, Target(lines[j].src), |lines|);
  }

  lemma BoundTarget(labels: seq<LabelLoc>, k: nat, src: Source)
    requires WellFormed(src) && HasTarget(src) && Fresh(src).Some? && Resolve(labels, k, Fresh(src).value.0).Ok?
    ensures LabelAddr(labels, Target(src)).Some?
  {
    hide LabelAddr, ToWord, Distance, SignedNum, High20, Low12;
  }

  /** A line of an assembled program has no step exactly when its operation has no meaning, or it jumps
      through a register to where there is no instruction. */
  lemma SourceStopsIff(cfg: Config, lines: seq<Line>, prog: Asm, r: Ref)
    requires Assembled(cfg, lines, prog) && IsCode(lines, r.line)
    ensures var src := lines[r.line].src;
            Step(cfg, lines, r).None?
            <==> Meaningless(r, src)
                 || (JumpsByRegister(src) && NoLineAt(cfg, lines, RegisterTarget(cfg, lines, r, src)))
  {
    hide Loc, Assemble, NoOverlap, Find, LineAt, F.Arith, F.Put, F.Holds, Sum, F.Upper, ReadReg, ToNum, Number,
      M.Load, M.Store, Signed12;
    var src := lines[r.line].src;
    if HasTarget(src) { TargetDefined(cfg, lines, prog, r.line); }
    if JumpsByRegister(src) { LineAtNone(cfg, lines, RegisterTarget(cfg, lines, r, src), 0); }
    FormOf(cfg, lines, prog, r.line);
  }

  lemma FormOf(cfg: Config, lines: seq<Line>, prog: Asm, j: nat)
    requires Assembled(cfg, lines, prog) && IsCode(lines, j)
    ensures WellFormed(lines[j].src)
  {
    hide Assemble, NoOverlap, WellFormed;
    assert WellFormedLine(lines[j]);
  }

  // ----- The processor at the same place -----

  /** The instruction in the first slot of a line. */
  function FirstSlot(cfg: Config, lines: seq<Line>, prog: Asm, j: nat): Instr
    requires IsCode(lines, j) && Loc(cfg, lines, j) / 4 < |prog.imem|
  {
    prog.imem[Loc(cfg, lines, j) / 4]
  }

  lemma SlotOfLine(cfg: Config, lines: seq<Line>, prog: Asm, r: Ref)
    requires Assembled(cfg, lines, prog) && IsCode(lines, r.line)
    ensures InBounds(cfg, lines) && Loc(cfg, lines, r.line) / 4 < |prog.imem|
    ensures FieldsOf(FirstSlot(cfg, lines, prog, r.line)) == Expected(cfg, lines, lines[r.line].src)
    ensures F.StepCore(prog.imem, CoreOf(cfg, lines, r))
            == F.Process(FirstSlot(cfg, lines, prog, r.line), CoreOf(cfg, lines, r))
  {
    hide Loc, Assemble, NoOverlap, Expected, Fresh, Resolve, LabelsTo, F.Process;
    AssembledSlots(cfg, lines, prog, r.line);
    FormOf(cfg, lines, prog, r.line);
    SlotIsExpected(cfg, lines, Loc(cfg, lines, r.line) / 4, lines[r.line].src, prog.imem[Loc(cfg, lines, r.line) / 4]);
  }

  predicate Computes(src: Source) { src.Reg3? || src.RegImm? || (src.MemRef? && IsLoad(src.op)) }
  predicate Stores(src: Source) { src.MemRef? && IsStore(src.op) }

  /** What a line writes its processor instruction writes. */
  lemma SameWritten(cfg: Config, lines: seq<Line>, i: Instr, r: Ref, src: Source)
    requires r.line < |lines| && lines[r.line] == Code(src) && InBounds(cfg, lines) && WellFormed(src)
    requires FieldsOf(i) == Expected(cfg, lines, src)
    requires Computes(src)
    ensures F.WritesReg(i.op) && (F.Written(i, CoreOf(cfg, lines, r)).None? <==> Meaningless(r, src))
  {
    hide F.Arith, Sum, F.Upper, ReadReg, ToNum, ToWord, Next, Loc, Number, M.Load, M.Store;
  }


  lemma AlwaysSteps(i: Instr, c: F.Core)
    requires !IsRegOp(i.op) && !IsImmOp(i.op) && !IsLoad(i.op) && !IsStore(i.op)
    ensures F.Process(i, c).Some?
  {
    hide ReadReg, ToNum, ToWord, Next, Sum, F.Holds, F.Put, F.Upper;
  }

  lemma MoveSteps(i: Instr, c: F.Core)
    requires i.op == Addi
    ensures F.Process(i, c).Some?
  {
    hide ReadReg, ToNum, ToWord, Next, Sum, F.Holds, F.Put, F.Upper;
  }

  lemma StoreStops(cfg: Config, lines: seq<Line>, i: Instr, r: Ref, src: Source)
    requires r.line < |lines| && lines[r.line] == Code(src) && InBounds(cfg, lines)
    requires FieldsOf(i) == Expected(cfg, lines, src) && Stores(src)
    ensures F.Process(i, CoreOf(cfg, lines, r)).None? <==> Meaningless(r, src)
  {
    hide F.Process, Loc, M.Load, M.Store, ToNum, ToWord, ReadReg, Sum, Number;
    F.StoreGoes(i, CoreOf(cfg, lines, r));
  }

  /** All other lines have a meaning, and their instructions a step. */
  lemma OtherSteps(cfg: Config, lines: seq<Line>, i: Instr, r: Ref, src: Source)
    requires r.line < |lines| && lines[r.line] == Code(src) && InBounds(cfg, lines) && WellFormed(src)
    requires FieldsOf(i) == Expected(cfg, lines, src) && !Computes(src) && !Stores(src)
    ensures F.Process(i, CoreOf(cfg, lines, r)).Some? && !Meaningless(r, src)
  {
    hide F.Process, Loc, ToNum, ToWord, ReadReg, Sum, Number, LabelNumber, High20;
    if src.Mv? { MoveSteps(i, CoreOf(cfg, lines, r)); } else { AlwaysSteps(i, CoreOf(cfg, lines, r)); }
  }

  /** The processor has no step at a line exactly when the line's operation has no meaning. */
  lemma ProcessorStopsIff(cfg: Config, lines: seq<Line>, prog: Asm, r: Ref)
    requires Assembled(cfg, lines, prog) && IsCode(lines, r.line)
    ensures InBounds(cfg, lines)
    ensures F.StepCore(prog.imem, CoreOf(cfg, lines, r)).None? <==> Meaningless(r, lines[r.line].src)
  {
    hide Assembled, Loc, FirstSlot, F.Process, F.StepCore, F.Written, Expected, Meaningless, WellFormed, FieldsOf;
    var src := lines[r.line].src;
    SlotOfLine(cfg, lines, prog, r);
    FormOf(cfg, lines, prog, r.line);
    var i, c := FirstSlot(cfg, lines, prog, r.line), CoreOf(cfg, lines, r);
    if Computes(src) {
      SameWritten(cfg, lines, i, r, src);
      F.WritesIt(i, c);
    } else if Stores(src) {
      StoreStops(cfg, lines, i, r, src);
    } else {
      OtherSteps(cfg, lines, i, r, src);
    }
  }

  /** A jump through a register takes the processor where it takes the source machine. */
  lemma RegisterJumpGoes(cfg: Config, lines: seq<Line>, prog: Asm, r: Ref)
    requires Assembled(cfg, lines, prog) && IsCode(lines, r.line) && JumpsByRegister(lines[r.line].src)
    ensures InBounds(cfg, lines)
    ensures var d := F.StepCore(prog.imem, CoreOf(cfg, lines, r));
            d.Some? && d.value.pc == RegisterTarget(cfg, lines, r, lines[r.line].src)
  {
    hide Assembled, Loc, FirstSlot, F.Process, F.StepCore, ToNum, ToWord, ReadReg, Sum, Number, F.Put, Next;
    var src := lines[r.line].src;
    SlotOfLine(cfg, lines, prog, r);
    NextLine(cfg, lines, r.line);
    F.JalrGoes(FirstSlot(cfg, lines, prog, r.line), CoreOf(cfg, lines, r));
    LinkKeepsBase(r.rf, Number(Loc(cfg, lines, r.line) + 4));
  }

  /** The line has no step here, the processor none either, or one through a register to where no line is. */
  ghost predicate StopsHere(cfg: Config, lines: seq<Line>, prog: Asm, r: Ref)
    requires InBounds(cfg, lines) && IsCode(lines, r.line)
  {
    var d := F.StepCore(prog.imem, CoreOf(cfg, lines, r));
    d.None? || (JumpsByRegister(lines[r.line].src) && NoLineAt(cfg, lines, d.value.pc))
  }

  /** Line and processor, exactly. At an instruction of an assembled program the source machine has no step
      if and only if the processor has none, or has one that leads through a register to an address where no
      line has an instruction: a place the source machine has no name for. */
  lemma LineStopsIff(cfg: Config, lines: seq<Line>, prog: Asm, r: Ref)
    requires Assembled(cfg, lines, prog) && IsCode(lines, r.line)
    ensures InBounds(cfg, lines)
    ensures Step(cfg, lines, r).None? <==> StopsHere(cfg, lines, prog, r)
  {
    hide Step, Assembled, Loc, F.StepCore, Meaningless, NoLineAt, JumpsByRegister;
    SourceStopsIff(cfg, lines, prog, r);
    ProcessorStopsIff(cfg, lines, prog, r);
    if JumpsByRegister(lines[r.line].src) { RegisterJumpGoes(cfg, lines, prog, r); }
  }

  // ----- Running off the instructions -----

  /** A slot no line lays an instruction in stays blank through both passes. */
  lemma UnusedSlot(cfg: Config, lines: seq<Line>, prog: Asm, k: nat)
    requires Assembled(cfg, lines, prog) && k < |prog.imem| && forall j :: !InSlots(cfg, lines, j, k)
    ensures prog.imem[k] == BLANK
  {
    hide Loc, Parse, NoOverlap, Resolve, InSlots, Placed, LabelsTo;
    ParseLays(cfg, lines, |lines|);
    var st := Parse(cfg, lines, |lines|).value;
    NormalizeSlots(st.labels, st.imem, |st.imem|);
    BlankStays(st.labels, k);
  }

  lemma BlankStays(labels: seq<LabelLoc>, k: nat)
    ensures Resolve(labels, k, BLANK) == Ok(BLANK)
  {
  }

  lemma BehindSection(cfg: Config, lines: seq<Line>, a: nat, b: nat, j: int)
    requires OneSection(lines, a, b)
    ensures !InSlots(cfg, lines, j, Loc(cfg, lines, b) / 4)
  {
    hide Loc, Slots;
    if IsCode(lines, j) {
      LocGrows(cfg, lines, a, b, j, b);
      QuotientsApart(Loc(cfg, lines, j), Loc(cfg, lines, b), Slots(lines[j].src));
    }
  }

  /** Running off the end of the section: the source machine stops, but the processor does not. It has
      nothing there to fetch, or steps over a blank slot without changing anything but its counter. */
  lemma RunsOffEnd(cfg: Config, lines: seq<Line>, prog: Asm, a: nat, b: nat, r: Ref)
    requires Assembled(cfg, lines, prog) && OneSection(lines, a, b) && r.line == b
    requires b == |lines| || lines[b].Text? || lines[b].Data? || lines[b].Elements?
    ensures InBounds(cfg, lines) && Step(cfg, lines, r).None?
    ensures var c := CoreOf(cfg, lines, r);
            F.StepCore(prog.imem, c) == if c.pc / 4 < |prog.imem| then Some(c.(pc := Next(c.pc))) else None
  {
    hide Loc, Assembled, F.Process, Next, InSlots;
    AssembledSlots(cfg, lines, prog, 0);
    var c := CoreOf(cfg, lines, r);
    forall j ensures !InSlots(cfg, lines, j, c.pc / 4) { BehindSection(cfg, lines, a, b, j); }
    if c.pc / 4 < |prog.imem| {
      UnusedSlot(cfg, lines, prog, c.pc / 4);
      F.NothingToDo(BLANK, c);
    }
  }

  // ----- Whole runs -----

  /** Where a run of the source machine ends. */
  ghost predicate Ends(cfg: Config, lines: seq<Line>, prog: Asm, q: Ref)
    requires InBounds(cfg, lines)
  {
    q.line >= |lines| || (!lines[q.line].LabelDef? && (IsCode(lines, q.line) ==> StopsHere(cfg, lines, prog, q)))
  }

  /** Assembling, in both directions. After n lines the processor is, after exactly the counted steps, where
      the source machine is; and the source machine cannot go on if and only if it has run into a directive or
      off its lines, or the processor cannot go on or leaves the program's instructions through a register. */
  lemma RunStopsIff(cfg: Config, lines: seq<Line>, prog: Asm, r: Ref, n: nat)
    requires Assembled(cfg, lines, prog) && r.line <= |lines| && RefAt(cfg, lines, r, n).Some?
    ensures InBounds(cfg, lines) && RefAt(cfg, lines, r, n).value.line <= |lines|
    ensures var q := RefAt(cfg, lines, r, n).value;
            && F.CoreAt(prog.imem, CoreOf(cfg, lines, r), CostTo(cfg, lines, r, n)) == Some(CoreOf(cfg, lines, q))
            && (RefAt(cfg, lines, r, n + 1).None? <==> Ends(cfg, lines, prog, q))
  {
    hide Loc, Assembled, F.CoreAt, CostTo, StopsHere, StepCode;
    AssembledSlots(cfg, lines, prog, 0);
    AssemblingPreservesMeaning(cfg, lines, prog, r, n);
    var q := RefAt(cfg, lines, r, n).value;
    assert RefAt(cfg, lines, r, n + 1) == Step(cfg, lines, q);
    if IsCode(lines, q.line) { LineStopsIff(cfg, lines, prog, q); }
  }
}
