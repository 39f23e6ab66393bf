/** From assembly lines to the hardware's registers, through every model in between. */
module EndToEnd {
  import opened Words
  import opened DataStruct
  import opened Assembler
  import opened SourceMachine
  import opened AssemblerProof
  import F = FunctionalCpu
  import CrossModel
  import X = CrossRuns
  import S = Sequential
  import P = Pipeline
  import CleanRuns
  import Progress

  /** A program in one text section that starts at address 0, assembled. */
  ghost predicate Program(cfg: Config, lines: seq<Line>, prog: Asm, a: nat, b: nat) {
    && WellFormedLines(lines) && ValidConfig(cfg) && OneSection(lines, a, b)
    && Loc(cfg, lines, a) == 0 && Assemble(cfg, lines) == Ok(prog)
  }

  /** The source machine at the first instruction, over the assembled data. */
  function Begin(prog: Asm, a: nat): Ref {
    Ref(a, ZeroRegs(), prog.mem)
  }

  /** The processor as its constructor leaves it, over the same data. */
  function Power(prog: Asm): F.Core {
    F.Core(0, ZeroRegs(), prog.mem)
  }

  /** The source machine reaches its halt line with its n-th step. */
  predicate Finishes(cfg: Config, lines: seq<Line>, r: Ref, n: nat)
    ensures Finishes(cfg, lines, r, n) ==> RefAt(cfg, lines, r, n).Some?
  {
    RefAt(cfg, lines, r, n).Some? && IsCode(lines, RefAt(cfg, lines, r, n).value.line)
    && lines[RefAt(cfg, lines, r, n).value.line].src.Halt?
  }

  /** The simulator, started on an assembled program, runs as the source machine does and is at HCF when
      the source machine is at its halt line. */
  lemma SimulatorRunsSource(cfg: Config, lines: seq<Line>, prog: Asm, a: nat, b: nat, n: nat)
    requires Program(cfg, lines, prog, a, b) && Finishes(cfg, lines, Begin(prog, a), n)
    ensures var q := RefAt(cfg, lines, Begin(prog, a), n).value;
            var d := F.CoreAt(prog.imem, Power(prog), CostTo(cfg, lines, Begin(prog, a), n));
            d.Some? && F.AtHcf(prog.imem, d.value) && d.value.rf == q.rf && d.value.mem == q.mem
  {
    hide RefAt, CostTo, F.AtHcf, Assemble, NoOverlap, OneSection, Loc, F.CoreAt;
    OneSectionNoOverlap(cfg, lines, a, b);
    SectionInside(lines, a, b);
    AssembledSlots(cfg, lines, prog, a);
    AssemblingPreservesMeaning(cfg, lines, prog, Begin(prog, a), n);
    HaltsTogether(cfg, lines, prog, RefAt(cfg, lines, Begin(prog, a), n).value);
  }

  lemma SectionInside(lines: seq<Line>, a: nat, b: nat)
    requires OneSection(lines, a, b)
    ensures a <= |lines|
  {
  }

  /** End to end. A program whose source run finishes, whose instructions all fit the hardware and keep
      linking jumps away from loads and stores: the pipeline, holding an encoding of what was assembled
      and the assembled data, halts with the registers and data memory of the source machine. */
  lemma HardwareRunsSource(latency: nat, im: Bytes, cfg: Config, lines: seq<Line>, prog: Asm, a: nat, b: nat, n: nat)
    requires latency >= 3 && Program(cfg, lines, prog, a, b) && Finishes(cfg, lines, Begin(prog, a), n)
    requires |prog.mem| >= MEM_SIZE && CrossModel.Image(im, prog.imem)
    requires X.FitsTo(prog.imem, Power(prog), CostTo(cfg, lines, Begin(prog, a), n))
    requires forall k: nat ::
               k < CostTo(cfg, lines, Begin(prog, a), n) ==> !X.LinkBehindAccess(prog.imem, Power(prog), k)
    ensures |RefAt(cfg, lines, Begin(prog, a), n).value.mem| >= MEM_SIZE
    ensures exists cycle: nat ::
              Progress.HaltsWith(latency, im, prog.mem[..MEM_SIZE], cycle,
                  Final(RefAt(cfg, lines, Begin(prog, a), n).value))
  {
    hide RefAt, CostTo, Program, Finishes, CrossModel.Image, X.FitsTo, X.LinkBehindAccess, F.CoreAt, F.AtHcf, P.At,
      CleanRuns.HaltsAt;
    var h := CostTo(cfg, lines, Begin(prog, a), n);
    var data := prog.mem[..MEM_SIZE];
    SimulatorRunsSource(cfg, lines, prog, a, b, n);
    StartsAgree(prog);
    X.ModelsAgree(latency, im, data, prog.imem, Power(prog), h);
    HcfChangesNothing(prog, h);
    var cycle: nat :| Progress.HaltsWith(latency, im, data, cycle,
        X.Visible(F.CoreAt(prog.imem, Power(prog), h + 1).value));
    assert Progress.HaltsWith(latency, im, data, cycle, Final(RefAt(cfg, lines, Begin(prog, a), n).value));
  }

  /** What of a source state the hardware holds when it halts: x1 to x31 and the low memory. */
  function Final(q: Ref): S.Arch
    requires |q.mem| >= MEM_SIZE
  {
    S.Arch(0, CrossModel.Hardwired(q.rf), q.mem[..MEM_SIZE])
  }

  lemma StartsAgree(prog: Asm)
    requires |prog.mem| >= MEM_SIZE
    ensures CrossModel.Agree(Power(prog), S.Start(prog.mem[..MEM_SIZE]))
  {
  }

  lemma HcfChangesNothing(prog: Asm, h: nat)
    requires F.CoreAt(prog.imem, Power(prog), h).Some?
    requires F.AtHcf(prog.imem, F.CoreAt(prog.imem, Power(prog), h).value)
    ensures var c, d := F.CoreAt(prog.imem, Power(prog), h).value, F.CoreAt(prog.imem, Power(prog), h + 1);
            d.Some? && d.value.rf == c.rf && d.value.mem == c.mem
  {
    hide F.StepCore, F.AtHcf, Next;
    F.HcfDoesNothing(prog.imem, F.CoreAt(prog.imem, Power(prog), h).value);
  }
}
