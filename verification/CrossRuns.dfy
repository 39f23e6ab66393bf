/** Whole runs of one program in both models: the hardware's register file and data memory at its first
    HCF are the simulator's when it processes HCF. */
module CrossRuns {
  import opened Words
  import opened DataStruct
  import opened CrossModel
  import opened RiscvDefs
  import C = Controller
  import F = FunctionalCpu
  import R = Rv32i
  import S = Sequential
  import P = Pipeline
  import CleanRuns
  import Progress

  /** What the hardware fetches where the simulator is. */
  lemma FetchesEncoding(im: Bytes, imem: seq<Instr>, c: F.Core, a: S.Arch)
    requires Agree(c, a) && Image(im, imem) && F.Fetch(imem, c.pc).Some? && imem[c.pc / 4].op != Unimpl
    ensures Encodes(im, a.pc, imem[c.pc / 4])
  {
    hide Encodes, Index;
  }

  /** One instruction, from the simulator to the hardware's sequential machine. */
  lemma StepAgrees(im: Bytes, imem: seq<Instr>, c: F.Core, a: S.Arch) returns (ri: R.Instr)
    requires Agree(c, a) && Image(im, imem) && Fits(imem, c) && !F.AtHcf(imem, c)
    ensures F.StepCore(imem, c).Some?
    ensures Agree(F.StepCore(imem, c).value, S.Exec(im, a, false))
    ensures Matches(imem[c.pc / 4], Extend(a.pc), ri) && Opcode(S.Inst(im, a)) == OpcodeOf(ri)
    ensures S.Inst(im, a) == R.Encode(ri)
  {
    hide Image, R.Encode, R.IsaStep, S.Exec, Fetch, F.Process, Matches, Opcode, R.Supported, R.Legal;
    FetchesEncoding(im, imem, c, a);
    var i := imem[c.pc / 4];
    ri :| Matches(i, Extend(a.pc), ri) && Fetch(im, a.pc) == R.Encode(ri);
    StepIsIsa(imem, c, a, i, ri);
    R.ExecImplementsIsa(im, ri, a);
    EncodedOpcode(ri);
  }

  lemma HcfAgrees(im: Bytes, imem: seq<Instr>, c: F.Core, a: S.Arch)
    requires Agree(c, a) && Image(im, imem) && F.AtHcf(imem, c)
    ensures C.IsHcf(S.Inst(im, a))
    ensures F.StepCore(imem, c) == Some(c.(pc := Next(c.pc)))
  {
    hide Image, Agree, Fetch, Opcode, F.StepCore;
    FetchesEncoding(im, imem, c, a);
    F.HcfDoesNothing(imem, c);
  }

  /** The first n instructions are real ones that fit. */
  ghost predicate FitsTo(imem: seq<Instr>, c: F.Core, n: nat) {
    forall k: nat :: k < n ==> FitsAt(imem, c, k)
  }

  predicate FitsAt(imem: seq<Instr>, c: F.Core, k: nat) {
    F.CoreAt(imem, c, k).Some? && Fits(imem, F.CoreAt(imem, c, k).value) && !F.AtHcf(imem, F.CoreAt(imem, c, k).value)
  }

  /** Both models run alike for n instructions. */
  lemma {:induction false} RunsAgree(im: Bytes, data: Bytes, imem: seq<Instr>, c: F.Core, n: nat)
    requires Image(im, imem) && Agree(c, S.Start(data)) && FitsTo(imem, c, n)
    ensures F.CoreAt(imem, c, n).Some? && Agree(F.CoreAt(imem, c, n).value, S.Clean(im, data, n))
  {
    hide Agree, Fits, Image, S.Exec, F.StepCore, S.Start, F.AtHcf;
    if n > 0 {
      RunsAgree(im, data, imem, c, n - 1);
      assert FitsAt(imem, c, n - 1);
      var ri := StepAgrees(im, imem, F.CoreAt(imem, c, n - 1).value, S.Clean(im, data, n - 1));
    }
  }

  /** The k-th instruction the simulator executes. */
  function InstrAt(imem: seq<Instr>, c: F.Core, k: nat): Instr {
    var d := F.CoreAt(imem, c, k);
    if d.None? || F.Fetch(imem, d.value.pc).None? then BLANK else imem[d.value.pc / 4]
  }

  predicate Accesses(i: Instr) { IsLoad(i.op) || IsStore(i.op) }

  predicate Links(i: Instr) { (i.op == Jal || i.op == Jalr) && i.a1.reg != 0 }

  predicate LinkBehindAccess(imem: seq<Instr>, c: F.Core, k: nat) {
    k >= 1 && Accesses(InstrAt(imem, c, k - 1)) && Links(InstrAt(imem, c, k))
  }

  /** What a match and an opcode say about the simulator's operation. */
  lemma OpOfMatch(i: Instr, pc: Word, ri: R.Instr)
    requires Matches(i, pc, ri)
    ensures OpcodeOf(ri) == LOAD || OpcodeOf(ri) == STORE ==> Accesses(i)
    ensures OpcodeOf(ri) == JAL || OpcodeOf(ri) == JALR
            ==> (i.op == Jal || i.op == Jalr) && (ri.Jal? || ri.Jalr?) && ri.rd == i.a1.reg
    ensures OpcodeOf(ri) != HCF
  {
    hide Sum, R.Imm12, F.Upper, R.Upper, R.JumpOffset, R.BranchOffset;
  }

  lemma LinkRegister(ri: R.Instr)
    requires ri.Jal? || ri.Jalr?
    ensures RiscvDefs.Rd(R.Encode(ri)) == ri.rd
  {
    hide R.EncI, R.EncJ, RiscvDefs.Rd;
    match ri
    case Jal(rd, half) => R.DecodeJ(half, rd, JAL);
    case Jalr(rd, rs1, imm) => R.DecodeI(imm, rs1, 0, rd, JALR);
  }

  /** The instruction the simulator executes shows in the word the hardware fetches. */
  lemma OpcodesAgree(im: Bytes, data: Bytes, imem: seq<Instr>, c: F.Core, k: nat)
    requires Image(im, imem) && Agree(c, S.Start(data)) && FitsTo(imem, c, k + 1)
    ensures var inst, i := S.Inst(im, S.Clean(im, data, k)), InstrAt(imem, c, k);
            && (C.IsMem(inst) ==> Accesses(i))
            && (C.IsJump(inst) && Rd(inst) != 0 ==> Links(i))
            && !C.IsHcf(inst)
  {
    hide Agree, Image, Fits, S.Exec, S.Inst, F.StepCore, Opcode, F.CoreAt, S.Clean, Matches;
    RunsAgree(im, data, imem, c, k);
    assert FitsAt(imem, c, k);
    var d, a := F.CoreAt(imem, c, k).value, S.Clean(im, data, k);
    FitsIsFetched(imem, d);
    var ri := StepAgrees(im, imem, d, a);
    OpOfMatch(imem[d.pc / 4], Extend(a.pc), ri);
    if ri.Jal? || ri.Jalr? { LinkRegister(ri); }
  }

  lemma FitsIsFetched(imem: seq<Instr>, c: F.Core)
    requires Fits(imem, c)
    ensures F.Fetch(imem, c.pc).Some?
  {
  }

  lemma NoRisk(latency: nat, im: Bytes, data: Bytes, imem: seq<Instr>, c: F.Core, n: nat)
    requires latency > 0 && Image(im, imem) && Agree(c, S.Start(data)) && FitsTo(imem, c, n)
    requires forall k: nat :: k < n ==> !LinkBehindAccess(imem, c, k)
    ensures CleanRuns.NoneAtRisk(latency, im, data, n)
  {
    hide CleanRuns.CleanRow, Image, Agree, FitsAt, S.Inst, InstrAt, C.IsMem, C.IsJump, C.IsHcf, Accesses, Links, Rd,
       S.RegsAfter, S.NextPc, S.Clean;
    forall k: nat | k < n ensures !CleanRuns.AtRisk(latency, im, data, k) {
      if CleanRuns.AtRisk(latency, im, data, k) { CleanRuns.RiskIsBehindMem(latency, im, data, k); }
      assert !LinkBehindAccess(imem, c, k);
      OpcodesAgree(im, data, imem, c, k);
      if k >= 1 { OpcodesAgree(im, data, imem, c, k - 1); }
      var a := S.Clean(im, data, k);
      CleanRuns.CleanX0(im, data, k);
      if S.Away(im, a) && !(C.IsJump(S.Inst(im, a)) && Rd(S.Inst(im, a)) != 0) { CleanRuns.UnwrittenRegs(im, a); }
    }
  }

  lemma CleanHaltAgrees(im: Bytes, data: Bytes, imem: seq<Instr>, c: F.Core, h: nat)
    requires Image(im, imem) && Agree(c, S.Start(data)) && FitsTo(imem, c, h)
    requires F.CoreAt(imem, c, h).Some? && F.AtHcf(imem, F.CoreAt(imem, c, h).value)
    ensures Progress.CleanHalt(im, data, h)
  {
    hide Image, Agree, FitsAt, S.Inst, C.IsHcf, S.Clean, F.CoreAt, F.AtHcf;
    RunsAgree(im, data, imem, c, h);
    HcfAgrees(im, imem, F.CoreAt(imem, c, h).value, S.Clean(im, data, h));
    forall j: nat | j < h ensures !C.IsHcf(S.Inst(im, S.Clean(im, data, j))) {
      OpcodesAgree(im, data, imem, c, j);
    }
  }

  /** The simulator's registers x1 to x31, and as much of its memory as the hardware has. */
  function Visible(d: F.Core): S.Arch
    requires |d.mem| >= MEM_SIZE
  {
    S.Arch(0, Hardwired(d.rf), d.mem[..MEM_SIZE])
  }

  /** Cross-model agreement. For a program the simulator runs to its first HCF with h fitting
      instructions, none of them a linking jump directly behind a load or store: the pipeline, holding an
      encoding of it and the same data, first asserts HCF within (h + 1)(latency + 3) cycles, and then its
      register file and data memory are those of the simulator when it has processed HCF, x0 aside. */
  lemma ModelsAgree(latency: nat, im: Bytes, data: Bytes, imem: seq<Instr>, c: F.Core, h: nat)
    requires latency >= 3 && Image(im, imem) && Agree(c, S.Start(data)) && FitsTo(imem, c, h)
    requires F.CoreAt(imem, c, h).Some? && F.AtHcf(imem, F.CoreAt(imem, c, h).value)
    requires forall k: nat :: k < h ==> !LinkBehindAccess(imem, c, k)
    ensures F.CoreAt(imem, c, h + 1).Some? && |F.CoreAt(imem, c, h + 1).value.mem| >= MEM_SIZE
    ensures var d := F.CoreAt(imem, c, h + 1).value;
            exists n: nat :: n <= (h + 1) * (latency + 3) && Progress.HaltsWith(latency, im, data, n, Visible(d))
  {
    hide Image, FitsAt, S.Inst, C.IsHcf, S.Clean, F.AtHcf, F.StepCore, LinkBehindAccess, CleanRuns.NoneAtRisk,
      Progress.CleanHalt, P.At, CleanRuns.HaltsAt;
    RunsAgree(im, data, imem, c, h);
    HcfAgrees(im, imem, F.CoreAt(imem, c, h).value, S.Clean(im, data, h));
    CleanHaltAgrees(im, data, imem, c, h);
    NoRisk(latency, im, data, imem, c, h);
    Progress.HaltsInTime(latency, im, data, h);
    var n: nat :| n <= (h + 1) * (latency + 3) && Progress.HaltsWith(latency, im, data, n, S.Clean(im, data, h));
    assert Progress.HaltsWith(latency, im, data, n, Visible(F.CoreAt(imem, c, h + 1).value));
  }
}
