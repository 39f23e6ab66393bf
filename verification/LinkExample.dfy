/** A three-instruction program on which the pipeline loses a link value. */
module LinkExample {
  import opened Words
  import opened RiscvDefs
  import opened Datapath
  import opened Controller
  import opened Pipeline
  import opened Refinement
  import opened LostLinks
  import opened PipelineRuns
  import opened Schedule
  import opened CleanRuns
  import opened Progress
  import S = Sequential

  /** lw x5, 0(x0); jal x1, 12; at 12: hcf. */
  predicate LoadThenCall(im: Bytes) {
    Fetch(im, 0) == 0x0000_2283 && Fetch(im, 4) == 0x0080_00ef && Fetch(im, 12) == 0x0000_000b
  }

  lemma LoadStep(im: Bytes, data: Bytes, lost: bool)
    requires LoadThenCall(im)
    ensures var a := S.Exec(im, S.Start(data), lost);
            a.pc == 4 && ReadReg(a.regs, 1) == 0 && IsMem(S.Inst(im, S.Start(data))) && !S.Away(im, S.Start(data))
  {
    hide Fetch, S.LoadData, S.AluResult;
  }

  lemma CallStep(im: Bytes, a: S.Arch)
    requires LoadThenCall(im) && a.pc == 4 && ReadReg(a.regs, 1) == 0
    ensures S.NextPc(im, a) == 12 && S.Away(im, a) && !UsesRs1(S.Inst(im, a)) && !UsesRs2(S.Inst(im, a))
    ensures ReadReg(S.Exec(im, a, true).regs, 1) == 0 && ReadReg(S.Exec(im, a, false).regs, 1) == 8
  {
    hide Fetch;
    assert S.Inst(im, a) == 0x0080_00ef;
    assert ImmSel(S.Inst(im, a)) == JType;
    assert ImmGen(JType, 0x0080_00ef) == 8;
    assert S.AluResult(im, a) == 12;
  }

  /** However long the latency, the pipeline halts on this program with x1 still zero, where the
      sequential machine has the return address 8. */
  lemma PipelineLosesLink(latency: nat, im: Bytes, data: Bytes) returns (n: nat)
    requires latency >= 3 && LoadThenCall(im)
    ensures HaltsAt(latency, im, data, n) && ReadReg(At(latency, im, data, n).regs, 1) == 0
    ensures CleanHalt(im, data, 2) && ReadReg(S.Clean(im, data, 2).regs, 1) == 8
  {
    hide LoadThenCall, S.Clean, IsHcf, S.Inst, Hcf, At, ReadReg;
    CleanLinks(im, data);
    MustHalt(latency, im, data);
    n := FirstHcf(latency, im, data, 3 * (latency + 3) + 1);
    LosingHalt(latency, im, data, n);
  }

  lemma MustHalt(latency: nat, im: Bytes, data: Bytes)
    requires latency >= 3 && LoadThenCall(im)
    ensures !RunsTo(latency, im, data, 3 * (latency + 3) + 1)
  {
    hide Fetch, S.Exec, S.Away, S.Inst, Inv, LossInv, NoHcfPassed, Overlap, Hcf, At;
    var m := 3 * (latency + 3) + 1;
    if RunsTo(latency, im, data, m) {
      PassedInTime(latency, im, data, 2);
      LosingHistory(latency, im, data, m);
      HcfAt12(im, Observe(latency, im, data, m).h[2]);
      NoneIsHcf(im, Observe(latency, im, data, m), 2);
      assert false;
    }
  }

  lemma NoneIsHcf(im: Bytes, g: Ghost, i: nat)
    requires |g.h| == |g.lost| + 1 && NoHcfPassed(im, g) && i < Oldest(g) && i < |g.h|
    ensures !IsHcf(S.Inst(im, g.h[i]))
  {
  }

  lemma HcfAt12(im: Bytes, a: S.Arch)
    requires LoadThenCall(im)
    ensures a.pc == 12 ==> IsHcf(S.Inst(im, a))
    ensures a.pc == 0 || a.pc == 4 ==> !IsHcf(S.Inst(im, a))
  {
    hide Fetch;
  }

  lemma CleanLinks(im: Bytes, data: Bytes)
    requires LoadThenCall(im)
    ensures CleanHalt(im, data, 2) && ReadReg(S.Clean(im, data, 2).regs, 1) == 8
  {
    hide Fetch, S.Inst, IsHcf, S.AluResult, S.RegsAfter, S.MemAfter;
    LoadStep(im, data, false);
    var a := S.Clean(im, data, 1);
    assert S.Clean(im, data, 0) == S.Start(data);
    CallStep(im, a);
    assert S.Clean(im, data, 2) == S.Exec(im, a, false);
    HcfAt12(im, S.Start(data));
    HcfAt12(im, a);
    HcfAt12(im, S.Clean(im, data, 2));
  }

  /** The law loses the call: it enters EXE right behind the load, which still waits in MEM. */
  lemma CallIsLost(latency: nat, im: Bytes, h: seq<S.Arch>)
    requires latency >= 3 && |h| >= 2 && !S.Away(im, h[0]) && IsMem(S.Inst(im, h[0]))
    requires S.Away(im, h[1]) && !UsesRs1(S.Inst(im, h[1])) && !UsesRs2(S.Inst(im, h[1]))
    ensures RowOf(latency, im, h, 1).lost && !RowOf(latency, im, h, 0).lost
  {
    hide RowOf, S.Away, S.Inst, IsMem, WritesRd, Rd, Rs1, Rs2;
    RowFacts(latency, im, h, 0);
    RowFacts(latency, im, h, 1);
    EnterIs(latency, im, h, 1);
    DepsBelow(latency, im, h, 1, 1, 2);
  }

  /** The pipeline's own run of the program, as far as it has retired. */
  lemma LosingHistory(latency: nat, im: Bytes, data: Bytes, n: nat)
    requires latency >= 3 && LoadThenCall(im) && RunsTo(latency, im, data, n)
    ensures var g := Observe(latency, im, data, n);
            && IsHistory(im, data, g.h, g.lost) && 0 <= Oldest(g) <= |g.lost|
            && g.h[0].pc == 0
            && (Oldest(g) >= 1 ==> g.h[1].pc == 4)
            && (Oldest(g) >= 2 ==> g.h[2].pc == 12 && ReadReg(g.h[2].regs, 1) == 0)
  {
    hide Fetch, S.Exec, S.Away, S.Inst, Inv, LossInv, NoHcfPassed, IsMem, RowOf, UsesRs1, UsesRs2;
    var g := Observe(latency, im, data, n);
    RunBounds(latency, im, data, n);
    if Oldest(g) >= 1 {
      assert Ran(im, g.h, g.lost, 0);
      LoadStep(im, data, g.lost[0]);
    }
    if Oldest(g) >= 2 {
      assert Ran(im, g.h, g.lost, 1);
      CallStep(im, g.h[1]);
      CallIsLost(latency, im, g.h);
      assert g.lost[1];
      NextPcOfLost(im, g.h[1]);
    }
  }

  lemma NextPcOfLost(im: Bytes, a: S.Arch)
    ensures S.Exec(im, a, true).pc == S.NextPc(im, a)
  {
  }

  lemma LosingHalt(latency: nat, im: Bytes, data: Bytes, n: nat)
    requires latency >= 3 && LoadThenCall(im) && HaltsAt(latency, im, data, n)
    ensures ReadReg(At(latency, im, data, n).regs, 1) == 0
  {
    hide Fetch, S.Exec, S.Inst, Inv, LossInv, Hcf, IsHcf, ReadReg;
    var g := Observe(latency, im, data, n);
    var k := Retired(latency, im, data, n);
    LosingHistory(latency, im, data, n);
    HaltState(latency, im, data, n);
    HistoryIsTrace(im, data, g.h, g.lost, k);
    HcfAt12(im, g.h[k]);
    if k > 2 {
      HistoryIsTrace(im, data, g.h, g.lost, 2);
      HcfAt12(im, g.h[2]);
      assert false;
    }
  }
}
