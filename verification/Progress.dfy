/** How long the pipeline can go without an instruction entering WB, and when it must halt. */
module Progress {
  import opened Words
  import opened RiscvDefs
  import opened Datapath
  import opened Controller
  import opened Pipeline
  import opened Refinement
  import opened LostLinks
  import opened PipelineRuns
  import opened CleanRuns
  import Schedule
  import DataMem
  import S = Sequential

  /** Cycles until an instruction enters WB: a ranking over the memory counter, bubbles and stalls. */
  function Wait(latency: nat, s: Cpu, g: Ghost): int {
    if g.me >= 0 then if IsMem(s.me.inst) then latency - s.dm.counter else 1
    else if g.ex then latency + 1
    else if g.id && !Overlap(s.id.inst, s.wb.inst) then latency + 2
    else latency + 3
  }

  lemma WaitBounds(latency: nat, im: Bytes, data: Bytes, s: Cpu, g: Ghost)
    requires Inv(latency, im, data, s, g)
    ensures 1 <= Wait(latency, s, g) <= latency + 3
  {
    hide GhostOk, FrontOk, ExOk, MeOk, WbOk, RegsOk, Overlap, IsMem, MemRequest, DataMem.LoadValue, DataMem.StoreBytes;
  }

  /** From one cycle to the next the wait shrinks, or an instruction enters WB. */
  predicate WaitGoesDown(latency: nat, im: Bytes, s: Cpu, g: Ghost, s': Cpu, g': Ghost) {
    && AfterWb(g) <= AfterWb(g')
    && (AfterWb(g) == AfterWb(g') ==> Wait(latency, s', g') < Wait(latency, s, g))
    && (g'.wb < 0 ==> AfterWb(g) == AfterWb(g'))
  }

  /** While MEM waits the memory counter runs. */
  lemma WaitInMem(latency: nat, im: Bytes, data: Bytes, s: Cpu, g: Ghost)
    requires latency > 0 && Inv(latency, im, data, s, g) && !Hcf(s) && StallMA(latency, s)
    ensures WaitGoesDown(latency, im, s, g, Step(latency, im, s), NextGhost(latency, im, s, g))
  {
    hide S.Exec, Opcode, Fetch, Plus4, IsHcf, Ran, ExOk, WbOk, RegsOk, S.AluResult, Low15, Length, S.Inst,
      DataMem.StoreBytes, DataMem.LoadValue, BranchTaken, ExAlu, ReadReg, NextRf, Rd, Rs1, Rs2, WritesRd,
      UsesRs1, UsesRs2;
    GhostStep(latency, im, data, s, g);
    IdleAfter(latency, im, data, s, g);
    GhostBounds(im, data, g);
    BubbleIsInert(s.id.inst);
    DataMem.ServingStep(latency, s.dm, MemRequest(s), g.h[AfterWb(g)].mem);
    DataMem.CounterFits(latency, s.dm.counter);
  }

  /** Otherwise bubbles and stalls drain. */
  lemma WaitOutside(latency: nat, im: Bytes, data: Bytes, s: Cpu, g: Ghost)
    requires latency > 0 && Inv(latency, im, data, s, g) && !Hcf(s) && !StallMA(latency, s)
    ensures WaitGoesDown(latency, im, s, g, Step(latency, im, s), NextGhost(latency, im, s, g))
  {
    hide S.Exec, Opcode, Fetch, Plus4, IsHcf, Ran, ExOk, WbOk, RegsOk, S.AluResult, Low15, Length, S.Inst,
      DataMem.StoreBytes, DataMem.LoadValue, BranchTaken, ExAlu, ReadReg, NextRf, Rd, Rs1, Rs2, WritesRd,
      UsesRs1, UsesRs2;
    GhostStep(latency, im, data, s, g);
    IdleAfter(latency, im, data, s, g);
    GhostBounds(im, data, g);
    BubbleIsInert(s.id.inst);
    DataMem.ServingStep(latency, s.dm, MemRequest(s), g.h[AfterWb(g)].mem);
  }

  /** In every cycle before HCF the wait shrinks, or an instruction enters WB. */
  lemma WaitShrinks(latency: nat, im: Bytes, data: Bytes, s: Cpu, g: Ghost)
    requires latency > 0 && Inv(latency, im, data, s, g) && !Hcf(s)
    ensures WaitGoesDown(latency, im, s, g, Step(latency, im, s), NextGhost(latency, im, s, g))
  {
    hide Inv, StallMA, WaitGoesDown, Step, NextGhost;
    GhostShape(latency, im, data, s, g);
    if StallMA(latency, s) { WaitInMem(latency, im, data, s, g); } else { WaitOutside(latency, im, data, s, g); }
  }

  /** WB holds an instruction of the trace in cycle c. */
  ghost predicate EntersWb(latency: nat, im: Bytes, data: Bytes, c: nat)
    requires latency >= 3
  {
    RunsTo(latency, im, data, c) && Observe(latency, im, data, c).wb >= 0
  }

  ghost function WaitAt(latency: nat, im: Bytes, data: Bytes, n: nat): (w: int)
    requires latency >= 3 && RunsTo(latency, im, data, n)
    ensures 1 <= w <= latency + 3
  {
    WaitBounds(latency, im, data, At(latency, im, data, n), Observe(latency, im, data, n));
    Wait(latency, At(latency, im, data, n), Observe(latency, im, data, n))
  }

  /** As long as nothing enters WB the wait counts down. */
  lemma {:induction false} WaitCountsDown(latency: nat, im: Bytes, data: Bytes, n: nat, d: nat)
    requires latency >= 3 && RunsTo(latency, im, data, n) && RunsTo(latency, im, data, n + d)
    requires forall c: nat :: n < c <= n + d ==> !EntersWb(latency, im, data, c)
    ensures WaitAt(latency, im, data, n + d) + d <= WaitAt(latency, im, data, n)
  {
    hide Step, NextGhost, Inv, LossInv, NoHcfPassed, Wait, AfterWb, Hcf;
    if d > 0 {
      WaitCountsDown(latency, im, data, n, d - 1);
      ObserveNext(latency, im, data, n + d - 1);
      WaitShrinks(latency, im, data, At(latency, im, data, n + d - 1), Observe(latency, im, data, n + d - 1));
      assert !EntersWb(latency, im, data, n + d);
    }
  }

  /** Throughput, for every program and at every point of its run: before HCF, in any latency + 3
      successive cycles an instruction enters WB. */
  lemma Throughput(latency: nat, im: Bytes, data: Bytes, n: nat)
    requires latency >= 3 && RunsTo(latency, im, data, n + latency + 3)
    ensures exists c: nat :: n < c <= n + latency + 3 && EntersWb(latency, im, data, c)
  {
    hide WaitAt, EntersWb, At;
    if forall c: nat :: n < c <= n + (latency + 3) ==> !EntersWb(latency, im, data, c) {
      WaitCountsDown(latency, im, data, n, latency + 3);
      assert false;
    }
  }

  /** Counted from reset: n cycles bring more than n / (latency + 3) - 1 instructions to WB. */
  lemma {:induction false} TotalThroughput(latency: nat, im: Bytes, data: Bytes, n: nat)
    requires latency >= 3 && RunsTo(latency, im, data, n)
    ensures var s, g := At(latency, im, data, n), Observe(latency, im, data, n);
            n + Wait(latency, s, g) <= (latency + 3) * (AfterWb(g) + 1)
  {
    hide Step, NextGhost, Inv, LossInv, NoHcfPassed, Wait, AfterWb, Hcf;
    var s, g := At(latency, im, data, n), Observe(latency, im, data, n);
    if n == 0 {
      assert AfterWb(Begin(data)) == 0 by { BeginIsEmpty(data); }
      WaitBounds(latency, im, data, s, g);
    } else {
      var s0, g0 := At(latency, im, data, n - 1), Observe(latency, im, data, n - 1);
      ObserveNext(latency, im, data, n - 1);
      TotalThroughput(latency, im, data, n - 1);
      WaitShrinks(latency, im, data, s0, g0);
      WaitBounds(latency, im, data, s0, g0);
      WaitBounds(latency, im, data, s, g);
      if AfterWb(g0) < AfterWb(g) { Scale(latency + 3, AfterWb(g0) + 2, AfterWb(g) + 1); }
    }
  }

  lemma BeginIsEmpty(data: Bytes)
    ensures AfterWb(Begin(data)) == 0
  {
  }

  lemma Scale(c: nat, a: int, b: int)
    requires a <= b
    ensures c * a <= c * b
    ensures c * (a - 1) + c == c * a
  {
  }

  /** After (i + 1)(latency + 3) further cycles without HCF, trace instruction i has passed WB. */
  lemma PassedInTime(latency: nat, im: Bytes, data: Bytes, i: nat)
    requires latency >= 3 && RunsTo(latency, im, data, (i + 1) * (latency + 3) + 1)
    ensures i < Retired(latency, im, data, (i + 1) * (latency + 3) + 1)
  {
    hide Step, Inv, LossInv, NoHcfPassed, Wait, AfterWb, Hcf, NextGhost;
    var n := (i + 1) * (latency + 3);
    var s, g := At(latency, im, data, n), Observe(latency, im, data, n);
    TotalThroughput(latency, im, data, n);
    WaitBounds(latency, im, data, s, g);
    if AfterWb(g) + 1 <= i + 1 { Scale(latency + 3, AfterWb(g) + 1, i + 1); }
    RetireNext(latency, im, data, s, g);
    ObserveNext(latency, im, data, n);
  }

  lemma RetireNext(latency: nat, im: Bytes, data: Bytes, s: Cpu, g: Ghost)
    requires latency > 0 && Inv(latency, im, data, s, g) && !Hcf(s)
    ensures Oldest(NextGhost(latency, im, s, g)) == AfterWb(g)
  {
    hide Advance, Flush, StallMA, StallDH, Hcf, ExOk, MeOk, WbOk, RegsOk, MemOk, Opcode, Fetch;
    GhostStep(latency, im, data, s, g);
    IdleAfter(latency, im, data, s, g);
    RetireStep(im, data, g, Flush(s), StallMA(latency, s), StallDH(s));
  }

  lemma {:induction false} FirstHcf(latency: nat, im: Bytes, data: Bytes, m: nat) returns (n: nat)
    requires latency > 0 && !RunsTo(latency, im, data, m)
    ensures n < m && HaltsAt(latency, im, data, n)
  {
    hide Step, Hcf;
    n := 0;
    while !Hcf(At(latency, im, data, n))
      invariant n <= m && RunsTo(latency, im, data, n)
      decreases m - n
    {
      n := n + 1;
    }
  }

  /** A clean HCF. */
  ghost predicate CleanHalt(im: Bytes, data: Bytes, i: nat) {
    && IsHcf(S.Inst(im, S.Clean(im, data, i)))
    && forall j: nat :: j < i ==> !IsHcf(S.Inst(im, S.Clean(im, data, j)))
  }

  lemma SafeHistoryIsClean(latency: nat, im: Bytes, data: Bytes, n: nat, i: nat)
    requires latency >= 3 && RunsTo(latency, im, data, n) && NoneAtRisk(latency, im, data, i)
    requires i <= Retired(latency, im, data, n)
    ensures i < |Observe(latency, im, data, n).h| && Observe(latency, im, data, n).h[i] == S.Clean(im, data, i)
  {
    hide Inv, LossInv, NoHcfPassed, AtRisk, S.Clean, Ran, Schedule.RowOf;
    var g := Observe(latency, im, data, n);
    RunBounds(latency, im, data, n);
    AgreesExactlyWhenSafe(latency, im, data, g.h, g.lost, i);
  }

  /** A clean HCF among the instructions that passed WB would have been asserted. */
  lemma HcfNotPassed(latency: nat, im: Bytes, data: Bytes, n: nat, i: nat)
    requires latency >= 3 && RunsTo(latency, im, data, n) && NoneAtRisk(latency, im, data, i) && CleanHalt(im, data, i)
    ensures Retired(latency, im, data, n) <= i
  {
    hide Inv, LossInv, IsHcf, S.Inst, S.Clean, AfterWb;
    if i < Retired(latency, im, data, n) {
      SafeHistoryIsClean(latency, im, data, n, i);
    }
  }

  lemma RetiredBound(latency: nat, im: Bytes, data: Bytes, n: nat)
    requires latency >= 3 && RunsTo(latency, im, data, n)
    ensures Retired(latency, im, data, n) >= 0
  {
    hide Inv, LossInv, NoHcfPassed, LossesAre;
    RunBounds(latency, im, data, n);
  }

  /** HCF is first asserted in cycle n, with the registers and data memory of a. */
  ghost predicate HaltsWith(latency: nat, im: Bytes, data: Bytes, n: nat, a: S.Arch)
    requires latency > 0
  {
    HaltsAt(latency, im, data, n) && At(latency, im, data, n).regs == a.regs
        && At(latency, im, data, n).dm.bytes == a.mem
  }

  /** Total correctness. If the sequential machine reaches its first HCF after i instructions, none of
      them at risk, then the pipeline asserts HCF within (i + 1)(latency + 3) cycles, holding exactly the
      sequential registers and memory. */
  lemma HaltsInTime(latency: nat, im: Bytes, data: Bytes, i: nat)
    requires latency >= 3 && NoneAtRisk(latency, im, data, i) && CleanHalt(im, data, i)
    ensures exists n: nat :: n <= (i + 1) * (latency + 3) && HaltsWith(latency, im, data, n, S.Clean(im, data, i))
  {
    hide Inv, LossInv, Step, IsHcf, S.Inst, S.Clean, S.Trace, AfterWb, Advance, NextGhost, AtRisk, Retired;
    var m := (i + 1) * (latency + 3) + 1;
    if RunsTo(latency, im, data, m) {
      PassedInTime(latency, im, data, i);
      HcfNotPassed(latency, im, data, m, i);
      assert false;
    }
    var n := FirstHcf(latency, im, data, m);
    RetiredBound(latency, im, data, n);
    HcfNotPassed(latency, im, data, n, i);
    HaltsInCleanState(latency, im, data, n);
    assert Retired(latency, im, data, n) == i;
    assert HaltsWith(latency, im, data, n, S.Clean(im, data, i));
  }
}
