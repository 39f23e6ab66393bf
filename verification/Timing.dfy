/** The exact cycle in which each instruction of a load/store-free run enters EXE. */
module Timing {
  import opened Words
  import opened RiscvDefs
  import opened Controller
  import opened Pipeline
  import opened Refinement
  import opened LostLinks
  import opened PipelineRuns
  import opened Schedule
  import S = Sequential

  function InstAt(im: Bytes, data: Bytes, i: nat): Word { S.Inst(im, S.Clean(im, data, i)) }

  /** Instruction i reads the destination of the older instruction j. */
  predicate DependsOn(im: Bytes, data: Bytes, i: nat, j: nat) {
    Overlap(InstAt(im, data, i), InstAt(im, data, j))
  }

  /** The law: one cycle behind the previous instruction, three behind one that transfers away, and
      four behind every older instruction whose result is read. */
  function Entry(im: Bytes, data: Bytes, i: nat): int
    decreases i, i + 1
  {
    if i == 0 then 2
    else Max(Entry(im, data, i - 1) + (if S.Away(im, S.Clean(im, data, i - 1)) then 3 else 1), Hazards(im, data, i, i))
  }

  /** Earliest entry of i that the first j instructions allow. */
  function Hazards(im: Bytes, data: Bytes, i: nat, j: nat): int
    requires j <= i
    decreases i, j
  {
    if j == 0 then 0
    else Max(Hazards(im, data, i, j - 1), if DependsOn(im, data, i, j - 1) then Entry(im, data, j - 1) + 4 else 0)
  }

  lemma EntryNext(im: Bytes, data: Bytes, i: nat)
    ensures Entry(im, data, i + 1) >= Entry(im, data, i) + (if S.Away(im, S.Clean(im, data, i)) then 3 else 1)
  {
    hide S.Away, Hazards, S.Clean;
  }

  lemma {:induction false} EntryIncreases(im: Bytes, data: Bytes, i: nat, j: nat)
    requires i < j
    ensures Entry(im, data, i) < Entry(im, data, j)
    decreases j
  {
    hide Entry, S.Away, S.Clean;
    EntryNext(im, data, j - 1);
    if i < j - 1 { EntryIncreases(im, data, i, j - 1); }
  }

  // ----- The law as the general schedule has it -----

  ghost predicate MemFree(im: Bytes, data: Bytes, n: nat) {
    forall i: nat :: i < n ==> !IsMem(InstAt(im, data, i))
  }

  ghost predicate IsClean(im: Bytes, data: Bytes, h: seq<S.Arch>, n: nat) {
    n < |h| && forall i: nat :: i <= n ==> h[i] == S.Clean(im, data, i)
  }

  /** Without loads and stores MEM takes one cycle, nothing is lost, and rows reduce to entries. */
  lemma {:induction false} RowIsEntry(latency: nat, im: Bytes, data: Bytes, h: seq<S.Arch>, i: nat)
    requires latency > 0 && IsClean(im, data, h, i) && MemFree(im, data, i)
    ensures RowOf(latency, im, h, i).enter == Entry(im, data, i) >= 2
    ensures !IsMem(InstAt(im, data, i)) ==>
              var r := RowOf(latency, im, h, i);
              r.exit == r.enter && r.done == r.enter + 1 && !r.lost
    decreases i, i + 1
  {
    hide RowOf, Deps, Hazards, S.Away, S.Clean, S.Inst, IsMem;
    RowFacts(latency, im, h, i);
    if i > 0 {
      RowIsEntry(latency, im, data, h, i - 1);
      DepsAreHazards(latency, im, data, h, i, i);
      EnterIs(latency, im, h, i);
      assert !IsMem(InstAt(im, data, i - 1));
    }
  }

  lemma {:induction false} DepsAreHazards(latency: nat, im: Bytes, data: Bytes, h: seq<S.Arch>, i: nat, j: nat)
    requires latency > 0 && IsClean(im, data, h, i) && MemFree(im, data, i) && j <= i
    ensures var d := Deps(latency, im, h, i, j);
            Hazards(im, data, i, j) == (if d > 0 then d + 1 else 0) && d >= 0
    decreases i, j
  {
    hide RowOf, Entry, S.Clean, S.Inst, IsMem, Overlap;
    if j > 0 {
      DepsAreHazards(latency, im, data, h, i, j - 1);
      RowIsEntry(latency, im, data, h, j - 1);
      assert !IsMem(InstAt(im, data, j - 1));
    }
  }

  /** And the pipeline's run is the clean run. */
  lemma {:induction false} MemFreeIsClean(im: Bytes, data: Bytes, g: Ghost, n: nat)
    requires GhostOk(im, data, g) && LossInv(im, g) && n <= |g.lost| && MemFree(im, data, |g.lost|)
    ensures IsClean(im, data, g.h, n)
  {
    hide S.Exec, S.Away, IsMem, ChainOk, S.Inst;
    if n == 0 {
      assert S.Clean(im, data, 0) == S.Start(data);
    } else {
      MemFreeIsClean(im, data, g, n - 1);
      assert Ran(im, g.h, g.lost, n - 1) && LossOk(im, g.h, g.lost, n - 1);
      if n >= 2 { assert !IsMem(InstAt(im, data, n - 2)); }
      assert g.h[n] == S.Exec(im, g.h[n - 1], false);
    }
  }

  /** EXE holds trace instruction i in cycle c. */
  ghost predicate InExe(latency: nat, im: Bytes, data: Bytes, c: nat, i: nat)
    requires latency >= 3 && RunsTo(latency, im, data, c)
  {
    var g := Observe(latency, im, data, c);
    g.ex && |g.lost| == i + 1
  }

  /** Among clean rows without loads and stores only the one whose entry it is can be in EXE. */
  lemma EntryDecides(latency: nat, im: Bytes, data: Bytes, g: Ghost, c: nat, i: nat)
    requires latency > 0 && |g.h| == |g.lost| + 1 && SlotsLawful(latency, im, g, c)
    requires IsClean(im, data, g.h, |g.lost|) && MemFree(im, data, |g.lost|)
    ensures (g.ex && |g.lost| == i + 1) <==> c == Entry(im, data, i)
  {
    hide RowOf, Entry, S.Clean, S.Inst, S.Away, IsMem, BackLawful;
    var n := |g.lost|;
    RowIsEntry(latency, im, data, g.h, n);
    if i > n { EntryIncreases(im, data, n, i); }
    if i < n {
      assert MemFree(im, data, i) && !IsMem(InstAt(im, data, i));
      RowIsEntry(latency, im, data, g.h, i);
      if i < n - 1 { RowsApart(latency, im, g.h, i, n - 1); }
    }
  }

  lemma ExHolds(latency: nat, im: Bytes, data: Bytes, s: Cpu, g: Ghost)
    requires Inv(latency, im, data, s, g) && g.ex
    ensures |g.lost| > 0 && s.ex.inst == S.Inst(im, g.h[|g.lost| - 1]) && s.ex.pc == g.h[|g.lost| - 1].pc
  {
    hide MeOk, WbOk, RegsOk, MemOk, IsHistory, UsesRs1, UsesRs2, S.Op1, S.Op2, Plus4, Fetch, Same;
  }

  lemma SlotsInRun(latency: nat, im: Bytes, data: Bytes, c: nat)
    requires latency >= 3 && RunsTo(latency, im, data, c)
    ensures var g := Observe(latency, im, data, c);
            |g.h| == |g.lost| + 1 && SlotsLawful(latency, im, g, c) && LossInv(im, g)
  {
    hide Inv, LossInv, NoHcfPassed, At, SlotsLawful, FrontLawful, LossesLawful;
    RunIsLawful(latency, im, data, c);
  }

  /** Exact timing. As long as no load or store has entered EXE, instruction i of the clean run is in
      EXE in cycle c if and only if c is the cycle the law gives. */
  lemma TimingLaw(latency: nat, im: Bytes, data: Bytes, c: nat, i: nat)
    requires latency >= 3 && RunsTo(latency, im, data, c)
    requires MemFree(im, data, |Lost(latency, im, data, c)|)
    ensures InExe(latency, im, data, c, i) <==> c == Entry(im, data, i)
    ensures c == Entry(im, data, i) ==>
              var s := At(latency, im, data, c);
              s.ex.inst == InstAt(im, data, i) && s.ex.pc == S.Clean(im, data, i).pc
  {
    hide Inv, LossInv, NoHcfPassed, At, SlotsLawful, FrontLawful, LossesLawful, MemFree, Entry, S.Clean, S.Inst;
    var g := Observe(latency, im, data, c);
    GhostShape(latency, im, data, At(latency, im, data, c), g);
    MemFreeIsClean(im, data, g, |g.lost|);
    SlotsInRun(latency, im, data, c);
    EntryDecides(latency, im, data, g, c, i);
    if c == Entry(im, data, i) { ExHolds(latency, im, data, At(latency, im, data, c), g); }
  }
}
