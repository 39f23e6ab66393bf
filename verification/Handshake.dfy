/** Each load or store meets the data memory once, and each instruction meets WB at most once. */
module Handshake {
  import opened Words
  import opened RiscvDefs
  import opened Datapath
  import opened Controller
  import opened Pipeline
  import opened Refinement
  import opened LostLinks
  import opened PipelineRuns
  import opened CleanRuns
  import DataMem
  import S = Sequential

  /** The data memory accepts the request of the instruction in MEM. */
  predicate Accepts(s: Cpu) {
    s.dm.state == DataMem.Idle && IsMem(s.me.inst)
  }

  /** Trace instruction i has been accepted in some cycle before n. */
  ghost predicate AcceptedBefore(latency: nat, im: Bytes, data: Bytes, n: nat, i: int)
    requires latency >= 3 && RunsTo(latency, im, data, n)
  {
    exists c: nat :: c < n && AcceptedIn(latency, im, data, c, i)
  }

  ghost predicate AcceptedIn(latency: nat, im: Bytes, data: Bytes, c: nat, i: int)
    requires latency >= 3
  {
    RunsTo(latency, im, data, c) && Accepts(At(latency, im, data, c)) && Observe(latency, im, data, c).me == i
  }

  /** The slot after the last instruction that has been accepted, or has passed MEM. */
  function Frontier(s: Cpu, g: Ghost): int {
    AfterWb(g) + if s.dm.state != DataMem.Idle then 1 else 0
  }

  lemma FrontierStep(latency: nat, im: Bytes, data: Bytes, s: Cpu, g: Ghost)
    requires latency > 0 && Inv(latency, im, data, s, g) && !Hcf(s)
    ensures var s', g' := Step(latency, im, s), NextGhost(latency, im, s, g);
            && Frontier(s, g) <= Frontier(s', g')
            && (Accepts(s) ==> 0 <= g.me == AfterWb(g) && s'.dm.state != DataMem.Idle && g'.me == g.me)
            && (s.dm.state != DataMem.Idle && s'.dm.state != DataMem.Idle ==> g'.me == g.me)
            && (s.dm.state == DataMem.Idle && !Accepts(s) ==> s'.dm.state == DataMem.Idle)
            && (g.wb >= 0 ==> g.wb < Oldest(g'))
  {
    hide Opcode, Fetch, ExOk, WbOk, RegsOk, Low15, Length, DataMem.StoreBytes, DataMem.LoadValue, S.Inst, S.AluResult,
      DataMem.Next, NextRf, NextEx, NextIf, NextId, NextWb, ExAlu, StallDH, Flush, Advance, IsHcf, WritesRd, Ran;
    GhostBounds(im, data, g);
    IdleAfter(latency, im, data, s, g);
    NextIsAdvance(latency, im, s, g);
    BubbleIsInert(0);
    SlotsForward(im, data, g, Flush(s), StallMA(latency, s), StallDH(s));
    RetireStep(im, data, g, Flush(s), StallMA(latency, s), StallDH(s));
    DataMem.ServingStep(latency, s.dm, MemRequest(s), g.h[AfterWb(g)].mem);
  }

  lemma {:induction false} FrontierGrows(latency: nat, im: Bytes, data: Bytes, c: nat, d: nat)
    requires latency >= 3 && c <= d && RunsTo(latency, im, data, c) && RunsTo(latency, im, data, d)
    ensures Frontier(At(latency, im, data, c), Observe(latency, im, data, c))
            <= Frontier(At(latency, im, data, d), Observe(latency, im, data, d))
    decreases d
  {
    hide Step, NextGhost, LossInv, NoHcfPassed, Inv, Frontier;
    if c < d {
      FrontierGrows(latency, im, data, c, d - 1);
      ObserveNext(latency, im, data, d - 1);
      FrontierStep(latency, im, data, At(latency, im, data, d - 1), Observe(latency, im, data, d - 1));
    }
  }

  /** No instruction is accepted twice: later acceptances are of later trace instructions. */
  lemma AcceptedOnce(latency: nat, im: Bytes, data: Bytes, c: nat, d: nat, i: int, j: int)
    requires latency >= 3 && c < d && RunsTo(latency, im, data, d)
    requires AcceptedIn(latency, im, data, c, i) && AcceptedIn(latency, im, data, d, j)
    ensures i < j
  {
    hide Step, NextGhost, LossInv, NoHcfPassed, Inv, AfterWb;
    ObserveNext(latency, im, data, c);
    FrontierStep(latency, im, data, At(latency, im, data, c), Observe(latency, im, data, c));
    FrontierGrows(latency, im, data, c + 1, d);
    AcceptedSlot(latency, im, data, At(latency, im, data, d), Observe(latency, im, data, d));
    MeSlot(Observe(latency, im, data, c + 1));
  }

  lemma AcceptedSlot(latency: nat, im: Bytes, data: Bytes, s: Cpu, g: Ghost)
    requires Inv(latency, im, data, s, g) && Accepts(s)
    ensures 0 <= g.me == AfterWb(g)
  {
    hide Opcode, Fetch, ExOk, WbOk, RegsOk, MemOk, IsHistory;
    BubbleIsInert(0);
  }

  lemma MeSlot(g: Ghost)
    ensures g.me >= 0 ==> AfterWb(g) == g.me
  {
  }

  /** Every load or store that has gone through MEM, or is being served there, was accepted. */
  lemma {:induction false} ServedWasAccepted(latency: nat, im: Bytes, data: Bytes, n: nat, i: nat)
    requires latency >= 3 && RunsTo(latency, im, data, n)
    requires var g := Observe(latency, im, data, n);
             && i < Frontier(At(latency, im, data, n), g) && i < |g.h|
             && IsMem(S.Inst(im, g.h[i]))
    ensures AcceptedBefore(latency, im, data, n, i)
    decreases n
  {
    hide Step, NextGhost, LossInv, NoHcfPassed, IsMem, S.Inst, Inv;
    if n == 0 {
      assert false;
    }
    var s, g := At(latency, im, data, n - 1), Observe(latency, im, data, n - 1);
    ObserveNext(latency, im, data, n - 1);
    if AcceptedIn(latency, im, data, n - 1, i) {
    } else {
      NewlyServed(latency, im, data, s, g, i);
      ServedWasAccepted(latency, im, data, n - 1, i);
      var c: nat :| c < n - 1 && AcceptedIn(latency, im, data, c, i);
    }
  }

  /** While MEM waits, the frontier moves only by accepting what is there. */
  lemma FrontierWaits(latency: nat, im: Bytes, data: Bytes, s: Cpu, g: Ghost)
    requires latency > 0 && Inv(latency, im, data, s, g) && !Hcf(s) && StallMA(latency, s)
    ensures var g' := NextGhost(latency, im, s, g);
            && 0 <= g.me == AfterWb(g) == AfterWb(g') && g.me < |g.lost|
            && (s.dm.state == DataMem.Idle ==> Accepts(s))
  {
    hide ExOk, WbOk, RegsOk, MemOk, MemRequest, StallDH, Flush, Advance, Fetch, Plus4, IsHistory, Same;
    GhostShape(latency, im, data, s, g);
    GhostBounds(im, data, g);
    IdleAfter(latency, im, data, s, g);
    NextIsAdvance(latency, im, s, g);
    SlotsForward(im, data, g, Flush(s), true, StallDH(s));
    StallHoldsMem(latency, s);
  }

  /** When MEM moves on, the frontier is what has left EXE, and no load or store is passed over: what was
      served had been accepted, and what a flush dropped behind it is neither. */
  lemma FrontierAdvances(latency: nat, im: Bytes, data: Bytes, s: Cpu, g: Ghost, i: nat)
    requires latency > 0 && Full(latency, im, data, s, g) && !Hcf(s) && !StallMA(latency, s)
    requires i < |g.h| && IsMem(S.Inst(im, g.h[i])) && i < AfterMe(g)
    ensures i < Frontier(s, g)
  {
    hide Opcode, Fetch, ExOk, WbOk, RegsOk, MemOk, S.AluResult, S.Op2, WritesRd, IsMem, S.Inst, Plus4,
      NoHcfPassed, StallDH, Flush, IsHistory, Same, IsControl, BranchTaken, S.NextPc, MemRequest;
    GhostShape(latency, im, data, s, g);
    GhostBounds(im, data, g);
    StageInsts(latency, im, data, s, g);
    IdleAfter(latency, im, data, s, g);
    if g.me >= 0 && i == g.me + 1 {
      assert LossOk(im, g.h, g.lost, i);
      ControlIsNotMem(S.Inst(im, g.h[i]));
    }
  }

  /** The frontier moves over a load or store only by accepting it. */
  lemma NewlyServed(latency: nat, im: Bytes, data: Bytes, s: Cpu, g: Ghost, i: nat)
    requires latency > 0 && Full(latency, im, data, s, g) && !Hcf(s)
    requires var g' := NextGhost(latency, im, s, g);
             i < Frontier(Step(latency, im, s), g') && i < |g'.h| && IsMem(S.Inst(im, g'.h[i]))
    requires !(Accepts(s) && g.me == i)
    ensures i < Frontier(s, g) && i < |g.h| && IsMem(S.Inst(im, g.h[i]))
  {
    hide Inv, LossInv, NoHcfPassed, Step, Advance, StallDH, StallMA, Flush, Hcf, AfterWb, AfterMe, IsMem,
      S.Inst, Accepts;
    GhostShape(latency, im, data, s, g);
    GhostBounds(im, data, g);
    GhostStep(latency, im, data, s, g);
    IdleAfter(latency, im, data, s, g);
    FrontierStep(latency, im, data, s, g);
    NextIsAdvance(latency, im, s, g);
    if StallMA(latency, s) {
      FrontierWaits(latency, im, data, s, g);
    } else {
      RetireStep(im, data, g, Flush(s), false, StallDH(s));
      FrontierAdvances(latency, im, data, s, g, i);
    }
  }

  /** WB sees trace instructions in order, each at most once. */
  lemma {:induction false} WbInOrder(latency: nat, im: Bytes, data: Bytes, c: nat, d: nat)
    requires latency >= 3 && c < d && RunsTo(latency, im, data, d) && RunsTo(latency, im, data, c)
    requires Observe(latency, im, data, c).wb >= 0
    ensures Observe(latency, im, data, c).wb < Oldest(Observe(latency, im, data, d))
    decreases d
  {
    hide Step, NextGhost, LossInv, NoHcfPassed, Inv, Oldest;
    ObserveNext(latency, im, data, d - 1);
    if c == d - 1 {
      FrontierStep(latency, im, data, At(latency, im, data, c), Observe(latency, im, data, c));
    } else {
      WbInOrder(latency, im, data, c, d - 1);
      RunsForward(latency, im, data, d - 1);
    }
  }
}
