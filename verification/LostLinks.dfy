/** Which instructions leave EXE without reaching MEM: a transfer that flushes while a load or store
    holds MEM is dropped with the flush. Harmless for a branch; a jump loses its link value. */
module LostLinks {
  import opened Words
  import opened RiscvDefs
  import opened Datapath
  import opened Controller
  import opened Pipeline
  import opened Refinement
  import DataMem
  import S = Sequential

  /** Trace instruction i transfers away directly behind a load or store. */
  predicate AwayBehindMem(im: Bytes, h: seq<S.Arch>, i: int) {
    1 <= i < |h| && IsMem(S.Inst(im, h[i - 1])) && S.Away(im, h[i])
  }

  /** Only a transfer away behind a load or store is ever lost. */
  predicate LossOk(im: Bytes, h: seq<S.Arch>, lost: seq<bool>, i: int) {
    0 <= i < |lost| && i + 1 < |h| && lost[i] ==> AwayBehindMem(im, h, i)
  }

  ghost predicate LossInv(im: Bytes, g: Ghost)
    requires |g.h| == |g.lost| + 1
  {
    forall i :: LossOk(im, g.h, g.lost, i)
  }

  lemma ControlIsNotMem(inst: Word)
    requires IsControl(inst)
    ensures !IsMem(inst) && !IsHcf(inst)
  {
  }

  /** A waiting memory keeps an accepted or acceptable request busy; otherwise it ends up idle. */
  lemma IdleAfter(latency: nat, im: Bytes, data: Bytes, s: Cpu, g: Ghost)
    requires latency > 0 && Inv(latency, im, data, s, g)
    ensures !StallMA(latency, s) ==> Step(latency, im, s).dm.state == DataMem.Idle
    ensures IsMem(s.me.inst) && s.dm.state == DataMem.Idle ==> StallMA(latency, s)
    ensures StallMA(latency, s) ==> g.me >= 0
  {
    hide DataMem.Next, DataMem.LoadValue, DataMem.StoreBytes, FrontOk, ExOk, WbOk, RegsOk, GhostOk, Opcode, Plus4,
      NextEx, NextMe, NextWb, NextRf, NextIf, NextId, AfterWb, AfterMe, Low15, Length;
    assert 0 <= AfterWb(g) < |g.h| by { assert GhostOk(im, data, g); GhostBounds(im, data, g); }
    DataMem.ServingStep(latency, s.dm, MemRequest(s), g.h[AfterWb(g)].mem);
    BubbleIsInert(0);
  }


  /** What a flush during a memory wait loses stands directly behind the load or store. */
  lemma LossDecided(latency: nat, im: Bytes, data: Bytes, s: Cpu, g: Ghost)
    requires latency > 0 && Inv(latency, im, data, s, g) && Flush(s) && StallMA(latency, s)
    ensures g.ex && g.me == |g.lost| - 2 && AwayBehindMem(im, g.h, |g.lost| - 1)
  {
    hide S.Exec, S.Away, IsMem, Flush, WbOk, RegsOk, MemOk, Opcode, Fetch, Plus4, S.AluResult;
    GhostStep(latency, im, data, s, g);
    IdleAfter(latency, im, data, s, g);
    assert Ran(im, g.h, g.lost, |g.lost| - 1);
    ExMatches(im, s, g);
    StallHoldsMem(latency, s);
  }

  lemma StallHoldsMem(latency: nat, s: Cpu)
    requires StallMA(latency, s)
    ensures IsMem(s.me.inst)
  {
  }

  lemma LossStep(latency: nat, im: Bytes, data: Bytes, s: Cpu, g: Ghost)
    requires latency > 0 && Inv(latency, im, data, s, g) && !Hcf(s) && LossInv(im, g)
    ensures LossInv(im, NextGhost(latency, im, s, g))
  {
    hide S.Exec, S.Away, IsMem, Flush, StallMA, StallDH, WbOk, RegsOk, MemOk, MeOk, Opcode, Fetch, Plus4, ExOk,
      Ran, S.Inst;
    var g' := NextGhost(latency, im, s, g);
    GhostStep(latency, im, data, s, g);
    if Flush(s) && StallMA(latency, s) { LossDecided(latency, im, data, s, g); }
    forall i ensures LossOk(im, g'.h, g'.lost, i) { assert LossOk(im, g.h, g.lost, i); }
  }

  // ----- HCF reaches WB before anything behind it is retired -----

  /** No instruction that has passed WB was HCF. */
  ghost predicate NoHcfPassed(im: Bytes, g: Ghost)
    requires |g.h| == |g.lost| + 1
  {
    forall i :: 0 <= i < Oldest(g) && i < |g.h| ==> !IsHcf(S.Inst(im, g.h[i]))
  }

  lemma WbNotHcf(latency: nat, im: Bytes, data: Bytes, s: Cpu, g: Ghost)
    requires Inv(latency, im, data, s, g) && !Hcf(s) && g.wb >= 0
    ensures !IsHcf(S.Inst(im, g.h[g.wb]))
  {
    hide IsHcf, S.Inst, FrontOk, ExOk, MeOk, WbOk, RegsOk, MemOk, IsHistory, Same;
    StageInsts(latency, im, data, s, g);
  }

  lemma LostNotHcf(im: Bytes, data: Bytes, g: Ghost)
    requires GhostOk(im, data, g) && LossInv(im, g) && g.wb >= 0 && AfterWb(g) == g.wb + 2
    ensures !IsHcf(S.Inst(im, g.h[g.wb + 1]))
  {
    hide IsHcf, S.Inst, IsHistory, Same, IsMem, IsControl, BranchTaken, S.NextPc;
    GhostBounds(im, data, g);
    assert LossOk(im, g.h, g.lost, g.wb + 1);
    ControlIsNotMem(S.Inst(im, g.h[g.wb + 1]));
  }

  /** What retires with WB. */
  lemma NewlyRetired(im: Bytes, data: Bytes, g: Ghost, i: int)
    requires GhostOk(im, data, g) && Oldest(g) <= i < AfterWb(g)
    ensures g.wb >= 0 && (i == g.wb || (i == g.wb + 1 && AfterWb(g) == g.wb + 2))
  {
    hide IsHistory, Same;
  }

  lemma NoHcfStep(latency: nat, im: Bytes, data: Bytes, s: Cpu, g: Ghost)
    requires latency > 0 && Inv(latency, im, data, s, g) && !Hcf(s) && LossInv(im, g) && NoHcfPassed(im, g)
    ensures NoHcfPassed(im, NextGhost(latency, im, s, g))
  {
    hide IsHcf, S.Inst, FrontOk, ExOk, MeOk, WbOk, RegsOk, MemOk, IsHistory, Advance, Flush, StallMA, StallDH,
      Hcf, LossInv, Oldest, AfterWb, AfterMe, ChainOk;
    GhostShape(latency, im, data, s, g);
    var g' := NextGhost(latency, im, s, g);
    GhostStep(latency, im, data, s, g);
    GhostBounds(im, data, g);
    IdleAfter(latency, im, data, s, g);
    RetireStep(im, data, g, Flush(s), StallMA(latency, s), StallDH(s));
    forall i | 0 <= i < Oldest(g') && i < |g'.h| ensures !IsHcf(S.Inst(im, g'.h[i])) {
      if i >= Oldest(g) {
        NewlyRetired(im, data, g, i);
        if i == g.wb { WbNotHcf(latency, im, data, s, g); } else { LostNotHcf(im, data, g); }
      }
    }
  }
}
