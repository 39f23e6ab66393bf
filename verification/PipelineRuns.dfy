/** Whole runs of the pipeline from reset, measured against the sequential machine. */
module PipelineRuns {
  import opened Words
  import opened RiscvDefs
  import opened Datapath
  import opened Controller
  import opened Pipeline
  import opened Refinement
  import opened LostLinks
  import DataMem
  import S = Sequential

  ghost predicate Full(latency: nat, im: Bytes, data: Bytes, s: Cpu, g: Ghost) {
    Inv(latency, im, data, s, g) && LossInv(im, g) && NoHcfPassed(im, g)
  }

  function Begin(data: Bytes): Ghost {
    Ghost([S.Start(data)], [], false, false, -1, -1)
  }

  lemma ResetFull(latency: nat, im: Bytes, data: Bytes)
    requires latency >= 3
    ensures Full(latency, im, data, Reset(data), Begin(data))
  {
    hide Opcode, Fetch;
  }

  /** The ghost record of cycle n: the sequential run behind the pipeline's registers. */
  ghost function Observe(latency: nat, im: Bytes, data: Bytes, n: nat): (g: Ghost)
    requires latency >= 3 && RunsTo(latency, im, data, n)
    ensures Full(latency, im, data, At(latency, im, data, n), g)
  {
    if n == 0 then
      ResetFull(latency, im, data);
      Begin(data)
    else
      var g := Observe(latency, im, data, n - 1);
      var s := At(latency, im, data, n - 1);
      FullStep(latency, im, data, s, g);
      NextGhost(latency, im, s, g)
  }

  lemma FullStep(latency: nat, im: Bytes, data: Bytes, s: Cpu, g: Ghost)
    requires latency > 0 && Full(latency, im, data, s, g) && !Hcf(s)
    ensures Full(latency, im, data, Step(latency, im, s), NextGhost(latency, im, s, g))
  {
    hide Step, NextGhost, LossInv, NoHcfPassed;
    StepKeepsInv(latency, im, data, s, g);
    LossStep(latency, im, data, s, g);
    NoHcfStep(latency, im, data, s, g);
  }

  lemma ObserveNext(latency: nat, im: Bytes, data: Bytes, n: nat)
    requires latency >= 3 && RunsTo(latency, im, data, n) && RunsTo(latency, im, data, n + 1)
    ensures var s, g := At(latency, im, data, n), Observe(latency, im, data, n);
            && Full(latency, im, data, s, g) && !Hcf(s)
            && At(latency, im, data, n + 1) == Step(latency, im, s)
            && Observe(latency, im, data, n + 1) == NextGhost(latency, im, s, g)
  {
    hide Step, NextGhost, LossInv, NoHcfPassed;
  }

  // ----- What the pipeline's registers and memory hold -----

  /** Instructions retired to the register file. */
  ghost function Retired(latency: nat, im: Bytes, data: Bytes, n: nat): int
    requires latency >= 3 && RunsTo(latency, im, data, n)
  {
    Oldest(Observe(latency, im, data, n))
  }

  function StoredBy(s: Cpu, g: Ghost): int {
    AfterWb(g) + if s.dm.state == DataMem.Wait && IsStore(s.me.inst) then 1 else 0
  }

  /** Instructions whose memory effect has happened. */
  ghost function Stored(latency: nat, im: Bytes, data: Bytes, n: nat): int
    requires latency >= 3 && RunsTo(latency, im, data, n)
  {
    StoredBy(At(latency, im, data, n), Observe(latency, im, data, n))
  }

  /** Which of the instructions that entered EXE were lost in it. */
  ghost function Lost(latency: nat, im: Bytes, data: Bytes, n: nat): seq<bool>
    requires latency >= 3 && RunsTo(latency, im, data, n)
  {
    Observe(latency, im, data, n).lost
  }

  lemma {:induction false} HistoryIsTrace(im: Bytes, data: Bytes, h: seq<S.Arch>, lost: seq<bool>, i: nat)
    requires IsHistory(im, data, h, lost) && i <= |lost|
    ensures h[i] == S.Trace(im, data, lost[..i])
  {
    hide S.Exec;
    if i > 0 {
      HistoryIsTrace(im, data, h, lost, i - 1);
      assert Ran(im, h, lost, i - 1);
      assert lost[..i][..i - 1] == lost[..i - 1];
    }
  }

  lemma StateHolds(latency: nat, im: Bytes, data: Bytes, s: Cpu, g: Ghost)
    requires Inv(latency, im, data, s, g)
    ensures var k, m := Oldest(g), StoredBy(s, g);
            && 0 <= k <= m <= k + 2 && m <= |g.lost|
            && s.regs == g.h[k].regs && s.dm.bytes == g.h[m].mem
  {
    hide Opcode, Fetch, FrontOk, ExOk, WbOk, S.NextPc, S.RegsAfter, DataMem.StoreBytes, DataMem.LoadValue, Low15, Plus4;
    if g.me >= 0 { assert Ran(im, g.h, g.lost, g.me); }
  }

  /** Refinement. In every cycle up to the first HCF the register file is that of the sequential
      machine after k instructions, and the data memory that after m, with k <= m <= k + 2; the
      instructions lost on the way are transfers away directly behind a load or store. */
  lemma PipelineRefinesSequential(latency: nat, im: Bytes, data: Bytes, n: nat)
    requires latency >= 3 && RunsTo(latency, im, data, n)
    ensures var lost := Lost(latency, im, data, n);
            var k := Retired(latency, im, data, n);
            var m := Stored(latency, im, data, n);
            && 0 <= k <= m <= k + 2 && m <= |lost|
            && At(latency, im, data, n).regs == S.Trace(im, data, lost[..k]).regs
            && At(latency, im, data, n).dm.bytes == S.Trace(im, data, lost[..m]).mem
            && forall i :: 0 <= i < |lost| && lost[i] ==>
                 && i >= 1 && IsMem(S.Inst(im, S.Trace(im, data, lost[..i - 1])))
                 && S.Away(im, S.Trace(im, data, lost[..i]))
  {
    hide S.Exec, S.Away, S.Inst, IsMem, Opcode, FrontOk, ExOk, MeOk, WbOk, MemOk, RegsOk, NoHcfPassed,
      Overlap, Ran;
    var g := Observe(latency, im, data, n);
    var s := At(latency, im, data, n);
    StateHolds(latency, im, data, s, g);
    HistoryIsTrace(im, data, g.h, g.lost, Oldest(g));
    HistoryIsTrace(im, data, g.h, g.lost, StoredBy(s, g));
    forall i | 0 <= i < |g.lost| && g.lost[i]
      ensures i >= 1 && IsMem(S.Inst(im, S.Trace(im, data, g.lost[..i - 1])))
      ensures S.Away(im, S.Trace(im, data, g.lost[..i]))
    {
      GhostBounds(im, data, g);
      assert LossOk(im, g.h, g.lost, i);
      HistoryIsTrace(im, data, g.h, g.lost, i);
      HistoryIsTrace(im, data, g.h, g.lost, i - 1);
    }
  }

  // ----- What the stages hold -----

  /** The trace point of the instruction EXE holds in cycle n; None for a bubble. */
  ghost function TraceInExe(latency: nat, im: Bytes, data: Bytes, n: nat): Option<S.Arch>
    requires latency >= 3 && RunsTo(latency, im, data, n)
  {
    var g := Observe(latency, im, data, n);
    if g.ex && g.lost != [] then Some(S.Trace(im, data, g.lost[..|g.lost| - 1])) else None
  }

  /** EXE never speculates, and captures sequential operands. In every cycle up to HCF it holds a bubble
      that cannot flush, or an instruction of the trace with the operand values the sequential machine
      reads there; then ID holds the next word, real, and EXE flushes exactly when it transfers elsewhere. */
  lemma ExeIsOnTrace(latency: nat, im: Bytes, data: Bytes, n: nat)
    requires latency >= 3 && RunsTo(latency, im, data, n)
    ensures var s, e := At(latency, im, data, n), TraceInExe(latency, im, data, n);
            if e.None? then s.ex.inst == 0 && !Flush(s)
            else
              && s.ex.inst == S.Inst(im, e.value) && s.ex.pc == e.value.pc
              && (UsesRs1(s.ex.inst) ==> s.ex.rs1 == S.Op1(im, e.value))
              && (UsesRs2(s.ex.inst) ==> s.ex.rs2 == S.Op2(im, e.value))
              && s.id.pc == Plus4(e.value.pc) && s.id.inst == Fetch(im, s.id.pc)
              && (Flush(s) <==> S.Away(im, e.value))
  {
    hide S.Exec, S.Away, Opcode, Fetch, MeOk, WbOk, MemOk, RegsOk, LossInv, NoHcfPassed, Flush, S.Op1, S.Op2,
      Plus4, UsesRs1, UsesRs2, S.Inst, At, Ran;
    var s, g := At(latency, im, data, n), Observe(latency, im, data, n);
    if g.ex {
      HistoryIsTrace(im, data, g.h, g.lost, |g.lost| - 1);
      assert Ran(im, g.h, g.lost, |g.lost| - 1);
      ExMatches(im, s, g);
    } else {
      BubbleNeverFlushes(s);
    }
  }

  /** WB holds a bubble or an instruction of the trace, with the value the sequential machine writes: for
      a load, the data of its own transaction. */
  lemma WbIsOnTrace(latency: nat, im: Bytes, data: Bytes, n: nat)
    requires latency >= 3 && RunsTo(latency, im, data, n)
    ensures var s, k := At(latency, im, data, n), Retired(latency, im, data, n);
            && 0 <= k <= |Lost(latency, im, data, n)|
            && var a := S.Trace(im, data, Lost(latency, im, data, n)[..k]);
            s.wb.inst == 0 || (s.wb.inst == S.Inst(im, a) && (WritesRd(s.wb.inst) ==> WbData(s) == S.Result(im, a)))
  {
    hide S.Exec, Opcode, Fetch, MeOk, ExOk, FrontOk, MemOk, RegsOk, LossInv, NoHcfPassed, S.Result, WbData,
      WritesRd, S.Inst, At;
    var g := Observe(latency, im, data, n);
    GhostBounds(im, data, g);
    HistoryIsTrace(im, data, g.h, g.lost, Oldest(g));
  }
}
