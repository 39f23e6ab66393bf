/** Every cycle of the pipeline before HCF is a state of the sequential machine. */
module Refinement {
  import opened Words
  import opened RiscvDefs
  import opened Datapath
  import opened Controller
  import opened Pipeline
  import DataMem
  import S = Sequential

  /** What the machine does not record: h[i] is the sequential state before trace instruction i,
      lost[i] says that instruction i left EXE without reaching MEM. Instructions 0..|lost|-1 have
      entered EXE; ex and id tell real instructions from bubbles; me and wb are the trace indices
      in MEM and WB, negative for a bubble. */
  datatype Ghost = Ghost(h: seq<S.Arch>, lost: seq<bool>, ex: bool, id: bool, me: int, wb: int)

  /** Trace index of the next instruction to leave EXE, MEM or WB after the named stage. */
  function AfterMe(g: Ghost): int { if g.ex then |g.lost| - 1 else |g.lost| }
  function AfterWb(g: Ghost): int { if g.me >= 0 then g.me else AfterMe(g) }
  function Oldest(g: Ghost): int { if g.wb >= 0 then g.wb else AfterWb(g) }

  // ----- Invariant -----

  predicate Ran(im: Bytes, h: seq<S.Arch>, lost: seq<bool>, i: int)
    requires |h| == |lost| + 1
  {
    0 <= i < |lost| ==> h[i + 1] == S.Exec(im, h[i], lost[i])
  }

  /** h is the run of the sequential machine that loses the instructions marked in lost. */
  ghost predicate IsHistory(im: Bytes, data: Bytes, h: seq<S.Arch>, lost: seq<bool>) {
    && |h| == |lost| + 1
    && h[0] == S.Start(data)
    && (forall i :: Ran(im, h, lost, i))
    && (forall a :: a in h ==> a.regs[0] == 0)
  }

  /** Nothing happened to registers or memory between two points of the trace. */
  predicate Same(h: seq<S.Arch>, i: int, j: int) {
    0 <= i <= j < |h| && h[i].regs == h[j].regs && h[i].mem == h[j].mem
  }

  /** The slots hold successive trace instructions, up to one lost instruction between two slots. */
  predicate ChainOk(g: Ghost)
    requires |g.h| == |g.lost| + 1
  {
    && (g.ex ==> g.id && g.lost != [] && !g.lost[|g.lost| - 1])
    && (g.me >= 0 ==>
          && g.me < AfterMe(g) <= (if g.ex then g.me + 1 else g.me + 2)
          && !g.lost[g.me] && Same(g.h, g.me + 1, AfterMe(g))
          && (AfterMe(g) == g.me + 2 ==> g.lost[g.me + 1]))
    && (g.wb >= 0 ==>
          && g.wb < AfterWb(g) <= g.wb + 2 && AfterWb(g) <= |g.lost|
          && !g.lost[g.wb] && Same(g.h, g.wb + 1, AfterWb(g))
          && (AfterWb(g) == g.wb + 2 ==> g.lost[g.wb + 1]))
  }

  ghost predicate GhostOk(im: Bytes, data: Bytes, g: Ghost) {
    IsHistory(im, data, g.h, g.lost) && ChainOk(g)
  }

  predicate FrontOk(im: Bytes, s: Cpu, g: Ghost)
    requires |g.h| == |g.lost| + 1
  {
    && (g.ex ==> g.id && g.lost != [] && s.id.pc == Plus4(s.ex.pc))
    && (!g.ex ==> s.ex.inst == 0 && (g.id ==> s.id.pc == g.h[|g.lost|].pc))
    && (g.id ==> s.id.inst == Fetch(im, s.id.pc) && s.ifPc == Plus4(s.id.pc))
    && (!g.id ==> s.id.inst == 0 && s.ifPc == g.h[|g.lost|].pc)
  }

  predicate ExOk(im: Bytes, s: Cpu, g: Ghost)
    requires |g.h| == |g.lost| + 1
  {
    g.ex && g.lost != [] ==>
      var a := g.h[|g.lost| - 1];
      && s.ex.inst == S.Inst(im, a) && s.ex.pc == a.pc && s.ex.imm == Imm(s.ex.inst)
      && (UsesRs1(s.ex.inst) ==> s.ex.rs1 == S.Op1(im, a))
      && (UsesRs2(s.ex.inst) ==> s.ex.rs2 == S.Op2(im, a))
  }

  predicate MeOk(im: Bytes, s: Cpu, g: Ghost)
    requires |g.h| == |g.lost| + 1 && ChainOk(g)
  {
    if g.me < 0 then s.me.inst == 0
    else
      var a := g.h[g.me];
      && s.me.inst == S.Inst(im, a) && s.me.pc == a.pc
      && (WritesRd(s.me.inst) || IsMem(s.me.inst) ==> s.me.alu == S.AluResult(im, a))
      && (IsStore(s.me.inst) ==> s.me.wdata == S.Op2(im, a))
  }

  predicate WbOk(im: Bytes, s: Cpu, g: Ghost)
    requires |g.h| == |g.lost| + 1 && ChainOk(g)
  {
    if g.wb < 0 then s.wb.inst == 0
    else
      var a := g.h[g.wb];
      && s.wb.inst == S.Inst(im, a)
      && (WritesRd(s.wb.inst) ==> WbData(s) == S.Result(im, a))
  }

  predicate RegsOk(s: Cpu, g: Ghost)
    requires |g.h| == |g.lost| + 1 && ChainOk(g)
  {
    s.regs == g.h[Oldest(g)].regs
  }

  predicate MemOk(latency: nat, im: Bytes, s: Cpu, g: Ghost)
    requires |g.h| == |g.lost| + 1 && ChainOk(g)
  {
    && (s.dm.state != DataMem.Idle ==> g.wb < 0 && g.me >= 0)
    && DataMem.Serving(latency, s.dm, MemRequest(s), g.h[AfterWb(g)].mem)
  }

  ghost predicate Inv(latency: nat, im: Bytes, data: Bytes, s: Cpu, g: Ghost) {
    && latency >= 3
    && GhostOk(im, data, g)
    && FrontOk(im, s, g) && ExOk(im, s, g) && MeOk(im, s, g) && WbOk(im, s, g)
    && RegsOk(s, g) && MemOk(latency, im, s, g)
  }

  // ----- The ghost record one cycle later -----

  /** The record after a cycle with the given flush, memory-stall and hazard-stall signals. */
  function Advance(im: Bytes, g: Ghost, flush: bool, ma: bool, dh: bool): (g': Ghost)
    requires |g.h| == |g.lost| + 1 && ChainOk(g)
    requires flush ==> g.ex
    ensures |g'.h| == |g'.lost| + 1
  {
    var n := |g.lost|;
    var wb := if ma then -1 else g.me;
    var me := if ma then g.me else if g.ex then n - 1 else -1;
    if flush then
      if ma then
        Ghost(g.h[..n] + [S.Exec(im, g.h[n - 1], true)], g.lost[..n - 1] + [true], false, false, me, wb)
      else Ghost(g.h, g.lost, false, false, me, wb)
    else if ma then Ghost(g.h, g.lost, g.ex, g.id, me, wb)
    else if dh then Ghost(g.h, g.lost, false, g.id, me, wb)
    else if g.id then
      Ghost(g.h + [S.Exec(im, g.h[n], false)], g.lost + [false], true, true, me, wb)
    else Ghost(g.h, g.lost, false, true, me, wb)
  }

  function NextGhost(latency: nat, im: Bytes, s: Cpu, g: Ghost): (g': Ghost)
    requires |g.h| == |g.lost| + 1 && ChainOk(g) && (!g.ex ==> s.ex.inst == 0)
    ensures |g'.h| == |g'.lost| + 1
  {
    assert Flush(s) ==> g.ex by { BubbleIsInert(0); }
    Advance(im, g, Flush(s), StallMA(latency, s), StallDH(s))
  }

  lemma NextIsAdvance(latency: nat, im: Bytes, s: Cpu, g: Ghost)
    requires |g.h| == |g.lost| + 1 && ChainOk(g) && (!g.ex ==> s.ex.inst == 0)
    ensures Flush(s) ==> g.ex
    ensures NextGhost(latency, im, s, g) == Advance(im, g, Flush(s), StallMA(latency, s), StallDH(s))
  {
    BubbleIsInert(0);
  }

  lemma GhostBounds(im: Bytes, data: Bytes, g: Ghost)
    requires GhostOk(im, data, g)
    ensures 0 <= Oldest(g) <= AfterWb(g) <= AfterMe(g) <= |g.lost| < |g.h|
  {
  }
  /** What the record needs to be advanced. */
  lemma GhostShape(latency: nat, im: Bytes, data: Bytes, s: Cpu, g: Ghost)
    requires Inv(latency, im, data, s, g)
    ensures GhostOk(im, data, g) && |g.h| == |g.lost| + 1 && ChainOk(g) && (!g.ex ==> s.ex.inst == 0)
  {
    hide ExOk, MeOk, WbOk, RegsOk, MemOk, Ran;
  }

  lemma ExecZeroesX0(im: Bytes, a: S.Arch, lost: bool)
    requires a.regs[0] == 0
    ensures S.Exec(im, a, lost).regs[0] == 0
  {
    hide S.NextPc, S.MemAfter, S.Result, WritesRd, Rd, S.Inst;
  }

  lemma HistoryStep(im: Bytes, data: Bytes, g: Ghost, flush: bool, ma: bool, dh: bool)
    requires GhostOk(im, data, g) && (flush ==> g.ex)
    ensures var g' := Advance(im, g, flush, ma, dh);
            && IsHistory(im, data, g'.h, g'.lost)
            && |g'.lost| >= |g.lost|
            && forall i :: 0 <= i < |g.lost| ==> g'.h[i] == g.h[i]
  {
    hide S.Exec;
    var g' := Advance(im, g, flush, ma, dh);
    var n := |g.lost|;
    forall i ensures Ran(im, g'.h, g'.lost, i) { assert Ran(im, g.h, g.lost, i); }
    if n > 0 { ExecZeroesX0(im, g.h[n - 1], true); }
    ExecZeroesX0(im, g.h[n], false);
  }

  lemma ChainStep(im: Bytes, data: Bytes, g: Ghost, flush: bool, ma: bool, dh: bool)
    requires GhostOk(im, data, g) && (flush ==> g.ex) && (ma ==> g.me >= 0)
    ensures ChainOk(Advance(im, g, flush, ma, dh))
  {
    hide S.NextPc, S.RegsAfter, S.MemAfter;
  }

  // ----- EXE against the sequential machine -----

  /** What EXE computes for a real instruction is what the sequential machine computes for it. */
  lemma ExComputes(im: Bytes, s: Cpu, a: S.Arch)
    requires s.ex.inst == S.Inst(im, a) && s.ex.pc == a.pc && s.ex.imm == Imm(s.ex.inst)
    requires UsesRs1(s.ex.inst) ==> s.ex.rs1 == S.Op1(im, a)
    requires UsesRs2(s.ex.inst) ==> s.ex.rs2 == S.Op2(im, a)
    ensures WritesRd(s.ex.inst) || IsMem(s.ex.inst) || IsControl(s.ex.inst) ==> ExAlu(s) == S.AluResult(im, a)
    ensures BranchTaken(s.ex.inst, s.ex.rs1, s.ex.rs2) == BranchTaken(s.ex.inst, S.Op1(im, a), S.Op2(im, a))
    ensures IsStore(s.ex.inst) ==> s.ex.rs2 == S.Op2(im, a)
  {
    hide Rd, Rs1, Rs2, Funct3, Fetch, ImmGen, ImmSel, AluOut, BranchTaken, Low15;
    UnusedOperands(s.ex.inst, s.ex.pc, s.ex.imm, s.ex.rs1, s.ex.rs2, S.Op1(im, a), S.Op2(im, a));
  }

  /** A real instruction in EXE flushes exactly when it transfers away from the next word; then the
      target is the next instruction of the trace, and otherwise ID holds it. */
  lemma ExMatches(im: Bytes, s: Cpu, g: Ghost)
    requires |g.h| == |g.lost| + 1 && ChainOk(g) && FrontOk(im, s, g) && ExOk(im, s, g)
    requires g.ex && Ran(im, g.h, g.lost, |g.lost| - 1)
    ensures var n := |g.lost|;
            var a := g.h[n - 1];
            && n >= 1 && g.h[n] == S.Exec(im, a, false)
            && (Flush(s) <==> S.Away(im, a))
            && (if Flush(s) then ExTarget(s) else s.id.pc) == g.h[n].pc
            && S.Exec(im, a, true).pc == g.h[n].pc
  {
    hide Plus4, Opcode, Rd, Rs1, Rs2, Funct3, Fetch, ImmGen, ImmSel, AluOut, BranchTaken, Low15, S.RegsAfter,
      S.MemAfter, S.Op1, S.Op2, S.AluResult, ExAlu, WritesRd, IsMem, IsControl, IsStore, IsLoad, UsesRs1,
      UsesRs2, Imm, S.Inst;
    var a := g.h[|g.lost| - 1];
    ExComputes(im, s, a);
  }

  lemma BubbleNeverFlushes(s: Cpu)
    requires s.ex.inst == 0
    ensures !Flush(s)
  {
    BubbleIsInert(0);
  }

  // ----- Hazard completeness -----

  predicate Writes(inst: Word, r: bv5) {
    WritesRd(inst) && Rd(inst) != 0 && Rd(inst) == r
  }

  lemma ExecKeepsReg(im: Bytes, a: S.Arch, r: bv5)
    requires a.regs[0] == 0 && !Writes(S.Inst(im, a), r)
    ensures ReadReg(S.Exec(im, a, false).regs, r) == ReadReg(a.regs, r)
  {
    hide Opcode, Rd, Fetch, S.Result, S.MemAfter, S.NextPc;
  }

  /** The instructions in EXE, MEM and WB are those of the record. */
  lemma StageInsts(latency: nat, im: Bytes, data: Bytes, s: Cpu, g: Ghost)
    requires Inv(latency, im, data, s, g)
    ensures g.ex ==> s.ex.inst == S.Inst(im, g.h[|g.lost| - 1])
    ensures g.me >= 0 ==> s.me.inst == S.Inst(im, g.h[g.me])
    ensures g.wb >= 0 ==> s.wb.inst == S.Inst(im, g.h[g.wb])
    ensures s.regs == g.h[Oldest(g)].regs
  {
    hide Opcode, Fetch, MemOk, IsHistory, S.AluResult, S.Result, WbData, S.Op1, S.Op2, WritesRd, IsMem, UsesRs1,
      UsesRs2, Imm;
  }

  lemma RegKept(im: Bytes, data: Bytes, g: Ghost, i: nat, r: bv5)
    requires IsHistory(im, data, g.h, g.lost) && i < |g.lost| && !g.lost[i] && !Writes(S.Inst(im, g.h[i]), r)
    ensures ReadReg(g.h[i + 1].regs, r) == ReadReg(g.h[i].regs, r)
  {
    hide S.Exec, S.Inst, Writes, ReadReg;
    assert Ran(im, g.h, g.lost, i);
    ExecKeepsReg(im, g.h[i], r);
  }

  /** Along the record a register changes only where an instruction in flight writes it. */
  lemma RegAlong(im: Bytes, data: Bytes, g: Ghost, r: bv5)
    requires GhostOk(im, data, g)
    requires g.ex ==> !Writes(S.Inst(im, g.h[|g.lost| - 1]), r)
    requires g.me >= 0 ==> !Writes(S.Inst(im, g.h[g.me]), r)
    requires g.wb >= 0 ==> !Writes(S.Inst(im, g.h[g.wb]), r)
    ensures ReadReg(g.h[Oldest(g)].regs, r) == ReadReg(g.h[|g.lost|].regs, r)
  {
    hide S.Inst, Writes, ReadReg, IsHistory;
    if g.wb >= 0 { RegKept(im, data, g, g.wb, r); }
    if g.me >= 0 { RegKept(im, data, g, g.me, r); }
    if g.ex { RegKept(im, data, g, |g.lost| - 1, r); }
  }

  /** A register no in-flight instruction writes already holds the value the sequential machine has
      before the next instruction to enter EXE. */
  lemma OperandIsCurrent(latency: nat, im: Bytes, data: Bytes, s: Cpu, g: Ghost, r: bv5)
    requires Inv(latency, im, data, s, g)
    requires !Writes(s.ex.inst, r) && !Writes(s.me.inst, r) && !Writes(s.wb.inst, r)
    ensures ReadReg(s.regs, r) == ReadReg(g.h[|g.lost|].regs, r)
  {
    hide Writes, ReadReg, S.Inst, FrontOk, ExOk, MeOk, WbOk, RegsOk, MemOk, IsHistory, Same;
    StageInsts(latency, im, data, s, g);
    RegAlong(im, data, g, r);
  }

  /** Hazard completeness: when nothing stalls or flushes ID, the instruction there is the next one of
      the trace, and every operand it uses reads as in the sequential machine, although the register
      file has no bypass. */
  lemma CapturedOperands(latency: nat, im: Bytes, data: Bytes, s: Cpu, g: Ghost)
    requires Inv(latency, im, data, s, g)
    requires g.id && !Flush(s) && !StallDH(s)
    ensures var a := g.h[|g.lost|];
            && s.id.pc == a.pc && s.id.inst == S.Inst(im, a)
            && (UsesRs1(s.id.inst) ==> ReadReg(s.regs, Rs1(s.id.inst)) == S.Op1(im, a))
            && (UsesRs2(s.id.inst) ==> ReadReg(s.regs, Rs2(s.id.inst)) == S.Op2(im, a))
  {
    hide Plus4, Opcode, Fetch, S.Exec, MeOk, WbOk, RegsOk, MemOk, ReadReg, Rd, Rs1, Rs2, WritesRd, UsesRs1, UsesRs2,
      Ran, Flush, S.Away;
    var id := s.id.inst;
    if g.ex { assert Ran(im, g.h, g.lost, |g.lost| - 1); ExMatches(im, s, g); }
    if UsesRs1(id) { OperandIsCurrent(latency, im, data, s, g, Rs1(id)); }
    if UsesRs2(id) { OperandIsCurrent(latency, im, data, s, g, Rs2(id)); }
  }

  /** What retires in a cycle is the instruction in WB and a lost one right behind it. */
  lemma RetireStep(im: Bytes, data: Bytes, g: Ghost, flush: bool, ma: bool, dh: bool)
    requires GhostOk(im, data, g) && (flush ==> g.ex) && (ma ==> g.me >= 0)
    ensures Oldest(Advance(im, g, flush, ma, dh)) == AfterWb(g)
    ensures !ma ==> AfterWb(Advance(im, g, flush, ma, dh)) == AfterMe(g)
  {
    hide S.Exec, IsHistory, Same;
  }

  // ----- One cycle keeps the invariant, part by part -----

  lemma GhostStep(latency: nat, im: Bytes, data: Bytes, s: Cpu, g: Ghost)
    requires Inv(latency, im, data, s, g)
    ensures var g' := NextGhost(latency, im, s, g);
            && GhostOk(im, data, g')
            && |g'.lost| >= |g.lost|
            && (forall i :: 0 <= i < |g.lost| ==> g'.h[i] == g.h[i])
            && (Flush(s) ==> g.ex)
  {
    hide Advance, IsHistory, ExOk, WbOk, MemOk, RegsOk, Flush, StallDH, Plus4, Fetch, AfterMe, AfterWb;
    if !g.ex { BubbleNeverFlushes(s); }
    BubbleIsInert(0);
    HistoryStep(im, data, g, Flush(s), StallMA(latency, s), StallDH(s));
    ChainStep(im, data, g, Flush(s), StallMA(latency, s), StallDH(s));
  }

  lemma FrontStep(latency: nat, im: Bytes, data: Bytes, s: Cpu, g: Ghost)
    requires latency > 0 && Inv(latency, im, data, s, g) && !Hcf(s)
    ensures FrontOk(im, Step(latency, im, s), NextGhost(latency, im, s, g))
  {
    hide Plus4, Opcode, Overlap, Fetch, S.Exec, IsControl, BranchTaken, ExTarget, MeOk, WbOk, RegsOk, MemOk, ReadReg,
      NextMe, NextWb, NextRf, MemRequest, DataMem.Next, IsHcf, IsMem, ImmGen, ImmSel;
    BubbleIsInert(0);
    if g.ex {
      assert Ran(im, g.h, g.lost, |g.lost| - 1);
      ExMatches(im, s, g);
    } else {
      BubbleNeverFlushes(s);
    }
  }

  lemma ExStep(latency: nat, im: Bytes, data: Bytes, s: Cpu, g: Ghost)
    requires latency > 0 && Inv(latency, im, data, s, g) && !Hcf(s)
    ensures ExOk(im, Step(latency, im, s), NextGhost(latency, im, s, g))
  {
    hide Plus4, Opcode, Fetch, S.Exec, IsControl, BranchTaken, ExTarget, MeOk, WbOk, RegsOk, MemOk, ReadReg, StallMA,
      NextMe, NextWb, NextRf, MemRequest, DataMem.Next, IsHcf, IsMem, Imm, Rd, Rs1, Rs2, NextIf, NextId,
      WritesRd, UsesRs1, UsesRs2, Ran, StallDH, Flush, IsHistory;
    if !Flush(s) && !StallMA(latency, s) && !StallDH(s) && g.id {
      CapturedOperands(latency, im, data, s, g);
    }
  }

  lemma MeStep(latency: nat, im: Bytes, data: Bytes, s: Cpu, g: Ghost)
    requires latency > 0 && Inv(latency, im, data, s, g) && !Hcf(s)
    ensures GhostOk(im, data, NextGhost(latency, im, s, g))
    ensures MeOk(im, Step(latency, im, s), NextGhost(latency, im, s, g))
  {
    hide Plus4, Opcode, Fetch, S.Exec, IsControl, BranchTaken, ExTarget, WbOk, RegsOk, MemOk, ReadReg, IsStore,
      NextEx, NextWb, NextRf, MemRequest, DataMem.Next, IsHcf, IsMem, ImmGen, ImmSel, Rd, Rs1, Rs2, NextIf, NextId,
      WritesRd, UsesRs1, UsesRs2, Ran, Overlap, S.AluResult, S.Op2, S.Op1, ExAlu;
    GhostStep(latency, im, data, s, g);
    if g.ex { ExComputes(im, s, g.h[|g.lost| - 1]); }
  }

  lemma WbStep(latency: nat, im: Bytes, data: Bytes, s: Cpu, g: Ghost)
    requires latency > 0 && Inv(latency, im, data, s, g) && !Hcf(s)
    ensures GhostOk(im, data, NextGhost(latency, im, s, g))
    ensures WbOk(im, Step(latency, im, s), NextGhost(latency, im, s, g))
  {
    hide Plus4, Opcode, Fetch, S.Exec, IsControl, BranchTaken, ExTarget, RegsOk, ReadReg,
      NextEx, NextRf, DataMem.Next, DataMem.LoadValue, IsHcf, ImmGen, ImmSel, Rd, Rs1, Rs2, NextIf, NextId,
      WritesRd, UsesRs1, UsesRs2, Ran, Overlap, S.AluResult, S.Op2, S.Op1, ExAlu, IsStore, IsJump,
      Low15, Length;
    GhostStep(latency, im, data, s, g);
    BubbleIsInert(0);
  }

  /** The register file after the edge is the sequential one once the instruction in WB is done. */
  lemma CommitWb(latency: nat, im: Bytes, data: Bytes, s: Cpu, g: Ghost)
    requires Inv(latency, im, data, s, g)
    ensures NextRf(s) == g.h[AfterWb(g)].regs
  {
    hide Plus4, Opcode, Fetch, S.NextPc, S.MemAfter, MemOk, MeOk, FrontOk, ExOk, Rd, WritesRd, WbData, S.Result;
    BubbleIsInert(0);
    if g.wb >= 0 {
      assert Ran(im, g.h, g.lost, g.wb);
    } else {
      assert NextRf(s) == s.regs;
    }
  }

  /** Whatever enters EXE next, the trace points between the remaining slots have the same effects. */
  lemma RegsStep(latency: nat, im: Bytes, data: Bytes, s: Cpu, g: Ghost)
    requires latency > 0 && Inv(latency, im, data, s, g) && !Hcf(s)
    ensures GhostOk(im, data, NextGhost(latency, im, s, g))
    ensures RegsOk(Step(latency, im, s), NextGhost(latency, im, s, g))
  {
    hide Plus4, Fetch, ExTarget, MemOk, NextRf, StallMA, StallDH, Flush, S.Inst, S.NextPc, S.RegsAfter, S.MemAfter,
      NextEx, NextWb, NextMe, MemRequest, DataMem.Next, IsHcf, NextIf, NextId, ExOk, IsMem, WritesRd, IsStore, Ran,
      S.AluResult, S.Op2;
    GhostStep(latency, im, data, s, g);
    CommitWb(latency, im, data, s, g);
  }

  /** Memory effects around a cycle: a waiting MEM slot keeps its place, an advancing one is done. */
  lemma MemView(im: Bytes, data: Bytes, g: Ghost, flush: bool, ma: bool, dh: bool)
    requires GhostOk(im, data, g) && (flush ==> g.ex) && (ma ==> g.me >= 0)
    requires ChainOk(Advance(im, g, flush, ma, dh))
    ensures var g' := Advance(im, g, flush, ma, dh);
            if ma then
              && g'.wb < 0 && g'.me == g.me
              && g'.h[g.me] == g.h[g.me] && g'.h[g.me + 1] == g.h[g.me + 1]
            else g'.h[AfterWb(g')].mem == g.h[if g.me >= 0 then g.me + 1 else AfterWb(g)].mem
  {
    hide S.Exec;
  }

  /** While MEM waits, the memory goes on serving the same request. */
  lemma MemWaits(latency: nat, im: Bytes, data: Bytes, s: Cpu, g: Ghost)
    requires latency > 0 && Inv(latency, im, data, s, g) && !Hcf(s) && StallMA(latency, s)
    ensures GhostOk(im, data, NextGhost(latency, im, s, g))
    ensures MemOk(latency, im, Step(latency, im, s), NextGhost(latency, im, s, g))
  {
    hide Plus4, Opcode, Fetch, S.Exec, IsControl, BranchTaken, ReadReg, NextRf, NextEx, NextIf, NextId,
      WbOk, RegsOk, FrontOk, ExOk, WritesRd, IsHcf, S.AluResult, S.Op2, StallDH, Length, Low15, Flush, Advance, S.Inst,
      NextWb, ExAlu, S.Result, DataMem.Next, DataMem.StoreBytes, DataMem.LoadValue;
    GhostStep(latency, im, data, s, g);
    DataMem.ServingStep(latency, s.dm, MemRequest(s), g.h[AfterWb(g)].mem);
    BubbleIsInert(0);
    MemView(im, data, g, Flush(s), true, StallDH(s));
  }

  /** What the memory holds when MEM moves on: it is idle, with the effect of what was there. */
  lemma ServedMem(latency: nat, im: Bytes, data: Bytes, s: Cpu, g: Ghost)
    requires latency > 0 && Inv(latency, im, data, s, g) && !StallMA(latency, s)
    ensures var m := DataMem.Next(latency, s.dm, MemRequest(s));
            && m.state == DataMem.Idle && m.counter == 0
            && 0 <= AfterWb(g) < |g.h| && g.me + 1 < |g.h|
            && m.bytes == g.h[if g.me >= 0 then g.me + 1 else AfterWb(g)].mem
  {
    hide Plus4, Opcode, Fetch, S.NextPc, S.RegsAfter, WbOk, RegsOk, FrontOk, ExOk, WritesRd, S.AluResult, S.Op2,
      Length, Low15, S.Inst, S.Result, DataMem.Next, DataMem.StoreBytes, DataMem.LoadValue, Same;
    DataMem.ServingStep(latency, s.dm, MemRequest(s), g.h[AfterWb(g)].mem);
    BubbleIsInert(0);
    if g.me >= 0 { assert Ran(im, g.h, g.lost, g.me); }
  }

  lemma MemAdvances(latency: nat, im: Bytes, data: Bytes, s: Cpu, g: Ghost)
    requires latency > 0 && Inv(latency, im, data, s, g) && !Hcf(s) && !StallMA(latency, s)
    ensures GhostOk(im, data, NextGhost(latency, im, s, g))
    ensures MemOk(latency, im, Step(latency, im, s), NextGhost(latency, im, s, g))
  {
    hide MemRequest, ReadReg, NextRf, NextEx, NextIf, NextId, NextMe, NextWb, WbOk, RegsOk, FrontOk, ExOk, MeOk,
      MemOk, StallMA, StallDH, Flush, Advance, Hcf, DataMem.Next, AfterWb, IsHistory, ChainOk;
    GhostShape(latency, im, data, s, g);
    GhostStep(latency, im, data, s, g);
    ServedMem(latency, im, data, s, g);
    NextIsAdvance(latency, im, s, g);
    MemView(im, data, g, Flush(s), false, StallDH(s));
    GhostBounds(im, data, NextGhost(latency, im, s, g));
    IdleServes(latency, im, Step(latency, im, s), NextGhost(latency, im, s, g));
  }

  /** An idle memory serves anything. */
  lemma IdleServes(latency: nat, im: Bytes, s: Cpu, g: Ghost)
    requires |g.h| == |g.lost| + 1 && ChainOk(g) && 0 <= AfterWb(g) < |g.h|
    requires s.dm.state == DataMem.Idle && s.dm.counter == 0 && s.dm.bytes == g.h[AfterWb(g)].mem
    ensures MemOk(latency, im, s, g)
  {
    hide MemRequest, DataMem.LoadValue, DataMem.StoreBytes, ChainOk, AfterWb;
  }

  lemma MemStep(latency: nat, im: Bytes, data: Bytes, s: Cpu, g: Ghost)
    requires latency > 0 && Inv(latency, im, data, s, g) && !Hcf(s)
    ensures GhostOk(im, data, NextGhost(latency, im, s, g))
    ensures MemOk(latency, im, Step(latency, im, s), NextGhost(latency, im, s, g))
  {
    hide Inv, Step, NextGhost, GhostOk, MemOk, StallMA;
    if StallMA(latency, s) { MemWaits(latency, im, data, s, g); } else { MemAdvances(latency, im, data, s, g); }
  }

  /** Every cycle before HCF keeps the invariant. */
  lemma StepKeepsInv(latency: nat, im: Bytes, data: Bytes, s: Cpu, g: Ghost)
    requires latency > 0 && Inv(latency, im, data, s, g) && !Hcf(s)
    ensures Inv(latency, im, data, Step(latency, im, s), NextGhost(latency, im, s, g))
  {
    hide Step, NextGhost, FrontOk, ExOk, MeOk, WbOk, RegsOk, MemOk, GhostOk, ChainOk;
    GhostStep(latency, im, data, s, g);
    FrontStep(latency, im, data, s, g);
    ExStep(latency, im, data, s, g);
    MeStep(latency, im, data, s, g);
    WbStep(latency, im, data, s, g);
    RegsStep(latency, im, data, s, g);
    MemStep(latency, im, data, s, g);
  }
}
