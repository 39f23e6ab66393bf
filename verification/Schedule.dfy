/** The exact schedule of the pipeline for every program: in which cycles each instruction of the trace is
    in EXE, MEM and WB, and which of them are lost. */
module Schedule {
  import opened Words
  import opened RiscvDefs
  import opened Datapath
  import opened Controller
  import opened Pipeline
  import opened Refinement
  import opened LostLinks
  import opened PipelineRuns
  import DataMem
  import S = Sequential

  /** First and last cycle in EXE, last cycle in which MEM is taken by this or an older instruction, and
      whether the instruction leaves EXE without reaching MEM. */
  datatype Row = Row(enter: int, exit: int, done: int, lost: bool)

  /** The law, for instruction i of a trace with states h. It enters EXE one cycle behind its predecessor,
      if every result it reads has left WB by then; otherwise once those have and MEM is free; behind a
      transfer elsewhere once MEM is free and the front end has refilled. It leaves EXE when MEM is free,
      or at once if it transfers elsewhere: then it is lost if MEM was not. */
  function RowOf(latency: nat, im: Bytes, h: seq<S.Arch>, i: nat): Row
    requires i < |h|
    decreases i, i + 1
  {
    var busy := if i == 0 then 0 else RowOf(latency, im, h, i - 1).done;
    var enter :=
      if i == 0 then 2
      else
        var p, deps := RowOf(latency, im, h, i - 1), Deps(latency, im, h, i, i);
        if S.Away(im, h[i - 1]) then Max(p.done + 2, deps + 1)
        else if deps <= p.exit then p.exit + 1
        else Max(p.done, deps) + 1;
    var away := S.Away(im, h[i]);
    var exit := if away then enter else Max(enter, busy);
    var lost := away && enter < busy;
    Row(enter, exit, if lost then busy else exit + (if IsMem(S.Inst(im, h[i])) then latency else 1), lost)
  }

  /** First cycle in which none of the first j instructions blocks ID for instruction i. */
  function Deps(latency: nat, im: Bytes, h: seq<S.Arch>, i: nat, j: nat): int
    requires j <= i < |h|
    decreases i, j
  {
    if j == 0 then 0
    else
      var r := RowOf(latency, im, h, j - 1);
      Max(Deps(latency, im, h, i, j - 1),
          if !r.lost && Overlap(S.Inst(im, h[i]), S.Inst(im, h[j - 1])) then r.done + 2 else 0)
  }

  // ----- The law on its own -----

  lemma RowFacts(latency: nat, im: Bytes, h: seq<S.Arch>, i: nat)
    requires latency > 0 && i < |h|
    ensures var r := RowOf(latency, im, h, i);
            && r.enter <= r.exit && (S.Away(im, h[i]) ==> r.exit == r.enter) && (r.lost ==> S.Away(im, h[i]))
            && (!r.lost ==> r.done == r.exit + (if IsMem(S.Inst(im, h[i])) then latency else 1))
            && (i == 0 ==> r.enter == 2 && !r.lost && r.exit == 2)
            && (i > 0 ==>
                  var p := RowOf(latency, im, h, i - 1);
                  && (r.lost <==> S.Away(im, h[i]) && r.enter < p.done) && (r.lost ==> r.done == p.done)
                  && (!S.Away(im, h[i]) ==> r.exit == Max(r.enter, p.done)))
  {
    hide S.Away, Deps, Overlap, IsMem, S.Inst;
  }

  lemma EnterIs(latency: nat, im: Bytes, h: seq<S.Arch>, i: nat)
    requires 0 < i < |h|
    ensures var r, p, deps := RowOf(latency, im, h, i), RowOf(latency, im, h, i - 1), Deps(latency, im, h, i, i);
            r.enter == if S.Away(im, h[i - 1]) then Max(p.done + 2, deps + 1)
                       else if deps <= p.exit then p.exit + 1
                       else Max(p.done, deps) + 1
  {
    hide S.Away, Deps, Overlap, IsMem, S.Inst;
  }

  lemma {:induction false} RowsAdvance(latency: nat, im: Bytes, h: seq<S.Arch>, i: nat)
    requires latency > 0 && i < |h|
    ensures var r := RowOf(latency, im, h, i);
            && r.exit < r.done
            && (i > 0 ==>
                  var p := RowOf(latency, im, h, i - 1);
                  && p.exit < r.enter && p.done <= r.done && (!r.lost ==> p.done <= r.exit)
                  && (S.Away(im, h[i - 1]) ==> p.done + 2 <= r.enter) && (p.lost ==> !r.lost))
  {
    hide S.Away, Deps, Overlap, IsMem, S.Inst, RowOf;
    RowFacts(latency, im, h, i);
    if i > 0 {
      RowsAdvance(latency, im, h, i - 1);
      RowFacts(latency, im, h, i - 1);
      EnterIs(latency, im, h, i);
    }
  }

  lemma {:induction false} RowsApart(latency: nat, im: Bytes, h: seq<S.Arch>, j: nat, k: nat)
    requires latency > 0 && j < k < |h|
    ensures var q, r := RowOf(latency, im, h, j), RowOf(latency, im, h, k);
            && q.exit < r.enter && q.done <= r.done && (!r.lost ==> q.done <= r.exit)
    decreases k
  {
    hide S.Away, RowOf;
    RowsAdvance(latency, im, h, k);
    RowsAdvance(latency, im, h, k - 1);
    RowFacts(latency, im, h, k - 1);
    if j < k - 1 { RowsApart(latency, im, h, j, k - 1); }
  }

  /** A row depends on the states up to its own instruction only. */
  lemma {:induction false} RowPrefix(latency: nat, im: Bytes, h: seq<S.Arch>, h': seq<S.Arch>, i: nat)
    requires i < |h| && i < |h'| && h[..i + 1] == h'[..i + 1]
    ensures RowOf(latency, im, h, i) == RowOf(latency, im, h', i)
    decreases i, i + 1
  {
    hide S.Away, Overlap, IsMem, S.Inst, Deps;
    assert h[i] == h[..i + 1][i] == h'[i];
    if i > 0 {
      assert h[i - 1] == h[..i + 1][i - 1] == h'[i - 1];
      assert h[..i] == h[..i + 1][..i] == h'[..i];
      RowPrefix(latency, im, h, h', i - 1);
      DepsPrefix(latency, im, h, h', i, i);
    }
  }

  lemma {:induction false} DepsPrefix(latency: nat, im: Bytes, h: seq<S.Arch>, h': seq<S.Arch>, i: nat, j: nat)
    requires j <= i < |h| && i < |h'| && h[..i + 1] == h'[..i + 1]
    ensures Deps(latency, im, h, i, j) == Deps(latency, im, h', i, j)
    decreases i, j
  {
    hide RowOf, Overlap, S.Inst;
    if j > 0 {
      assert h[i] == h[..i + 1][i] == h'[i];
      assert h[j - 1] == h[..i + 1][j - 1] == h'[j - 1];
      assert h[..j] == h[..i + 1][..j] == h'[..j];
      RowPrefix(latency, im, h, h', j - 1);
      DepsPrefix(latency, im, h, h', i, j - 1);
    }
  }

  /** Instruction k blocks instruction i in ID in cycle c. */
  predicate Blocks(latency: nat, im: Bytes, h: seq<S.Arch>, i: nat, k: nat, c: int)
    requires k < i < |h|
  {
    var r := RowOf(latency, im, h, k);
    !r.lost && Overlap(S.Inst(im, h[i]), S.Inst(im, h[k])) && c < r.done + 2
  }

  lemma {:induction false} DepsAbove(latency: nat, im: Bytes, h: seq<S.Arch>, i: nat, j: nat, k: nat, c: int)
    requires k < j <= i < |h| && Blocks(latency, im, h, i, k, c)
    ensures c < Deps(latency, im, h, i, j)
  {
    hide RowOf, Overlap, S.Inst;
    if k < j - 1 { DepsAbove(latency, im, h, i, j - 1, k, c); }
  }

  lemma {:induction false} DepsBelow(latency: nat, im: Bytes, h: seq<S.Arch>, i: nat, j: nat, c: int)
    requires j <= i < |h| && c >= 0
    requires forall k: nat :: k < j ==> !Blocks(latency, im, h, i, k, c)
    ensures Deps(latency, im, h, i, j) <= c
  {
    hide RowOf, Overlap, S.Inst;
    if j > 0 {
      assert !Blocks(latency, im, h, i, j - 1, c);
      DepsBelow(latency, im, h, i, j - 1, c);
    }
  }

  lemma TransfersAreNotMem(im: Bytes, a: S.Arch)
    requires S.Away(im, a)
    ensures !IsMem(S.Inst(im, a))
  {
    ControlIsNotMem(S.Inst(im, a));
  }

  // ----- The pipeline keeps to the law -----

  predicate InMem(latency: nat, im: Bytes, g: Ghost, j: nat, c: int)
    requires j < |g.h|
  {
    var r := RowOf(latency, im, g.h, j);
    !r.lost && r.exit < c <= r.done
  }

  predicate InWb(latency: nat, im: Bytes, g: Ghost, j: nat, c: int)
    requires j < |g.h|
  {
    var r := RowOf(latency, im, g.h, j);
    !r.lost && c == r.done + 1
  }

  /** Instructions that have left EXE are lost exactly as the law says. */
  ghost predicate LossesLawful(latency: nat, im: Bytes, g: Ghost)
    requires |g.h| == |g.lost| + 1
  {
    forall i: nat :: i < AfterMe(g) && i < |g.lost| ==> g.lost[i] == RowOf(latency, im, g.h, i).lost
  }

  /** MEM and WB hold what the law puts there in cycle c. */
  ghost predicate BackLawful(latency: nat, im: Bytes, g: Ghost, c: int)
    requires |g.h| == |g.lost| + 1
  {
    var n := |g.lost|;
    && g.me < n && (g.me >= 0 ==> InMem(latency, im, g, g.me, c))
    && (forall j: nat :: j < n && InMem(latency, im, g, j, c) ==> g.me == j)
    && g.wb < n && (g.wb >= 0 ==> InWb(latency, im, g, g.wb, c))
    && (forall j: nat :: j < n && InWb(latency, im, g, j, c) ==> g.wb == j)
  }

  /** EXE, MEM and WB hold what the law puts there in cycle c. */
  ghost predicate SlotsLawful(latency: nat, im: Bytes, g: Ghost, c: nat)
    requires |g.h| == |g.lost| + 1
  {
    var n := |g.lost|;
    && (forall i: nat :: i < n ==> RowOf(latency, im, g.h, i).enter <= c)
    && c < RowOf(latency, im, g.h, n).enter
    && (g.ex <==> n > 0 && c <= RowOf(latency, im, g.h, n - 1).exit)
    && BackLawful(latency, im, g, c)
  }

  /** Where the front end is in refilling. */
  ghost predicate FrontLawful(latency: nat, im: Bytes, g: Ghost, c: nat)
    requires |g.h| == |g.lost| + 1
  {
    var n := |g.lost|;
    && (!g.id ==> if n == 0 then c == 0
                  else
                    && S.Away(im, g.h[n - 1])
                    && RowOf(latency, im, g.h, n - 1).exit < c <= RowOf(latency, im, g.h, n - 1).done)
    && (g.id && !g.ex ==> if n == 0 then c >= 1
                          else S.Away(im, g.h[n - 1]) ==> RowOf(latency, im, g.h, n - 1).done < c)
  }

  ghost predicate Lawful(latency: nat, im: Bytes, g: Ghost, c: nat)
    requires |g.h| == |g.lost| + 1
  {
    LossesLawful(latency, im, g) && SlotsLawful(latency, im, g, c) && FrontLawful(latency, im, g, c)
  }

  /** MEM waits in cycle c. */
  predicate Waits(latency: nat, im: Bytes, g: Ghost, c: int)
    requires g.me < |g.h|
  {
    g.me >= 0 && c < RowOf(latency, im, g.h, g.me).done
  }

  /** While MEM waits nothing younger gets past it. */
  lemma WaitsIsBusy(latency: nat, im: Bytes, g: Ghost, c: nat)
    requires latency > 0 && |g.h| == |g.lost| + 1 && SlotsLawful(latency, im, g, c) && Waits(latency, im, g, c)
    ensures var n := |g.lost|;
            && n > 0 && c < RowOf(latency, im, g.h, n - 1).done
            && (g.ex ==> n > 1 && g.me < n - 1 && c < RowOf(latency, im, g.h, n - 2).done)
  {
    hide RowOf, S.Away;
    var n := |g.lost|;
    if g.me < n - 1 { RowsApart(latency, im, g.h, g.me, n - 1); }
    if g.me < n - 2 { RowsApart(latency, im, g.h, g.me, n - 2); }
  }

  /** What keeps MEM busy behind an instruction in EXE is the one in front of it. */
  lemma BusyIsWaits(latency: nat, im: Bytes, g: Ghost, c: nat)
    requires latency > 0 && |g.h| == |g.lost| + 1 && SlotsLawful(latency, im, g, c)
    requires g.ex && |g.lost| > 1 && c < RowOf(latency, im, g.h, |g.lost| - 2).done
    ensures Waits(latency, im, g, c)
  {
    hide RowOf, S.Away;
    var n := |g.lost|;
    RowsAdvance(latency, im, g.h, n - 1);
    RowFacts(latency, im, g.h, n - 2);
    assert !RowOf(latency, im, g.h, n - 2).lost;
    assert InMem(latency, im, g, n - 2, c);
  }

  /** An instruction that stays in sequence leaves EXE in the first cycle in which MEM does not wait. */
  lemma ExitIsNow(latency: nat, im: Bytes, g: Ghost, c: nat)
    requires latency > 0 && |g.h| == |g.lost| + 1 && SlotsLawful(latency, im, g, c) && g.ex
    requires !S.Away(im, g.h[|g.lost| - 1])
    ensures RowOf(latency, im, g.h, |g.lost| - 1).exit == c <==> !Waits(latency, im, g, c)
  {
    hide RowOf, S.Away;
    var n := |g.lost|;
    RowFacts(latency, im, g.h, n - 1);
    if Waits(latency, im, g, c) {
      WaitsIsBusy(latency, im, g, c);
    } else if n > 1 && c < RowOf(latency, im, g.h, n - 2).done {
      BusyIsWaits(latency, im, g, c);
      assert false;
    }
  }

  /** A transfer elsewhere is lost exactly when MEM waits in its cycle. */
  lemma LostIsWaits(latency: nat, im: Bytes, g: Ghost, c: nat)
    requires latency > 0 && |g.h| == |g.lost| + 1 && SlotsLawful(latency, im, g, c) && g.ex
    requires S.Away(im, g.h[|g.lost| - 1])
    ensures var r := RowOf(latency, im, g.h, |g.lost| - 1);
            && r.enter == r.exit == c && (r.lost <==> Waits(latency, im, g, c))
            && (r.lost ==> c < r.done) && (!r.lost ==> r.done == c + 1)
  {
    hide RowOf, S.Away;
    var n := |g.lost|;
    RowFacts(latency, im, g.h, n - 1);
    RowsAdvance(latency, im, g.h, n - 1);
    TransfersAreNotMem(im, g.h[n - 1]);
    if Waits(latency, im, g, c) {
      WaitsIsBusy(latency, im, g, c);
    } else if n > 1 && c < RowOf(latency, im, g.h, n - 2).done {
      BusyIsWaits(latency, im, g, c);
      assert false;
    }
  }

  lemma RowsStay(latency: nat, im: Bytes, g: Ghost, h': seq<S.Arch>)
    requires |h'| >= |g.h| == |g.lost| + 1 && (forall i :: 0 <= i < |g.lost| ==> h'[i] == g.h[i])
    ensures forall i: nat :: i < |g.lost| ==> RowOf(latency, im, h', i) == RowOf(latency, im, g.h, i)
  {
    hide RowOf;
    forall i: nat | i < |g.lost| ensures RowOf(latency, im, h', i) == RowOf(latency, im, g.h, i) {
      assert h'[..i + 1] == g.h[..i + 1];
      RowPrefix(latency, im, g.h, h', i);
    }
  }

  function MeAfter(g: Ghost, ma: bool): int { if ma then g.me else if g.ex then |g.lost| - 1 else -1 }
  function WbAfter(g: Ghost, ma: bool): int { if ma then -1 else g.me }

  lemma OnlyExLeaves(latency: nat, im: Bytes, g: Ghost, c: nat, j: nat)
    requires latency > 0 && |g.h| == |g.lost| + 1 && SlotsLawful(latency, im, g, c)
    requires j < |g.lost| && RowOf(latency, im, g.h, j).exit == c
    ensures g.ex && j == |g.lost| - 1
  {
    hide RowOf;
    var n := |g.lost|;
    RowFacts(latency, im, g.h, n - 1);
    if j < n - 1 { RowsApart(latency, im, g.h, j, n - 1); }
  }

  /** What leaves EXE in this cycle reaches MEM unless MEM waits. */
  lemma ExLeaves(latency: nat, im: Bytes, g: Ghost, c: nat)
    requires latency > 0 && |g.h| == |g.lost| + 1 && SlotsLawful(latency, im, g, c) && g.ex
    ensures var r := RowOf(latency, im, g.h, |g.lost| - 1);
            !r.lost && r.exit == c <==> !Waits(latency, im, g, c)
  {
    hide RowOf, S.Away;
    RowFacts(latency, im, g.h, |g.lost| - 1);
    if S.Away(im, g.h[|g.lost| - 1]) { LostIsWaits(latency, im, g, c); } else { ExitIsNow(latency, im, g, c); }
  }

  /** MEM and WB one cycle later. */
  lemma BackMoves(latency: nat, im: Bytes, g: Ghost, c: nat, j: nat)
    requires latency > 0 && |g.h| == |g.lost| + 1 && SlotsLawful(latency, im, g, c) && j < |g.lost|
    ensures InMem(latency, im, g, j, c + 1) <==> j == MeAfter(g, Waits(latency, im, g, c))
    ensures InWb(latency, im, g, j, c + 1) <==> j == WbAfter(g, Waits(latency, im, g, c))
  {
    hide RowOf;
    var r := RowOf(latency, im, g.h, j);
    RowsAdvance(latency, im, g.h, j);
    if r.exit == c { OnlyExLeaves(latency, im, g, c, j); }
    if g.ex { ExLeaves(latency, im, g, c); }
    assert InMem(latency, im, g, j, c) ==> g.me == j;
  }

  /** One more cycle of the same trace. */
  ghost predicate NextSlots(latency: nat, im: Bytes, g: Ghost, g': Ghost, c: nat, ma: bool)
    requires |g.h| == |g.lost| + 1 && |g'.h| == |g'.lost| + 1
  {
    && |g'.lost| >= |g.lost| && (forall i :: 0 <= i < |g.lost| ==> g'.h[i] == g.h[i])
    && g'.me == MeAfter(g, ma) && g'.wb == WbAfter(g, ma)
  }

  lemma BackStep(latency: nat, im: Bytes, g: Ghost, g': Ghost, c: nat)
    requires latency > 0 && |g.h| == |g.lost| + 1 && |g'.h| == |g'.lost| + 1 && SlotsLawful(latency, im, g, c)
    requires NextSlots(latency, im, g, g', c, Waits(latency, im, g, c))
    requires |g'.lost| <= |g.lost| + 1
    requires |g'.lost| == |g.lost| + 1 ==> RowOf(latency, im, g'.h, |g.lost|).enter == c + 1
    ensures forall i: nat :: i < |g'.lost| ==> RowOf(latency, im, g'.h, i).enter <= c + 1
    ensures BackLawful(latency, im, g', c + 1)
  {
    hide RowOf, Waits;
    var d := c + 1;
    RowsStay(latency, im, g, g'.h);
    if |g'.lost| == |g.lost| + 1 {
      RowFacts(latency, im, g'.h, |g.lost|);
      RowsAdvance(latency, im, g'.h, |g.lost|);
    }
    forall j: nat | j < |g.lost|
      ensures InMem(latency, im, g', j, d) <==> j == g'.me
      ensures InWb(latency, im, g', j, d) <==> j == g'.wb
    {
      BackMoves(latency, im, g, c, j);
    }
  }

  // ----- One cycle, case by case -----

  /** A flush: the front end restarts, and the instruction is lost if MEM waits. */
  lemma FlushLawful(latency: nat, im: Bytes, g: Ghost, c: nat, dh: bool)
    requires latency > 0 && |g.h| == |g.lost| + 1 && ChainOk(g) && Lawful(latency, im, g, c)
    requires g.ex && S.Away(im, g.h[|g.lost| - 1])
    ensures Lawful(latency, im, Advance(im, g, true, Waits(latency, im, g, c), dh), c + 1)
  {
    hide RowOf, S.Exec, S.Away, Same, Waits;
    var n, ma := |g.lost|, Waits(latency, im, g, c);
    var g' := Advance(im, g, true, ma, dh);
    LostIsWaits(latency, im, g, c);
    BackStep(latency, im, g, g', c);
    RowsStay(latency, im, g, g'.h);
    RowsAdvance(latency, im, g'.h, n);
  }

  /** A memory wait: everything in front of WB stays. */
  lemma WaitLawful(latency: nat, im: Bytes, g: Ghost, c: nat, dh: bool)
    requires latency > 0 && |g.h| == |g.lost| + 1 && ChainOk(g) && Lawful(latency, im, g, c)
    requires Waits(latency, im, g, c) && (g.ex ==> !S.Away(im, g.h[|g.lost| - 1]))
    ensures Lawful(latency, im, Advance(im, g, false, true, dh), c + 1)
  {
    hide RowOf, S.Exec, S.Away, Same, Deps;
    var n := |g.lost|;
    var g' := Advance(im, g, false, true, dh);
    WaitsIsBusy(latency, im, g, c);
    BackStep(latency, im, g, g', c);
    if g.ex { ExitIsNow(latency, im, g, c); }
    EnterIs(latency, im, g.h, n);
    RowsAdvance(latency, im, g.h, n);
  }

  /** ID waits for a register: a bubble enters EXE. */
  lemma HazardLawful(latency: nat, im: Bytes, g: Ghost, c: nat)
    requires latency > 0 && |g.h| == |g.lost| + 1 && ChainOk(g) && Lawful(latency, im, g, c)
    requires !Waits(latency, im, g, c) && (g.ex ==> !S.Away(im, g.h[|g.lost| - 1]))
    requires g.id && c < Deps(latency, im, g.h, |g.lost|, |g.lost|)
    ensures Lawful(latency, im, Advance(im, g, false, false, true), c + 1)
  {
    hide RowOf, S.Exec, S.Away, Same, Waits;
    var n := |g.lost|;
    var g' := Advance(im, g, false, false, true);
    BackStep(latency, im, g, g', c);
    if g.ex { ExitIsNow(latency, im, g, c); ExLeaves(latency, im, g, c); }
    EnterIs(latency, im, g.h, n);
  }

  /** The next instruction enters EXE. */
  lemma EntryLawful(latency: nat, im: Bytes, g: Ghost, c: nat)
    requires latency > 0 && |g.h| == |g.lost| + 1 && ChainOk(g) && Lawful(latency, im, g, c)
    requires !Waits(latency, im, g, c) && (g.ex ==> !S.Away(im, g.h[|g.lost| - 1]))
    requires g.id && Deps(latency, im, g.h, |g.lost|, |g.lost|) <= c
    ensures Lawful(latency, im, Advance(im, g, false, false, false), c + 1)
  {
    hide RowOf, S.Exec, S.Away, Same, Deps;
    var n := |g.lost|;
    var g' := Advance(im, g, false, false, false);
    EntersNow(latency, im, g, c);
    RowsStay(latency, im, g, g'.h);
    assert g'.h[..n + 1] == g.h[..n + 1];
    RowPrefix(latency, im, g.h, g'.h, n);
    BackStep(latency, im, g, g', c);
    RowFacts(latency, im, g'.h, n);
    RowsAdvance(latency, im, g'.h, n + 1);
    if g.ex { ExLeaves(latency, im, g, c); }
  }

  lemma EntersNow(latency: nat, im: Bytes, g: Ghost, c: nat)
    requires latency > 0 && |g.h| == |g.lost| + 1 && Lawful(latency, im, g, c)
    requires !Waits(latency, im, g, c) && (g.ex ==> !S.Away(im, g.h[|g.lost| - 1]))
    requires g.id && Deps(latency, im, g.h, |g.lost|, |g.lost|) <= c
    ensures RowOf(latency, im, g.h, |g.lost|).enter == c + 1
  {
    hide RowOf, S.Away, Deps;
    var n := |g.lost|;
    RowFacts(latency, im, g.h, n);
    if n > 0 {
      EnterIs(latency, im, g.h, n);
      RowFacts(latency, im, g.h, n - 1);
      if g.ex { ExitIsNow(latency, im, g, c); }
      assert InMem(latency, im, g, n - 1, c) ==> g.me == n - 1;
    }
  }

  /** The front end refills. */
  lemma RefillLawful(latency: nat, im: Bytes, g: Ghost, c: nat)
    requires latency > 0 && |g.h| == |g.lost| + 1 && ChainOk(g) && Lawful(latency, im, g, c)
    requires !Waits(latency, im, g, c) && !g.id
    ensures Lawful(latency, im, Advance(im, g, false, false, false), c + 1)
  {
    hide RowOf, S.Exec, S.Away, Same, Deps;
    var n := |g.lost|;
    var g' := Advance(im, g, false, false, false);
    BackStep(latency, im, g, g', c);
    RowFacts(latency, im, g.h, n);
    if n > 0 {
      EnterIs(latency, im, g.h, n);
      RefilledNow(latency, im, g, c);
    }
  }

  lemma RefilledNow(latency: nat, im: Bytes, g: Ghost, c: nat)
    requires latency > 0 && |g.h| == |g.lost| + 1 && Lawful(latency, im, g, c)
    requires !Waits(latency, im, g, c) && !g.id && |g.lost| > 0
    ensures RowOf(latency, im, g.h, |g.lost| - 1).done == c
  {
    hide RowOf, S.Away;
    var n := |g.lost|;
    var r := RowOf(latency, im, g.h, n - 1);
    RowFacts(latency, im, g.h, n - 1);
    TransfersAreNotMem(im, g.h[n - 1]);
    if r.lost {
      RowFacts(latency, im, g.h, n - 2);
      RowsAdvance(latency, im, g.h, n - 1);
      assert InMem(latency, im, g, n - 2, c);
    }
  }

  /** Every cycle keeps to the law. */
  lemma LawfulStep(latency: nat, im: Bytes, g: Ghost, c: nat, flush: bool, dh: bool)
    requires latency > 0 && |g.h| == |g.lost| + 1 && ChainOk(g) && Lawful(latency, im, g, c)
    requires flush <==> g.ex && S.Away(im, g.h[|g.lost| - 1])
    requires g.id && !flush ==> (dh <==> c < Deps(latency, im, g.h, |g.lost|, |g.lost|))
    requires !g.id ==> !dh
    ensures Lawful(latency, im, Advance(im, g, flush, Waits(latency, im, g, c), dh), c + 1)
  {
    hide RowOf, S.Exec, S.Away, Advance, Deps, Waits, ChainOk, LossesLawful, FrontLawful;
    if flush {
      FlushLawful(latency, im, g, c, dh);
    } else if Waits(latency, im, g, c) {
      WaitLawful(latency, im, g, c, dh);
    } else if !g.id {
      RefillLawful(latency, im, g, c);
    } else if dh {
      HazardLawful(latency, im, g, c);
    } else {
      EntryLawful(latency, im, g, c);
    }
  }

  // ----- From the signals of a cycle to the law -----

  /** The memory counter counts the cycles the instruction in MEM has been there. */
  predicate Counts(latency: nat, im: Bytes, s: Cpu, g: Ghost, c: nat)
    requires g.me < |g.h|
  {
    g.me >= 0 && IsMem(s.me.inst) ==> s.dm.counter == c - RowOf(latency, im, g.h, g.me).exit - 1
  }

  lemma StallIsWaits(latency: nat, im: Bytes, data: Bytes, s: Cpu, g: Ghost, c: nat)
    requires Inv(latency, im, data, s, g) && SlotsLawful(latency, im, g, c) && Counts(latency, im, s, g, c)
    ensures StallMA(latency, s) <==> Waits(latency, im, g, c)
  {
    hide RowOf, IsHistory, FrontOk, ExOk, WbOk, RegsOk, MemOk, Opcode, Fetch, S.AluResult, S.Inst;
    BubbleIsInert(0);
    if g.me >= 0 { RowFacts(latency, im, g.h, g.me); }
  }

  /** ID holds the next instruction of the trace unless EXE sends the front end elsewhere. */
  lemma IdIsNext(latency: nat, im: Bytes, data: Bytes, s: Cpu, g: Ghost)
    requires Inv(latency, im, data, s, g) && g.id && !Flush(s)
    ensures s.id.inst == S.Inst(im, g.h[|g.lost|])
  {
    hide Opcode, Fetch, Plus4, MeOk, WbOk, RegsOk, MemOk, S.Exec, S.Away, Flush, S.AluResult;
    if g.ex { assert Ran(im, g.h, g.lost, |g.lost| - 1); ExMatches(im, s, g); }
  }

  predicate Holds(im: Bytes, s: Cpu, g: Ghost)
    requires |g.h| == |g.lost| + 1 && g.me < |g.h| && g.wb < |g.h|
  {
    && s.ex.inst == (if g.ex && g.lost != [] then S.Inst(im, g.h[|g.lost| - 1]) else 0)
    && s.me.inst == (if g.me >= 0 then S.Inst(im, g.h[g.me]) else 0)
    && s.wb.inst == (if g.wb >= 0 then S.Inst(im, g.h[g.wb]) else 0)
  }

  lemma StagesHold(latency: nat, im: Bytes, data: Bytes, s: Cpu, g: Ghost)
    requires Inv(latency, im, data, s, g)
    ensures g.me < |g.h| && g.wb < |g.h| && Holds(im, s, g)
  {
    hide Opcode, Fetch, IsHistory, RegsOk, MemOk, S.AluResult, WbData, S.Result;
  }

  /** ID stalls for a register exactly while the law says some instruction blocks it. */
  lemma HazardIsDeps(latency: nat, im: Bytes, s: Cpu, g: Ghost, c: nat)
    requires latency > 0 && |g.h| == |g.lost| + 1 && SlotsLawful(latency, im, g, c)
    requires g.me < |g.h| && g.wb < |g.h| && Holds(im, s, g) && s.id.inst == S.Inst(im, g.h[|g.lost|])
    requires g.ex ==> !S.Away(im, g.h[|g.lost| - 1])
    ensures StallDH(s) <==> c < Deps(latency, im, g.h, |g.lost|, |g.lost|)
  {
    hide RowOf, Deps, Overlap, S.Inst, S.Away;
    var n := |g.lost|;
    BubbleIsInert(s.id.inst);
    if g.ex { RowFacts(latency, im, g.h, n - 1); RowsAdvance(latency, im, g.h, n - 1); }
    if StallDH(s) {
      var k := if Overlap(s.id.inst, s.ex.inst) then n - 1 else if Overlap(s.id.inst, s.me.inst) then g.me else g.wb;
      assert Blocks(latency, im, g.h, n, k, c);
      DepsAbove(latency, im, g.h, n, n, k, c);
    } else {
      forall k: nat | k < n ensures !Blocks(latency, im, g.h, n, k, c) { NotBlocked(latency, im, s, g, c, k); }
      DepsBelow(latency, im, g.h, n, n, c);
    }
  }

  lemma NotBlocked(latency: nat, im: Bytes, s: Cpu, g: Ghost, c: nat, k: nat)
    requires latency > 0 && |g.h| == |g.lost| + 1 && SlotsLawful(latency, im, g, c) && k < |g.lost|
    requires g.me < |g.h| && g.wb < |g.h| && Holds(im, s, g) && s.id.inst == S.Inst(im, g.h[|g.lost|]) && !StallDH(s)
    ensures !Blocks(latency, im, g.h, |g.lost|, k, c)
  {
    hide RowOf, Overlap, S.Inst;
    var n := |g.lost|;
    if k < n - 1 { RowsApart(latency, im, g.h, k, n - 1); }
    assert InMem(latency, im, g, k, c) ==> g.me == k;
    assert InWb(latency, im, g, k, c) ==> g.wb == k;
  }

  /** The counter in the next cycle. */
  lemma CounterTicks(latency: nat, im: Bytes, data: Bytes, s: Cpu, g: Ghost)
    requires latency > 0 && Inv(latency, im, data, s, g) && StallMA(latency, s)
    ensures Step(latency, im, s).dm.counter == s.dm.counter + 1
  {
    hide FrontOk, ExOk, MeOk, WbOk, RegsOk, GhostOk, Opcode, Plus4, NextEx, NextMe, NextWb, NextRf, NextIf,
      NextId, AfterWb, Low15, Length, DataMem.LoadValue, DataMem.StoreBytes, DataMem.Bump;
    GhostBounds(im, data, g);
    DataMem.CounterFits(latency, s.dm.counter);
  }

  /** One cycle of the pipeline keeps to the law. */
  lemma CycleLawful(latency: nat, im: Bytes, data: Bytes, s: Cpu, g: Ghost, c: nat)
    requires latency > 0 && Full(latency, im, data, s, g) && !Hcf(s)
    requires g.me < |g.h| && Lawful(latency, im, g, c) && Counts(latency, im, s, g, c)
    ensures var g' := NextGhost(latency, im, s, g);
            Lawful(latency, im, g', c + 1) && g'.me < |g'.h| && Counts(latency, im, Step(latency, im, s), g', c + 1)
  {
    hide RowOf, S.Exec, S.Away, Advance, Deps, Waits, LossInv, NoHcfPassed, Opcode, Fetch, StallDH, Flush,
      StallMA, Step, Counts, LossesLawful, FrontLawful, BackLawful, MeOk, WbOk, RegsOk, MemOk, ExOk;
    var g' := NextGhost(latency, im, s, g);
    StagesHold(latency, im, data, s, g);
    StallIsWaits(latency, im, data, s, g, c);
    FlushIsAway(latency, im, data, s, g);
    if g.id && !Flush(s) {
      IdIsNext(latency, im, data, s, g);
      HazardIsDeps(latency, im, s, g, c);
    }
    IdleIdNeverStalls(latency, im, data, s, g);
    LawfulStep(latency, im, g, c, Flush(s), StallDH(s));
    NextIsAdvance(latency, im, s, g);
    CountsStep(latency, im, data, s, g, c);
  }

  lemma FlushIsAway(latency: nat, im: Bytes, data: Bytes, s: Cpu, g: Ghost)
    requires Inv(latency, im, data, s, g)
    ensures g.ex ==> |g.lost| > 0
    ensures !g.ex ==> s.ex.inst == 0
    ensures Flush(s) <==> g.ex && S.Away(im, g.h[|g.lost| - 1])
  {
    hide Opcode, Fetch, Plus4, MeOk, WbOk, RegsOk, MemOk, S.Exec, S.Away, Flush, S.AluResult, Ran;
    if g.ex { assert Ran(im, g.h, g.lost, |g.lost| - 1); ExMatches(im, s, g); } else { BubbleNeverFlushes(s); }
  }

  lemma IdleIdNeverStalls(latency: nat, im: Bytes, data: Bytes, s: Cpu, g: Ghost)
    requires Inv(latency, im, data, s, g)
    ensures !g.id ==> !StallDH(s)
  {
    hide Opcode, Fetch, Plus4, ExOk, MeOk, WbOk, RegsOk, MemOk, IsHistory, Overlap;
    BubbleIsInert(s.ex.inst);
    BubbleIsInert(s.me.inst);
    BubbleIsInert(s.wb.inst);
  }

  lemma CountsStep(latency: nat, im: Bytes, data: Bytes, s: Cpu, g: Ghost, c: nat)
    requires latency > 0 && Full(latency, im, data, s, g) && !Hcf(s)
             && (StallMA(latency, s) <==> Waits(latency, im, g, c))
    requires g.me < |g.h| && SlotsLawful(latency, im, g, c) && Counts(latency, im, s, g, c)
    ensures var g' := NextGhost(latency, im, s, g);
            g'.me < |g'.h| && Counts(latency, im, Step(latency, im, s), g', c + 1)
  {
    hide RowOf, S.Exec, S.Away, LossInv, NoHcfPassed, Opcode, Fetch, StallDH, Flush, StallMA, BackLawful, MeOk,
      WbOk, RegsOk, ExOk, NextEx, NextIf, NextId, NextWb, NextRf, DataMem.Next, Waits, IsMem, Same;
    var s', g' := Step(latency, im, s), NextGhost(latency, im, s, g);
    GhostStep(latency, im, data, s, g);
    StepKeepsInv(latency, im, data, s, g);
    RowsStay(latency, im, g, g'.h);
    IdleAfter(latency, im, data, s, g);
    if StallMA(latency, s) {
      CounterTicks(latency, im, data, s, g);
    } else if g.ex {
      ExLeaves(latency, im, g, c);
    }
  }

  /** Every cycle up to HCF is where the law has it. */
  lemma {:induction false} RunIsLawful(latency: nat, im: Bytes, data: Bytes, c: nat)
    requires latency >= 3 && RunsTo(latency, im, data, c)
    ensures var s, g := Pipeline.At(latency, im, data, c), Observe(latency, im, data, c);
            g.me < |g.h| && Lawful(latency, im, g, c) && Counts(latency, im, s, g, c)
  {
    hide Step, NextGhost, Full, Lawful, Counts;
    if c == 0 {
      BeginLawful(latency, im, data);
    } else {
      ObserveNext(latency, im, data, c - 1);
      RunIsLawful(latency, im, data, c - 1);
      CycleLawful(latency, im, data, Pipeline.At(latency, im, data, c - 1), Observe(latency, im, data, c - 1), c - 1);
    }
  }

  lemma BeginLawful(latency: nat, im: Bytes, data: Bytes)
    requires latency >= 3
    ensures Lawful(latency, im, Begin(data), 0) && Counts(latency, im, Reset(data), Begin(data), 0)
  {
    hide S.Away, IsMem, S.Inst, RowOf;
    RowFacts(latency, im, Begin(data).h, 0);
  }

  /** The schedule, exactly, for every program: instruction i of the trace is in EXE, MEM or WB in cycle c
      if and only if the law says so, and of those that have left EXE the ones the law names are lost. */
  lemma ScheduleLaw(latency: nat, im: Bytes, data: Bytes, c: nat, i: nat)
    requires latency >= 3 && RunsTo(latency, im, data, c) && i < |Lost(latency, im, data, c)|
    ensures var g := Observe(latency, im, data, c);
            && |g.h| == |g.lost| + 1 && g.lost == Lost(latency, im, data, c)
            && ScheduledAt(latency, im, g, c, i)
  {
    hide Inv, RowOf, LossInv, NoHcfPassed, Lawful, ScheduledAt, At;
    RunIsLawful(latency, im, data, c);
    LawfulSlots(latency, im, Observe(latency, im, data, c), c, i);
  }

  predicate ScheduledAt(latency: nat, im: Bytes, g: Ghost, c: nat, i: nat)
    requires |g.h| == |g.lost| + 1 && i < |g.lost|
  {
    var r := RowOf(latency, im, g.h, i);
    && ((g.ex && i == |g.lost| - 1) <==> r.enter <= c <= r.exit)
    && (g.me == i <==> (!r.lost && r.exit < c <= r.done))
    && (g.wb == i <==> (!r.lost && c == r.done + 1))
    && (r.exit < c ==> g.lost[i] == r.lost)
  }

  lemma LawfulSlots(latency: nat, im: Bytes, g: Ghost, c: nat, i: nat)
    requires latency > 0 && |g.h| == |g.lost| + 1 && Lawful(latency, im, g, c) && i < |g.lost|
    ensures ScheduledAt(latency, im, g, c, i)
  {
    hide RowOf, FrontLawful;
    var n := |g.lost|;
    if i < n - 1 { RowsApart(latency, im, g.h, i, n - 1); }
    assert InMem(latency, im, g, i, c) ==> g.me == i;
    assert InWb(latency, im, g, i, c) ==> g.wb == i;
  }
}
