/** When the pipeline agrees with the machine that loses nothing, and what it holds when it halts. */
module CleanRuns {
  import opened Words
  import opened RiscvDefs
  import opened Datapath
  import opened Controller
  import opened Pipeline
  import opened Refinement
  import opened LostLinks
  import opened PipelineRuns
  import opened Schedule
  import DataMem
  import S = Sequential

  /** Neither count ever goes back, and what has retired is settled. */
  lemma RunsForward(latency: nat, im: Bytes, data: Bytes, n: nat)
    requires latency >= 3 && RunsTo(latency, im, data, n) && RunsTo(latency, im, data, n + 1)
    ensures var k := Retired(latency, im, data, n);
            && 0 <= k <= Retired(latency, im, data, n + 1)
            && Stored(latency, im, data, n) <= Stored(latency, im, data, n + 1)
            && k <= |Lost(latency, im, data, n)| <= |Lost(latency, im, data, n + 1)|
            && Lost(latency, im, data, n)[..k] == Lost(latency, im, data, n + 1)[..k]
  {
    hide Step, NextGhost, Inv, LossInv, NoHcfPassed;
    var s := At(latency, im, data, n);
    var g := Observe(latency, im, data, n);
    ObserveNext(latency, im, data, n);
    ForwardStep(latency, im, data, s, g);
  }

  lemma ForwardStep(latency: nat, im: Bytes, data: Bytes, s: Cpu, g: Ghost)
    requires latency > 0 && Full(latency, im, data, s, g) && !Hcf(s)
    ensures var g' := NextGhost(latency, im, s, g);
            && 0 <= Oldest(g) <= Oldest(g') && Oldest(g) <= |g.lost| <= |g'.lost|
            && StoredBy(s, g) <= StoredBy(Step(latency, im, s), g')
            && g.lost[..Oldest(g)] == g'.lost[..Oldest(g)]
  {
    hide StoredBy, Step, NextGhost, Advance, LossInv, NoHcfPassed, ExOk, MeOk, WbOk, RegsOk, MemOk, Opcode, Fetch;
    GhostStep(latency, im, data, s, g);
    IdleAfter(latency, im, data, s, g);
    GhostBounds(im, data, g);
    SlotsForward(im, data, g, Flush(s), StallMA(latency, s), StallDH(s));
    StoredStep(latency, im, data, s, g);
    assert NextGhost(latency, im, s, g) == Advance(im, g, Flush(s), StallMA(latency, s), StallDH(s)) by {
      NextIsAdvance(latency, im, s, g);
    }
  }

  lemma SlotsForward(im: Bytes, data: Bytes, g: Ghost, flush: bool, ma: bool, dh: bool)
    requires GhostOk(im, data, g) && (flush ==> g.ex) && (ma ==> g.me >= 0)
    ensures var g' := Advance(im, g, flush, ma, dh);
            && 0 <= Oldest(g) <= Oldest(g') && Oldest(g) <= |g.lost| <= |g'.lost|
            && (if ma then g'.me == g.me else AfterWb(g') >= (if g.me >= 0 then g.me + 1 else AfterWb(g)))
            && g.lost[..Oldest(g)] == g'.lost[..Oldest(g)]
  {
    hide S.Exec, IsHistory, Same;
  }

  lemma StoredStep(latency: nat, im: Bytes, data: Bytes, s: Cpu, g: Ghost)
    requires latency > 0 && Inv(latency, im, data, s, g) && !Hcf(s)
    ensures StoredBy(s, g) <= StoredBy(Step(latency, im, s), NextGhost(latency, im, s, g))
  {
    hide Opcode, Fetch, ExOk, MeOk, WbOk, RegsOk, Low15, Length, DataMem.StoreBytes, DataMem.LoadValue,
      DataMem.Next, NextRf, NextEx, NextIf, NextId, NextWb, ExAlu, StallDH, Flush, Advance, IsHcf;
    GhostBounds(im, data, g);
    IdleAfter(latency, im, data, s, g);
    NextIsAdvance(latency, im, s, g);
    SlotsForward(im, data, g, Flush(s), StallMA(latency, s), StallDH(s));
    DataMem.ServingStep(latency, s.dm, MemRequest(s), g.h[AfterWb(g)].mem);
  }

  lemma SettledGhost(im: Bytes, data: Bytes, g: Ghost, flush: bool, ma: bool, dh: bool)
    requires GhostOk(im, data, g) && (flush ==> g.ex)
    ensures var g' := Advance(im, g, flush, ma, dh);
            0 <= AfterMe(g) <= |g.lost| <= |g'.lost| && g.lost[..AfterMe(g)] == g'.lost[..AfterMe(g)]
  {
    hide S.Exec, IsHistory, Same;
  }

  lemma StoredBeforeEx(latency: nat, im: Bytes, data: Bytes, s: Cpu, g: Ghost)
    requires Inv(latency, im, data, s, g)
    ensures 0 <= StoredBy(s, g) <= AfterMe(g)
  {
    hide IsHistory, FrontOk, ExOk, MeOk, WbOk, RegsOk, MemRequest, DataMem.StoreBytes, DataMem.LoadValue, Same;
    GhostBounds(im, data, g);
  }

  /** What has reached the data memory is settled as well. */
  lemma SettledStep(latency: nat, im: Bytes, data: Bytes, s: Cpu, g: Ghost)
    requires latency > 0 && Full(latency, im, data, s, g) && !Hcf(s)
    ensures 0 <= StoredBy(s, g) <= |g.lost| <= |NextGhost(latency, im, s, g).lost|
    ensures g.lost[..StoredBy(s, g)] == NextGhost(latency, im, s, g).lost[..StoredBy(s, g)]
  {
    hide Step, NextGhost, Advance, LossInv, NoHcfPassed, ExOk, MeOk, WbOk, RegsOk, MemOk, Opcode, Fetch,
      StoredBy, AfterMe, Flush, StallMA, StallDH;
    NextIsAdvance(latency, im, s, g);
    SettledGhost(im, data, g, Flush(s), StallMA(latency, s), StallDH(s));
    StoredBeforeEx(latency, im, data, s, g);
    PrefixOfPrefix(g.lost, NextGhost(latency, im, s, g).lost, StoredBy(s, g), AfterMe(g));
  }

  lemma StoredSettles(latency: nat, im: Bytes, data: Bytes, n: nat)
    requires latency >= 3 && RunsTo(latency, im, data, n) && RunsTo(latency, im, data, n + 1)
    ensures var m := Stored(latency, im, data, n);
            && 0 <= m <= |Lost(latency, im, data, n)| <= |Lost(latency, im, data, n + 1)|
            && Lost(latency, im, data, n)[..m] == Lost(latency, im, data, n + 1)[..m]
  {
    hide Step, NextGhost, Inv, LossInv, NoHcfPassed, StoredBy;
    ObserveNext(latency, im, data, n);
    SettledStep(latency, im, data, At(latency, im, data, n), Observe(latency, im, data, n));
  }

  /** The recorded losses of the first k instructions are those of the law. */
  ghost predicate LossesAre(latency: nat, im: Bytes, h: seq<S.Arch>, lost: seq<bool>, k: nat) {
    |h| == |lost| + 1 && k <= |lost| && forall i: nat :: i < k ==> lost[i] == RowOf(latency, im, h, i).lost
  }

  /** The states of the sequential machine that loses the marked instructions. */
  function TraceStates(im: Bytes, data: Bytes, lost: seq<bool>): (h: seq<S.Arch>)
    ensures |h| == |lost| + 1
  {
    seq(|lost| + 1, i requires 0 <= i <= |lost| => S.Trace(im, data, lost[..i]))
  }

  /** The pipeline's record is the run of the machine that loses what the law says, as far as memory goes. */
  lemma RunBounds(latency: nat, im: Bytes, data: Bytes, n: nat)
    requires latency >= 3 && RunsTo(latency, im, data, n)
    ensures var s, g := At(latency, im, data, n), Observe(latency, im, data, n);
            && IsHistory(im, data, g.h, g.lost)
            && 0 <= Oldest(g) <= StoredBy(s, g) <= |g.lost|
            && LossesAre(latency, im, g.h, g.lost, StoredBy(s, g)) && LossesAre(latency, im, g.h, g.lost, Oldest(g))
  {
    hide RowOf, LossInv, NoHcfPassed, SlotsLawful, FrontLawful, Oldest, AfterMe, StoredBy, At;
    var s, g := At(latency, im, data, n), Observe(latency, im, data, n);
    GhostBounds(im, data, g);
    StateHolds(latency, im, data, s, g);
    StoredBeforeEx(latency, im, data, s, g);
    RunIsLawful(latency, im, data, n);
  }

  lemma HistoryIsStates(im: Bytes, data: Bytes, h: seq<S.Arch>, lost: seq<bool>)
    requires IsHistory(im, data, h, lost)
    ensures h == TraceStates(im, data, lost)
  {
    hide S.Trace, Ran;
    forall i: nat | i <= |lost| ensures h[i] == TraceStates(im, data, lost)[i] {
      HistoryIsTrace(im, data, h, lost, i);
    }
  }

  /** Cycle c of the pipeline is the sequential machine after k instructions, its memory that after m. */
  ghost predicate MatchesAt(latency: nat, im: Bytes, data: Bytes, c: nat, lost: seq<bool>, k: nat, m: nat)
    requires latency > 0
  {
    && k <= m <= k + 2 && m <= |lost|
    && At(latency, im, data, c).regs == S.Trace(im, data, lost[..k]).regs
    && At(latency, im, data, c).dm.bytes == S.Trace(im, data, lost[..m]).mem
  }

  /** One sequential run, losing the marked instructions, that every cycle up to n is a state of; k and m
      count the instructions behind the registers and the memory of each cycle, and never go back. What is
      lost on it is what the law says, so the run is determined by the program. */
  ghost predicate Follows(latency: nat, im: Bytes, data: Bytes, n: nat, lost: seq<bool>, k: seq<nat>, m: seq<nat>)
    requires latency > 0
  {
    && |k| == |m| == n + 1
    && LossesAre(latency, im, TraceStates(im, data, lost), lost, m[n])
    && (forall c: nat :: c <= n ==> MatchesAt(latency, im, data, c, lost, k[c], m[c]))
    && (forall c: nat :: c < n ==> k[c] <= k[c + 1] && m[c] <= m[c + 1])
  }

  lemma OneCycleMatches(latency: nat, im: Bytes, data: Bytes, n: nat)
    requires latency >= 3 && RunsTo(latency, im, data, n)
    ensures Retired(latency, im, data, n) >= 0 && Stored(latency, im, data, n) >= 0
    ensures MatchesAt(latency, im, data, n, Lost(latency, im, data, n), Retired(latency, im, data, n),
            Stored(latency, im, data, n))
  {
    hide At, Lost, Retired, Stored, S.Trace;
    PipelineRefinesSequential(latency, im, data, n);
  }

  /** A cycle only depends on the settled part of what was lost. */
  lemma MatchKept(latency: nat, im: Bytes, data: Bytes, c: nat, lost: seq<bool>, more: seq<bool>, k: nat, m: nat)
    requires latency > 0 && MatchesAt(latency, im, data, c, lost, k, m)
    requires m <= |more| && lost[..m] == more[..m]
    ensures MatchesAt(latency, im, data, c, more, k, m)
  {
    hide At, S.Trace;
    assert lost[..k] == lost[..m][..k];
    assert more[..k] == more[..m][..k];
  }

  lemma LostAsTheLawSays(latency: nat, im: Bytes, data: Bytes, n: nat)
    requires latency >= 3 && RunsTo(latency, im, data, n)
    ensures var lost := Lost(latency, im, data, n);
            Stored(latency, im, data, n) >= 0
            && LossesAre(latency, im, TraceStates(im, data, lost), lost, Stored(latency, im, data, n))
  {
    hide LossesAre, TraceStates, IsHistory, StoredBy, Oldest, At, Inv, LossInv, NoHcfPassed;
    RunBounds(latency, im, data, n);
    HistoryIsStates(im, data, Observe(latency, im, data, n).h, Observe(latency, im, data, n).lost);
  }

  lemma {:induction false} RunFollows(latency: nat, im: Bytes, data: Bytes, n: nat) returns (k: seq<nat>, m: seq<nat>)
    requires latency >= 3 && RunsTo(latency, im, data, n)
    ensures Follows(latency, im, data, n, Lost(latency, im, data, n), k, m)
    ensures k[n] == Retired(latency, im, data, n) && m[n] == Stored(latency, im, data, n)
  {
    hide Lost, Retired, Stored, MatchesAt, At, LossesAre, TraceStates;
    OneCycleMatches(latency, im, data, n);
    LostAsTheLawSays(latency, im, data, n);
    if n == 0 {
      k, m := [Retired(latency, im, data, n)], [Stored(latency, im, data, n)];
    } else {
      var k0, m0 := RunFollows(latency, im, data, n - 1);
      RunsForward(latency, im, data, n - 1);
      StoredSettles(latency, im, data, n - 1);
      var lost, more := Lost(latency, im, data, n - 1), Lost(latency, im, data, n);
      k, m := k0 + [Retired(latency, im, data, n)], m0 + [Stored(latency, im, data, n)];
      forall c: nat | c < n ensures MatchesAt(latency, im, data, c, more, k[c], m[c]) {
        CountsGrow(m0, c, n - 1);
        PrefixOfPrefix(lost, more, m0[c], m0[n - 1]);
        MatchKept(latency, im, data, c, lost, more, k0[c], m0[c]);
      }
    }
  }

  lemma {:induction false} CountsGrow(m: seq<nat>, i: nat, j: nat)
    requires i <= j < |m| && forall c: nat :: c < |m| - 1 ==> m[c] <= m[c + 1]
    ensures m[i] <= m[j]
    decreases j
  {
    if i < j { CountsGrow(m, i, j - 1); }
  }

  lemma PrefixOfPrefix(lost: seq<bool>, more: seq<bool>, i: nat, j: nat)
    requires i <= j <= |lost| && j <= |more| && lost[..j] == more[..j]
    ensures lost[..i] == more[..i]
  {
    assert lost[..i] == lost[..j][..i];
    assert more[..i] == more[..j][..i];
  }

  /** Whole-run refinement. For every program and every run up to the first HCF there is one sequential
      run such that in each cycle the registers are its registers after some k instructions and the data
      memory its memory after some m, k <= m <= k + 2, both non-decreasing over the run. */
  lemma WholeRunRefines(latency: nat, im: Bytes, data: Bytes, n: nat)
    requires latency >= 3 && RunsTo(latency, im, data, n)
    ensures exists lost, k, m :: Follows(latency, im, data, n, lost, k, m)
  {
    hide Follows;
    var k, m := RunFollows(latency, im, data, n);
  }

  // ----- The state at the first HCF -----

  /** n is the first cycle in which HCF is asserted. */
  ghost predicate HaltsAt(latency: nat, im: Bytes, data: Bytes, n: nat)
    requires latency > 0
  {
    RunsTo(latency, im, data, n) && Hcf(At(latency, im, data, n))
  }

  /** When HCF is first asserted, registers and memory are those of the sequential machine in front
      of its first HCF, even though younger instructions are still in the pipeline. */
  lemma HaltState(latency: nat, im: Bytes, data: Bytes, n: nat)
    requires latency >= 3 && HaltsAt(latency, im, data, n)
    ensures var lost := Lost(latency, im, data, n);
            var k := Retired(latency, im, data, n);
            && 0 <= k <= |lost|
            && var a := S.Trace(im, data, lost[..k]);
            && IsHcf(S.Inst(im, a))
            && At(latency, im, data, n).regs == a.regs
            && At(latency, im, data, n).dm.bytes == a.mem
            && forall i :: 0 <= i < k ==> !IsHcf(S.Inst(im, S.Trace(im, data, lost[..i])))
  {
    hide S.Exec, S.Inst, IsMem, Opcode, FrontOk, ExOk, LossOk, Overlap, Ran, IsHcf;
    var s := At(latency, im, data, n);
    var g := Observe(latency, im, data, n);
    GhostBounds(im, data, g);
    HcfMemory(latency, im, data, s, g);
    HistoryIsTrace(im, data, g.h, g.lost, Oldest(g));
    forall i | 0 <= i < Oldest(g) ensures !IsHcf(S.Inst(im, S.Trace(im, data, g.lost[..i]))) {
      HistoryIsTrace(im, data, g.h, g.lost, i);
    }
  }

  lemma HcfMemory(latency: nat, im: Bytes, data: Bytes, s: Cpu, g: Ghost)
    requires Inv(latency, im, data, s, g) && Hcf(s)
    ensures g.wb >= 0 && IsHcf(S.Inst(im, g.h[g.wb])) && s.dm.bytes == g.h[g.wb].mem
  {
    hide S.NextPc, S.RegsAfter, Fetch, FrontOk, ExOk, MeOk, Low15, S.AluResult, DataMem.StoreBytes;
    BubbleIsInert(0);
    assert g.wb >= 0;
    assert Ran(im, g.h, g.lost, g.wb);
  }

  // ----- Agreement with the machine that loses nothing -----

  /** The states of the machine that loses nothing before its first n instructions. */
  function CleanStates(im: Bytes, data: Bytes, n: nat): (h: seq<S.Arch>)
    ensures |h| == n
  {
    seq(n, i requires 0 <= i < n => S.Clean(im, data, i))
  }

  /** The schedule the law gives instruction i of the clean run. */
  function CleanRow(latency: nat, im: Bytes, data: Bytes, i: nat): Row {
    RowOf(latency, im, CleanStates(im, data, i + 1), i)
  }

  /** Instruction i of the clean run would be lost, and with it a register it writes. */
  predicate AtRisk(latency: nat, im: Bytes, data: Bytes, i: nat) {
    CleanRow(latency, im, data, i).lost && S.RegsAfter(im, S.Clean(im, data, i)) != S.Clean(im, data, i).regs
  }

  ghost predicate AgreesTo(im: Bytes, data: Bytes, h: seq<S.Arch>, k: nat) {
    k < |h| && forall i: nat :: i <= k ==> h[i] == S.Clean(im, data, i)
  }

  lemma AwayStoresNothing(im: Bytes, a: S.Arch)
    requires S.Away(im, a)
    ensures S.MemAfter(im, a) == a.mem
  {
    ControlIsNotMem(S.Inst(im, a));
  }

  lemma AgreedRow(latency: nat, im: Bytes, data: Bytes, h: seq<S.Arch>, i: nat)
    requires AgreesTo(im, data, h, i)
    ensures RowOf(latency, im, h, i) == CleanRow(latency, im, data, i)
  {
    hide RowOf, S.Clean;
    assert h[..i + 1] == CleanStates(im, data, i + 1)[..i + 1];
    RowPrefix(latency, im, h, CleanStates(im, data, i + 1), i);
  }

  /** One more instruction keeps agreement exactly when it is not at risk. */
  lemma AgreeOneMore(latency: nat, im: Bytes, data: Bytes, h: seq<S.Arch>, lost: seq<bool>, i: nat)
    requires latency > 0 && |h| == |lost| + 1 && i < |lost| && Ran(im, h, lost, i) && AgreesTo(im, data, h, i)
    requires lost[i] == RowOf(latency, im, h, i).lost
    ensures h[i + 1] == S.Clean(im, data, i + 1) <==> !AtRisk(latency, im, data, i)
  {
    hide RowOf, CleanRow, S.NextPc, S.RegsAfter, S.MemAfter, S.Away;
    AgreedRow(latency, im, data, h, i);
    RowFacts(latency, im, h, i);
    if lost[i] { AwayStoresNothing(im, h[i]); }
  }

  ghost predicate NoneAtRisk(latency: nat, im: Bytes, data: Bytes, n: nat) {
    forall i: nat :: i < n ==> !AtRisk(latency, im, data, i)
  }

  lemma {:induction false} AgreesExactlyWhenSafe(latency: nat, im: Bytes, data: Bytes, h: seq<S.Arch>,
      lost: seq<bool>, k: nat)
    requires latency > 0 && IsHistory(im, data, h, lost) && LossesAre(latency, im, h, lost, k)
    ensures AgreesTo(im, data, h, k) <==> NoneAtRisk(latency, im, data, k)
  {
    hide RowOf, AtRisk, Ran, S.Clean, S.Exec, IsHistory;
    HistoryStarts(im, data, h, lost);
    if k > 0 {
      AgreesExactlyWhenSafe(latency, im, data, h, lost, k - 1);
      HistoryRan(im, data, h, lost, k - 1);
      if AgreesTo(im, data, h, k - 1) { AgreeOneMore(latency, im, data, h, lost, k - 1); }
      AgreesSplit(im, data, h, k);
    }
  }

  lemma HistoryStarts(im: Bytes, data: Bytes, h: seq<S.Arch>, lost: seq<bool>)
    requires IsHistory(im, data, h, lost)
    ensures |h| == |lost| + 1 && h[0] == S.Clean(im, data, 0)
  {
    hide Ran;
  }

  lemma HistoryRan(im: Bytes, data: Bytes, h: seq<S.Arch>, lost: seq<bool>, i: nat)
    requires IsHistory(im, data, h, lost)
    ensures |h| == |lost| + 1 && Ran(im, h, lost, i)
  {
    hide S.Exec;
  }

  lemma AgreesSplit(im: Bytes, data: Bytes, h: seq<S.Arch>, k: nat)
    requires 0 < k < |h|
    ensures AgreesTo(im, data, h, k) <==> AgreesTo(im, data, h, k - 1) && h[k] == S.Clean(im, data, k)
  {
    hide S.Clean;
  }

  /** Agreement, exactly, as far as the data memory has got. The first j states of what the pipeline runs
      are those of the machine that loses nothing if and only if nothing of that run is at risk, which can
      be read off the sequential machine and the law alone. */
  lemma CleanExactlyWhenSafe(latency: nat, im: Bytes, data: Bytes, n: nat, j: nat)
    requires latency >= 3 && RunsTo(latency, im, data, n) && j <= Stored(latency, im, data, n)
    ensures j <= |Lost(latency, im, data, n)|
    ensures (forall i: nat :: i <= j ==> S.Trace(im, data, Lost(latency, im, data, n)[..i]) == S.Clean(im, data, i))
            <==> NoneAtRisk(latency, im, data, j)
  {
    hide Inv, AtRisk, LossInv, NoHcfPassed, Ran, IsHistory, S.Trace, S.Clean, LossesAre, StoredBy, At;
    var g := Observe(latency, im, data, n);
    RunBounds(latency, im, data, n);
    FewerLosses(latency, im, g.h, g.lost, Stored(latency, im, data, n), j);
    AgreesExactlyWhenSafe(latency, im, data, g.h, g.lost, j);
    forall i: nat | i <= j ensures g.h[i] == S.Trace(im, data, g.lost[..i]) {
      HistoryIsTrace(im, data, g.h, g.lost, i);
    }
  }

  lemma FewerLosses(latency: nat, im: Bytes, h: seq<S.Arch>, lost: seq<bool>, k: nat, j: nat)
    requires LossesAre(latency, im, h, lost, k) && j <= k
    ensures |h| == |lost| + 1 && j <= |lost| && LossesAre(latency, im, h, lost, j)
  {
    hide RowOf;
  }

  /** One cycle against the machine that loses nothing. */
  ghost predicate CleanAt(latency: nat, im: Bytes, data: Bytes, c: nat, k: nat, m: nat)
    requires latency > 0
  {
    && k <= m <= k + 2
    && At(latency, im, data, c).regs == S.Clean(im, data, k).regs
    && At(latency, im, data, c).dm.bytes == S.Clean(im, data, m).mem
  }

  /** If nothing up to its memory is at risk, a cycle is the clean machine, registers and memory. */
  lemma CleanCycle(latency: nat, im: Bytes, data: Bytes, n: nat)
    requires latency >= 3 && RunsTo(latency, im, data, n)
    requires NoneAtRisk(latency, im, data, Stored(latency, im, data, n))
    ensures Retired(latency, im, data, n) >= 0 && Stored(latency, im, data, n) >= 0
    ensures CleanAt(latency, im, data, n, Retired(latency, im, data, n), Stored(latency, im, data, n))
  {
    hide At, Lost, Retired, Stored, S.Trace, S.Clean, AtRisk;
    OneCycleMatches(latency, im, data, n);
    CleanExactlyWhenSafe(latency, im, data, n, Stored(latency, im, data, n));
  }

  /** Every cycle up to n is a state of the clean machine, its counts never going back. */
  ghost predicate FollowsClean(latency: nat, im: Bytes, data: Bytes, n: nat, k: seq<nat>, m: seq<nat>)
    requires latency > 0
  {
    && |k| == |m| == n + 1
    && (forall c: nat :: c <= n ==> CleanAt(latency, im, data, c, k[c], m[c]))
    && (forall c: nat :: c < n ==> k[c] <= k[c + 1] && m[c] <= m[c + 1])
  }

  lemma {:induction false} CleanRunFollows(latency: nat, im: Bytes, data: Bytes, n: nat)
      returns (k: seq<nat>, m: seq<nat>)
    requires latency >= 3 && RunsTo(latency, im, data, n)
    requires NoneAtRisk(latency, im, data, Stored(latency, im, data, n))
    ensures FollowsClean(latency, im, data, n, k, m)
    ensures |k| == |m| == n + 1 && k[n] == Retired(latency, im, data, n) && m[n] == Stored(latency, im, data, n)
  {
    hide Retired, Stored, CleanAt, At, AtRisk, FollowsClean, Lost;
    CleanCycle(latency, im, data, n);
    var kn: nat, mn: nat := Retired(latency, im, data, n), Stored(latency, im, data, n);
    if n == 0 {
      k, m := [kn], [mn];
      FirstCycle(latency, im, data, kn, mn);
    } else {
      RunsForward(latency, im, data, n - 1);
      var k0, m0 := CleanRunFollows(latency, im, data, n - 1);
      k, m := k0 + [kn], m0 + [mn];
      OneMoreCycle(latency, im, data, n, k0, m0, kn, mn);
    }
  }

  lemma FirstCycle(latency: nat, im: Bytes, data: Bytes, k: nat, m: nat)
    requires latency > 0 && CleanAt(latency, im, data, 0, k, m)
    ensures FollowsClean(latency, im, data, 0, [k], [m])
  {
    hide CleanAt;
  }

  lemma OneMoreCycle(latency: nat, im: Bytes, data: Bytes, n: nat, ks: seq<nat>, ms: seq<nat>, k: nat, m: nat)
    requires latency > 0 && n > 0 && FollowsClean(latency, im, data, n - 1, ks, ms)
    requires CleanAt(latency, im, data, n, k, m) && ks[n - 1] <= k && ms[n - 1] <= m
    ensures FollowsClean(latency, im, data, n, ks + [k], ms + [m])
  {
    hide CleanAt;
  }

  /** Only a transfer away directly behind a load or store is ever at risk. */
  lemma RiskIsBehindMem(latency: nat, im: Bytes, data: Bytes, i: nat)
    requires latency > 0 && AtRisk(latency, im, data, i)
    ensures i >= 1 && IsMem(S.Inst(im, S.Clean(im, data, i - 1))) && S.Away(im, S.Clean(im, data, i))
  {
    hide RowOf, S.Clean, S.Inst, S.Away, IsMem, S.RegsAfter;
    var h := CleanStates(im, data, i + 1);
    RowFacts(latency, im, h, i);
    RowsAdvance(latency, im, h, i);
    RowFacts(latency, im, h, i - 1);
  }

  /** No load or store is followed in memory by a jump that writes a link register. */
  ghost predicate NoLinkBehindMem(im: Bytes) {
    forall pc: Pc :: IsMem(Fetch(im, pc)) && IsJump(Fetch(im, Plus4(pc))) ==> Rd(Fetch(im, Plus4(pc))) == 0
  }

  lemma {:induction false} CleanX0(im: Bytes, data: Bytes, i: nat)
    ensures S.Clean(im, data, i).regs[0] == 0
  {
    hide S.Exec;
    if i > 0 {
      CleanX0(im, data, i - 1);
      ExecZeroesX0(im, S.Clean(im, data, i - 1), false);
    }
  }

  lemma NoLinkBehindMemIsSafe(latency: nat, im: Bytes, data: Bytes, i: nat)
    requires latency > 0 && NoLinkBehindMem(im)
    ensures !AtRisk(latency, im, data, i)
  {
    hide CleanRow, Fetch, Opcode, Rd, S.AluResult, BranchTaken, Plus4, S.RegsAfter, S.MemAfter;
    if AtRisk(latency, im, data, i) {
      RiskIsBehindMem(latency, im, data, i);
      var before, a := S.Clean(im, data, i - 1), S.Clean(im, data, i);
      MemFallsThrough(im, before);
      assert a.pc == Plus4(before.pc);
      CleanX0(im, data, i);
      UnwrittenRegs(im, a);
      assert false;
    }
  }

  lemma MemFallsThrough(im: Bytes, a: S.Arch)
    requires IsMem(S.Inst(im, a))
    ensures S.NextPc(im, a) == Plus4(a.pc)
  {
  }

  lemma UnwrittenRegs(im: Bytes, a: S.Arch)
    requires a.regs[0] == 0 && IsControl(S.Inst(im, a))
    requires IsJump(S.Inst(im, a)) ==> Rd(S.Inst(im, a)) == 0
    ensures S.RegsAfter(im, a) == a.regs
  {
    hide Fetch, S.Result, Rd;
  }

  /** A check of the program text alone that keeps every run out of risk. */
  lemma TextCheckIsSafe(latency: nat, im: Bytes, data: Bytes, n: nat)
    requires latency > 0 && NoLinkBehindMem(im)
    ensures NoneAtRisk(latency, im, data, n)
  {
    hide NoLinkBehindMem, AtRisk;
    forall i: nat | i < n ensures !AtRisk(latency, im, data, i) { NoLinkBehindMemIsSafe(latency, im, data, i); }
  }

  /** Whole-run refinement of the plain sequential machine. If no load or store is followed in the text by a
      linking jump, then in every cycle up to the first HCF the registers are those of the sequential machine
      after some k instructions and the data memory that after some m, k <= m <= k + 2, and neither count
      ever goes back. */
  lemma CleanRunRefines(latency: nat, im: Bytes, data: Bytes, n: nat)
    requires latency >= 3 && RunsTo(latency, im, data, n) && NoLinkBehindMem(im)
    ensures exists k, m :: FollowsClean(latency, im, data, n, k, m)
  {
    hide FollowsClean, NoLinkBehindMem, NoneAtRisk, Stored, StoredBy;
    OneCycleMatches(latency, im, data, n);
    TextCheckIsSafe(latency, im, data, Stored(latency, im, data, n));
    var k, m := CleanRunFollows(latency, im, data, n);
  }

  /** If nothing it retired was at risk, the pipeline halts with exactly the registers and memory of the
      clean sequential machine at its first HCF. */
  lemma HaltsInCleanState(latency: nat, im: Bytes, data: Bytes, n: nat)
    requires latency >= 3 && HaltsAt(latency, im, data, n) && Retired(latency, im, data, n) >= 0
    requires NoneAtRisk(latency, im, data, Retired(latency, im, data, n))
    ensures var k := Retired(latency, im, data, n);
            && IsHcf(S.Inst(im, S.Clean(im, data, k)))
            && (forall i: nat :: i < k ==> !IsHcf(S.Inst(im, S.Clean(im, data, i))))
            && At(latency, im, data, n).regs == S.Clean(im, data, k).regs
            && At(latency, im, data, n).dm.bytes == S.Clean(im, data, k).mem
  {
    hide Inv, LossInv, NoHcfPassed, S.Exec, S.Inst, IsHcf, AtRisk, S.Trace, Hcf;
    var k := Retired(latency, im, data, n);
    HaltState(latency, im, data, n);
    OneCycleMatches(latency, im, data, n);
    CleanExactlyWhenSafe(latency, im, data, n, k);
    assert forall i: nat :: i <= k ==> S.Trace(im, data, Lost(latency, im, data, n)[..i]) == S.Clean(im, data, i);
  }
}
