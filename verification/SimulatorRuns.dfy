/** The whole simulator in its usual order: the event of a tick, then IF, the retry callback its pop
    triggers, EXE, WB and sync. When each packet reaches WB, and that the simulation drains. */
module SimulatorRuns {
  import opened Words
  import opened DataStruct
  import opened F = FunctionalCpu
  import opened PacketPipeline
  import opened Scoreboard

  function RunEvent(im: seq<Instr>, s: Sys): Sys {
    if Enabled(im, s, Exec) then DoExec(im, s) else s
  }

  function Callback(s: Sys): Sys {
    if s.port.None? then DoRetry(s) else s
  }

  function Front(im: seq<Instr>, s: Sys): Sys {
    Callback(DoIF(RunEvent(im, s)))
  }

  function Back(s: Sys): Sys {
    DoSync(DoWB(DoEXE(s)))
  }

  /** State after t ticks. */
  function SysAt(im: seq<Instr>, c: Core, t: nat): Sys {
    if t == 0 then Start(c) else Back(Front(im, SysAt(im, c, t - 1)))
  }

  /** The run reaches its first HCF with instruction h; ps are the packets up to it. */
  predicate Halts(im: seq<Instr>, c: Core, h: nat, ps: seq<Packet>) {
    && CoreAt(im, c, h + 1).Some? && ps == Created(im, c, h + 1)
    && ps[h].inst.op == Hcf
    && forall i :: 0 <= i < h ==> ps[i].inst.op != Hcf
  }

  // ----- Front end: the processor keeps the port supplied -----

  /** The event after n packets have gone out to the port. */
  function DueEvent(ps: seq<Packet>, n: nat, tick: nat): Option<nat>
    requires n <= |ps|
  {
    if n == |ps| then None else Some(tick)
  }

  /** Before a tick in which n packets have been admitted: nothing waits, or the next packet is in the
      port, or it is there with its successor held back. */
  predicate FrontOk(im: seq<Instr>, c: Core, ps: seq<Packet>, s: Sys, n: nat, sh: Shadows)
    requires n <= |ps|
  {
    && (n < |ps| ==> s.shadows == sh)
    && CoreAt(im, c, s.cpu.cnt) == Some(s.cpu.core)
    && (|| (s.port.None? && s.cpu.pending.None? && s.cpu.cnt == n && s.cpu.event == DueEvent(ps, n, s.tick))
        || (n < |ps| && s.port == Some(ps[n]) && s.cpu.pending.None? && s.cpu.cnt == n + 1
            && s.cpu.event == DueEvent(ps, n + 1, s.tick))
        || (n + 1 < |ps| && s.port == Some(ps[n]) && s.cpu.pending == Some(ps[n + 1]) && s.cpu.cnt == n + 2
            && s.cpu.event.None?))
  }

  /** After the event of the tick the next packet is in the port, until all have been admitted. */
  lemma EventSupplies(im: seq<Instr>, c: Core, h: nat, ps: seq<Packet>, s: Sys, n: nat, sh: Shadows)
    requires Halts(im, c, h, ps) && n <= |ps| && FrontOk(im, c, ps, s, n, sh)
    ensures var t := RunEvent(im, s);
            && t == s.(cpu := t.cpu, port := t.port)
            && CoreAt(im, c, t.cpu.cnt) == Some(t.cpu.core)
            && (if n == |ps| then t.port.None? && t.cpu.pending.None? && t.cpu.event.None? && t.cpu.cnt == n
                else
                  && t.port == Some(ps[n])
                  && (if t.cpu.pending.Some?
                      then n + 1 < |ps| && t.cpu.pending == Some(ps[n + 1]) && t.cpu.cnt == n + 2 && t.cpu.event.None?
                      else t.cpu.cnt == n + 1 && t.cpu.event == DueEvent(ps, n + 1, s.tick + 1)))
  {
    hide StepCore, PacketOf, CoreAt, Created;
    if s.cpu.cnt < |ps| { PacketAt(im, c, |ps|, s.cpu.cnt); }
  }

  /** The packets of a run, one by one. */
  lemma {:induction false} PacketAt(im: seq<Instr>, c: Core, m: nat, i: nat)
    requires CoreAt(im, c, m).Some? && i < m
    ensures CoreAt(im, c, i).Some? && StepCore(im, CoreAt(im, c, i).value) == CoreAt(im, c, i + 1)
    ensures CoreAt(im, c, i + 1).Some?
    ensures Created(im, c, m)[i] == PacketOf(im, CoreAt(im, c, i).value)
    decreases m
  {
    hide StepCore, PacketOf;
    StepDefined(im, c, m);
    if i < m - 1 { PacketAt(im, c, m - 1, i); }
  }

  lemma FrontStep(im: seq<Instr>, c: Core, h: nat, ps: seq<Packet>, s: Sys, k: nat)
    requires Halts(im, c, h, ps) && s.if2exe.inHalf.None? && !s.failed
    requires var w := WaitingAt(ps, k); FrontOk(im, c, ps, s, w.n, w.sh)
    ensures var t, w, w' := Front(im, s), WaitingAt(ps, k), WaitingAt(ps, k + 1);
            && FrontOk(im, c, ps, t.(tick := s.tick + 1), w'.n, w'.sh)
            && t.tick == s.tick && !t.failed && t.exe2wb == s.exe2wb && t.received == s.received
            && t.if2exe == s.if2exe.(inHalf := if w.n < w'.n then Some(ps[w.n]) else None)
            && w.n <= w'.n <= w.n + 1
  {
    hide StepCore, PacketOf, CoreAt, Created, Stalls, RunEvent;
    var w := WaitingAt(ps, k);
    EventSupplies(im, c, h, ps, s, w.n, w.sh);
    if w.n < |ps| { NextCount(ps, k); }
  }

  // ----- The whole tick -----

  /** Packets admitted before tick k; none before the first. */
  function Count(ps: seq<Packet>, k: int): (n: nat)
    ensures n <= |ps|
  {
    if k < 0 then 0 else WaitingAt(ps, k).n
  }

  function Between(ps: seq<Packet>, m: nat, n: nat): Option<Packet>
    requires m <= |ps|
  {
    if m < n && m < |ps| then Some(ps[m]) else None
  }

  /** k ticks after the first instruction: IF is where the law says, and behind it each packet has moved
      one stage per tick. */
  predicate SysOk(im: seq<Instr>, c: Core, ps: seq<Packet>, s: Sys, k: nat) {
    && FrontOk(im, c, ps, s, WaitingAt(ps, k).n, WaitingAt(ps, k).sh)
    && s.tick == k + 1 && !s.failed
    && s.if2exe == PipeReg(None, Between(ps, Count(ps, k - 1), Count(ps, k)), false)
    && s.exe2wb == PipeReg(None, Between(ps, Count(ps, k - 2), Count(ps, k - 1)), false)
    && s.received == ps[..Count(ps, k - 2)]
  }

  lemma CountsStep(ps: seq<Packet>, k: int)
    ensures Count(ps, k) <= Count(ps, k + 1) <= Count(ps, k) + 1
  {
    hide Stalls;
    if k >= 0 { NextCount(ps, k); }
  }

  /** The stages behind IF and the sync: each packet moves on by one. */
  lemma BackMoves(t: Sys)
    requires !t.failed && !t.if2exe.stalled && !t.exe2wb.stalled && t.exe2wb.inHalf.None?
    ensures var u := Back(t);
            && u.cpu == t.cpu && u.port == t.port && u.shadows == t.shadows && u.tick == t.tick + 1 && !u.failed
            && u.if2exe == PipeReg(None, t.if2exe.inHalf, false)
            && u.exe2wb == PipeReg(None, t.if2exe.outHalf, false)
            && u.received == t.received + Opt(t.exe2wb.outHalf)
  {
  }

  lemma SysStep(im: seq<Instr>, c: Core, h: nat, ps: seq<Packet>, s: Sys, k: nat)
    requires Halts(im, c, h, ps) && SysOk(im, c, ps, s, k)
    ensures SysOk(im, c, ps, Back(Front(im, s)), k + 1)
  {
    hide Front, Back, Halts, WaitingAt, FrontOk, Stalls;
    var t := Front(im, s);
    FrontStep(im, c, h, ps, s, k);
    BackMoves(t);
    CountsStep(ps, k - 2);
    CountsStep(ps, k - 1);
    FrontUnmoved(im, c, ps, t.(tick := s.tick + 1), Back(t), WaitingAt(ps, k + 1).n, WaitingAt(ps, k + 1).sh);
  }

  lemma FrontUnmoved(im: seq<Instr>, c: Core, ps: seq<Packet>, s: Sys, t: Sys, n: nat, sh: Shadows)
    requires n <= |ps| && FrontOk(im, c, ps, s, n, sh)
    requires t.cpu == s.cpu && t.port == s.port && t.shadows == s.shadows && t.tick == s.tick
    ensures FrontOk(im, c, ps, t, n, sh)
  {
  }

  lemma {:induction false} SysFollowsLaw(im: seq<Instr>, c: Core, h: nat, ps: seq<Packet>, k: nat)
    requires Halts(im, c, h, ps)
    ensures SysOk(im, c, ps, SysAt(im, c, k + 1), k)
  {
    hide Halts, SysOk, Front, Back;
    if k == 0 {
      FirstTick(im, c, h, ps);
    } else {
      SysFollowsLaw(im, c, h, ps, k - 1);
      SysStep(im, c, h, ps, SysAt(im, c, k), k - 1);
    }
  }

  lemma FirstTick(im: seq<Instr>, c: Core, h: nat, ps: seq<Packet>)
    requires Halts(im, c, h, ps)
    ensures SysOk(im, c, ps, SysAt(im, c, 1), 0)
  {
    hide StepCore, PacketOf, Created;
    assert SysAt(im, c, 0) == Start(c);
    FirstFront(im, c);
  }

  /** In its usual order the simulator keeps IF supplied, so that packet i is admitted in tick
      Admit(i) + 1 and reaches WB in tick Admit(i) + 3: WB has it before tick k + 1 exactly when that tick
      has passed. */
  lemma ArrivalLaw(im: seq<Instr>, c: Core, h: nat, ps: seq<Packet>, k: nat, i: nat)
    requires Halts(im, c, h, ps) && i <= h
    ensures SysAt(im, c, k + 1).received <= ps
    ensures i < |SysAt(im, c, k + 1).received| <==> Admit(ps, i) + 3 <= k
  {
    hide Halts, Admit, WaitingAt, FrontOk, SysAt;
    HaltLength(im, c, h, ps);
    SysFollowsLaw(im, c, h, ps, k);
    if k >= 2 {
      AdmissionLaw(ps, k - 2, i);
    } else if i > 0 {
      AdmitIncreases(ps, 0, i);
    } else {
      AdmitFirst(ps);
    }
  }

  lemma HaltLength(im: seq<Instr>, c: Core, h: nat, ps: seq<Packet>)
    requires Halts(im, c, h, ps)
    ensures |ps| == h + 1
  {
  }

  /** The simulation drains: when the second tick behind the admission of HCF is over, every packet has
      reached WB, in order, nothing is left anywhere and no event is scheduled. */
  lemma SimulationDrains(im: seq<Instr>, c: Core, h: nat, ps: seq<Packet>)
    requires Halts(im, c, h, ps)
    ensures Admit(ps, h) >= 0
    ensures var s := SysAt(im, c, Admit(ps, h) + 4);
            && s.received == ps && InFlight(s) == ps
            && s.cpu.event.None? && s.cpu.cnt == h + 1 && CoreAt(im, c, h + 1) == Some(s.cpu.core)
  {
    hide Admit, WaitingAt, SysAt, CoreAt, Created;
    AdmitNonNegative(ps, h);
    var k := Admit(ps, h) + 3;
    SysFollowsLaw(im, c, h, ps, k);
    AdmissionLaw(ps, k - 2, h);
    CountsStep(ps, k - 2);
    CountsStep(ps, k - 1);
  }

  /** Something is scheduled, held back or on its way. */
  predicate Busy(s: Sys) {
    || s.cpu.event.Some? || s.cpu.pending.Some? || s.port.Some?
    || s.if2exe.inHalf.Some? || s.if2exe.outHalf.Some? || s.exe2wb.inHalf.Some? || s.exe2wb.outHalf.Some?
  }

  /** The processor never meets a missing instruction before HCF. */
  lemma EventCanRun(im: seq<Instr>, c: Core, h: nat, ps: seq<Packet>, t: nat)
    requires Halts(im, c, h, ps)
    ensures var s := SysAt(im, c, t);
            s.cpu.event == Some(s.tick) ==> StepCore(im, s.cpu.core).Some?
  {
    hide StepCore, PacketOf, SysAt, CoreAt, Created, WaitingAt;
    if t == 0 {
      assert SysAt(im, c, 0) == Start(c) by { SysAtStart(im, c); }
    } else {
      SysFollowsLaw(im, c, h, ps, t - 1);
      var s := SysAt(im, c, t);
      if s.cpu.cnt < |ps| { PacketAt(im, c, |ps|, s.cpu.cnt); }
    }
  }

  lemma NextSys(im: seq<Instr>, c: Core, t: nat)
    ensures SysAt(im, c, t + 1) == Back(Front(im, SysAt(im, c, t)))
  {
    hide Front, Back;
  }

  lemma SysAtStart(im: seq<Instr>, c: Core)
    ensures SysAt(im, c, 0) == Start(c)
  {
  }

  /** An idle simulator has delivered everything, and it is idle by the tick the law gives. */
  lemma IdleMeansDrained(im: seq<Instr>, c: Core, h: nat, ps: seq<Packet>, t: nat)
    requires Halts(im, c, h, ps)
    ensures var s := SysAt(im, c, t);
            && (!Busy(s) ==> s.received == ps && s.cpu.cnt == h + 1 && CoreAt(im, c, h + 1) == Some(s.cpu.core))
            && (t == Admit(ps, h) + 4 ==> !Busy(s))
  {
    hide Admit, WaitingAt, SysAt, CoreAt, Created, StepCore;
    if t == 0 {
      SysAtStart(im, c);
      AdmitNonNegative(ps, h);
    } else {
      SysFollowsLaw(im, c, h, ps, t - 1);
      CountsStep(ps, t - 3);
      CountsStep(ps, t - 2);
      if t == Admit(ps, h) + 4 { SimulationDrains(im, c, h, ps); }
    }
  }

  // ----- The usual order is one of the orders allowed -----

  lemma RunThen(im: seq<Instr>, c: Core, acts: seq<Action>, s: Sys, a: Action)
    requires Run(im, Start(c), acts) == Some(s) && Enabled(im, s, a)
    ensures Run(im, Start(c), acts + [a]) == Some(Do(im, s, a))
  {
    hide Enabled, Do;
    assert (acts + [a])[..|acts|] == acts;
  }

  lemma FrontIsARun(im: seq<Instr>, c: Core, acts: seq<Action>, s: Sys) returns (more: seq<Action>)
    requires Run(im, Start(c), acts) == Some(s) && s.phase == NEW_TICK
    ensures Run(im, Start(c), more) == Some(Front(im, s)) && Front(im, s).phase == Phase(true, false, false)
  {
    hide Run, StepCore, PacketOf, Stalls;
    more := acts;
    if Enabled(im, s, Exec) {
      RunThen(im, c, more, s, Exec);
      more := more + [Exec];
    }
    var t := RunEvent(im, s);
    RunThen(im, c, more, t, StepIF);
    more := more + [StepIF];
    if DoIF(t).port.None? {
      RunThen(im, c, more, DoIF(t), Retry);
      more := more + [Retry];
    }
  }

  lemma BackIsARun(im: seq<Instr>, c: Core, acts: seq<Action>, s: Sys) returns (more: seq<Action>)
    requires Run(im, Start(c), acts) == Some(s) && s.phase == Phase(true, false, false) && s.cpu.event != Some(s.tick)
    ensures Run(im, Start(c), more) == Some(Back(s)) && Back(s).phase == NEW_TICK
  {
    hide Run, StepCore;
    RunThen(im, c, acts, s, StepEXE);
    RunThen(im, c, acts + [StepEXE], DoEXE(s), StepWB);
    RunThen(im, c, acts + [StepEXE] + [StepWB], DoWB(DoEXE(s)), Sync);
    more := acts + [StepEXE] + [StepWB] + [Sync];
  }

  /** The usual order is a run in the sense of the order-independent results, so they hold of it too. */
  lemma {:induction false} UsualOrderIsARun(im: seq<Instr>, c: Core, h: nat, ps: seq<Packet>, t: nat)
      returns (acts: seq<Action>)
    requires Halts(im, c, h, ps)
    ensures Run(im, Start(c), acts) == Some(SysAt(im, c, t)) && SysAt(im, c, t).phase == NEW_TICK
  {
    hide Halts, Front, Back, Run, WaitingAt, Between, StepCore, CoreAt;
    if t == 0 {
      acts := [];
      EmptyRun(im, c);
    } else {
      acts := UsualOrderIsARun(im, c, h, ps, t - 1);
      var s := SysAt(im, c, t - 1);
      acts := FrontIsARun(im, c, acts, s);
      if t == 1 {
        FirstFront(im, c);
      } else {
        SysFollowsLaw(im, c, h, ps, t - 2);
        FrontStep(im, c, h, ps, s, t - 2);
      }
      acts := BackIsARun(im, c, acts, Front(im, s));
    }
  }

  lemma EmptyRun(im: seq<Instr>, c: Core)
    ensures Run(im, Start(c), []) == Some(Start(c))
  {
  }

  lemma FirstFront(im: seq<Instr>, c: Core)
    ensures Front(im, Start(c)) == Start(c).(phase := Phase(true, false, false))
  {
    hide StepCore, PacketOf;
  }
}
