/** The packet pipeline behind the functional processor, with the simulator's port and pipe registers,
    under every order in which its components may run within a tick. */
module PacketPipeline {
  import opened Words
  import opened DataStruct
  import opened F = FunctionalCpu

  // ----- Port and pipe register -----

  /** A pipe register: packets are pushed into the in-half, popped from the out-half, and cross at sync. */
  datatype PipeReg = PipeReg(inHalf: Option<Packet>, outHalf: Option<Packet>, stalled: bool)

  const EMPTY_REG := PipeReg(None, None, false)

  /** Sync moves a packet on when the out-half has been popped, and lifts the stall flag. */
  function SyncReg(r: PipeReg): PipeReg {
    if r.outHalf.None? then PipeReg(None, r.inHalf, false) else r.(stalled := false)
  }

  // ----- The IF scoreboard -----

  /** IF's own copies of the packets it believes to be in EXE and WB. */
  datatype Shadows = Shadows(exe: Option<Packet>, wb: Option<Packet>)

  function GetDestReg(i: Instr): bv5 {
    match i.op
    case Add | Addi | Lw | Lui | Jal => i.a1.reg
    case _ => 0
  }

  predicate CheckDataHazard(rd: bv5, i: Instr) {
    var rs1: bv5, rs2: bv5 :=
      match i.op
      case Add => i.a2.reg
      case Addi | Lw => i.a2.reg
      case Beq | Sb => i.a1.reg
      case _ => 0,
      match i.op
      case Add => i.a3.reg
      case Beq | Sb => i.a2.reg
      case _ => 0;
    (rd == rs1 || rd == rs2) && rd != 0
  }

  /** The coded dependence of a packet on an older one. */
  predicate DependsOn(p: Packet, older: Packet) {
    CheckDataHazard(GetDestReg(older.inst), p.inst)
  }

  predicate Stalls(sh: Shadows, p: Packet) {
    || (sh.exe.Some? && (DependsOn(p, sh.exe.value) || sh.exe.value.taken))
    || (sh.wb.Some? && DependsOn(p, sh.wb.value))
  }

  /** The shadows after a tick in which IF found p in the port. */
  function NextShadows(sh: Shadows, p: Packet): Shadows {
    Shadows(if Stalls(sh, p) then None else Some(p), sh.exe)
  }

  // ----- The whole simulator -----

  /** The processor's side: architectural state, instruction count, the packet held back by a full port,
      and the tick of the scheduled next-instruction event. */
  datatype Cpu = Cpu(core: Core, cnt: nat, pending: Option<Packet>, event: Option<nat>)

  /** Which stages have stepped in the current tick. */
  datatype Phase = Phase(fetched: bool, executed: bool, written: bool)

  const NEW_TICK := Phase(false, false, false)

  /** failed records that one of the three error branches for a refused push was taken. */
  datatype Sys = Sys(tick: nat, phase: Phase, cpu: Cpu, port: Option<Packet>, shadows: Shadows,
                     if2exe: PipeReg, exe2wb: PipeReg, received: seq<Packet>, failed: bool)

  datatype Action = Exec | Retry | StepIF | StepEXE | StepWB | Sync

  /** simInit schedules the first instruction for the next tick. */
  function Start(c: Core): Sys {
    Sys(0, NEW_TICK, Cpu(c, 0, None, Some(1)), None, Shadows(None, None), EMPTY_REG, EMPTY_REG, [], false)
  }

  /** An instruction that goes out schedules its successor, unless it is HCF. */
  function EventAfter(p: Packet, tick: nat): Option<nat> {
    if p.inst.op == Hcf then None else Some(tick + 1)
  }

  function DoExec(im: seq<Instr>, s: Sys): Sys
    requires StepCore(im, s.cpu.core).Some?
  {
    var p := PacketOf(im, s.cpu.core);
    var c := StepCore(im, s.cpu.core).value;
    if s.port.None?
    then s.(cpu := Cpu(c, s.cpu.cnt + 1, s.cpu.pending, EventAfter(p, s.tick)), port := Some(p))
    else s.(cpu := Cpu(c, s.cpu.cnt + 1, Some(p), None))
  }

  function DoRetry(s: Sys): Sys {
    if s.cpu.pending.None? then s
    else if s.port.None?
    then s.(cpu := s.cpu.(pending := None, event := EventAfter(s.cpu.pending.value, s.tick)), port := s.cpu.pending)
    else s.(failed := true)
  }

  function DoIF(s: Sys): Sys {
    var t := s.(phase := s.phase.(fetched := true));
    if s.port.None? then t
    else
      var p := s.port.value;
      var u := t.(shadows := NextShadows(s.shadows, p));
      if Stalls(s.shadows, p) then u
      else if s.if2exe.inHalf.Some? then u.(port := None, failed := true)
      else u.(port := None, if2exe := s.if2exe.(inHalf := Some(p)))
  }

  function DoEXE(s: Sys): Sys {
    var t := s.(phase := s.phase.(executed := true));
    if s.if2exe.outHalf.None? || s.exe2wb.stalled then t
    else
      var u := t.(if2exe := s.if2exe.(outHalf := None));
      if s.exe2wb.inHalf.Some? then u.(failed := true)
      else u.(exe2wb := s.exe2wb.(inHalf := s.if2exe.outHalf))
  }

  function DoWB(s: Sys): Sys {
    var t := s.(phase := s.phase.(written := true));
    if s.exe2wb.outHalf.None? then t
    else t.(exe2wb := s.exe2wb.(outHalf := None), received := s.received + [s.exe2wb.outHalf.value])
  }

  function DoSync(s: Sys): Sys {
    s.(tick := s.tick + 1, phase := NEW_TICK, if2exe := SyncReg(s.if2exe), exe2wb := SyncReg(s.exe2wb))
  }

  /** An event runs in its tick; the retry callback can come whenever the port is free; each stage steps
      once a tick, in any order; sync ends the tick. */
  predicate Enabled(im: seq<Instr>, s: Sys, a: Action) {
    match a
    case Exec => s.cpu.event == Some(s.tick) && StepCore(im, s.cpu.core).Some?
    case Retry => s.port.None?
    case StepIF => !s.phase.fetched
    case StepEXE => !s.phase.executed
    case StepWB => !s.phase.written
    case Sync => s.phase == Phase(true, true, true) && s.cpu.event != Some(s.tick)
  }

  function Do(im: seq<Instr>, s: Sys, a: Action): Sys
    requires Enabled(im, s, a)
  {
    match a
    case Exec => DoExec(im, s)
    case Retry => DoRetry(s)
    case StepIF => DoIF(s)
    case StepEXE => DoEXE(s)
    case StepWB => DoWB(s)
    case Sync => DoSync(s)
  }

  /** The state after a list of actions; None when one of them was not possible. */
  function Run(im: seq<Instr>, s: Sys, acts: seq<Action>): Option<Sys> {
    if acts == [] then Some(s)
    else
      match Run(im, s, acts[..|acts| - 1])
      case None => None
      case Some(t) =>
        if Enabled(im, t, acts[|acts| - 1]) then Some(Do(im, t, acts[|acts| - 1])) else None
  }

  // ----- Conservation -----

  function Opt(o: Option<Packet>): seq<Packet> {
    match o case None => [] case Some(p) => [p]
  }

  /** Every packet in the simulator, oldest first. */
  function InFlight(s: Sys): seq<Packet> {
    s.received + Opt(s.exe2wb.outHalf) + Opt(s.exe2wb.inHalf) + Opt(s.if2exe.outHalf) + Opt(s.if2exe.inHalf)
    + Opt(s.port) + Opt(s.cpu.pending)
  }

  /** The packets of the first n instructions of a run. */
  function Created(im: seq<Instr>, c: Core, n: nat): (ps: seq<Packet>)
    requires CoreAt(im, c, n).Some?
    ensures |ps| == n
  {
    hide StepCore;
    if n == 0 then []
    else
      StepDefined(im, c, n);
      Created(im, c, n - 1) + [PacketOf(im, CoreAt(im, c, n - 1).value)]
  }

  /** HCF has gone out to the port. */
  predicate HcfSent(s: Sys, created: seq<Packet>) {
    created != [] && created[|created| - 1].inst.op == Hcf && s.cpu.pending.None?
  }

  /** Exactly one token drives the processor until HCF has gone out: a scheduled event, or a packet held
      back; afterwards there is none. */
  predicate TokenOk(s: Sys, created: seq<Packet>) {
    && (if HcfSent(s, created) then s.cpu.event.None? && s.cpu.pending.None?
        else s.cpu.event.Some? != s.cpu.pending.Some?)
    && (s.cpu.event.Some? ==> s.tick <= s.cpu.event.value <= s.tick + 1)
    && (s.cpu.pending.Some? ==> created != [] && s.cpu.pending.value == created[|created| - 1])
    && forall i :: 0 <= i < |created| - 1 ==> created[i].inst.op != Hcf
  }

  /** Where a tick stands decides which halves of the pipe registers can be full. */
  predicate PhaseOk(s: Sys) {
    && !s.exe2wb.stalled && !s.if2exe.stalled && !s.failed
    && (!s.phase.fetched ==> s.if2exe.inHalf.None?)
    && (s.phase.executed ==> s.if2exe.outHalf.None?)
    && (!s.phase.executed ==> s.exe2wb.inHalf.None?)
    && (s.phase.written ==> s.exe2wb.outHalf.None?)
  }

  predicate Ok(im: seq<Instr>, c: Core, s: Sys) {
    && CoreAt(im, c, s.cpu.cnt) == Some(s.cpu.core)
    && InFlight(s) == Created(im, c, s.cpu.cnt)
    && TokenOk(s, Created(im, c, s.cpu.cnt))
    && PhaseOk(s)
  }

  lemma StartOk(im: seq<Instr>, c: Core)
    ensures Ok(im, c, Start(c))
  {
  }

  lemma ExecOk(im: seq<Instr>, c: Core, s: Sys)
    requires Ok(im, c, s) && Enabled(im, s, Exec)
    ensures Ok(im, c, DoExec(im, s))
  {
    hide StepCore, PacketOf, InFlight, TokenOk, PhaseOk, DoExec;
    var p, created := PacketOf(im, s.cpu.core), Created(im, c, s.cpu.cnt);
    ExecAdds(im, s, created);
    assert Created(im, c, s.cpu.cnt + 1) == created + [p];
    assert CoreAt(im, c, s.cpu.cnt + 1) == StepCore(im, s.cpu.core);
  }

  lemma ExecAdds(im: seq<Instr>, s: Sys, created: seq<Packet>)
    requires Enabled(im, s, Exec) && InFlight(s) == created && TokenOk(s, created) && PhaseOk(s)
    ensures var t, p := DoExec(im, s), PacketOf(im, s.cpu.core);
            && t.cpu.core == StepCore(im, s.cpu.core).value && t.cpu.cnt == s.cpu.cnt + 1
            && InFlight(t) == created + [p] && TokenOk(t, created + [p]) && PhaseOk(t)
  {
    hide StepCore, PacketOf, InFlight, TokenOk;
    ExecToken(im, s, created);
    ExecInFlight(im, s, created);
  }

  lemma ExecInFlight(im: seq<Instr>, s: Sys, created: seq<Packet>)
    requires StepCore(im, s.cpu.core).Some? && s.cpu.pending.None? && InFlight(s) == created
    ensures InFlight(DoExec(im, s)) == created + [PacketOf(im, s.cpu.core)]
  {
    hide StepCore, PacketOf;
  }

  lemma ExecToken(im: seq<Instr>, s: Sys, created: seq<Packet>)
    requires Enabled(im, s, Exec) && TokenOk(s, created)
    ensures s.cpu.pending.None? && TokenOk(DoExec(im, s), created + [PacketOf(im, s.cpu.core)])
  {
    hide StepCore, PacketOf;
  }

  /** Moving packets on keeps them all, in order. */
  lemma StageOk(im: seq<Instr>, c: Core, s: Sys, a: Action)
    requires Ok(im, c, s) && Enabled(im, s, a) && a != Exec
    ensures Ok(im, c, Do(im, s, a))
  {
    hide StepCore, PacketOf, Created, CoreAt, Stalls, InFlight, TokenOk, PhaseOk, DoRetry, DoIF, DoEXE, DoWB, DoSync;
    var created := Created(im, c, s.cpu.cnt);
    match a
    case Retry => RetryKeeps(s, created);
    case StepIF => FetchKeeps(s, created);
    case StepEXE => ExecuteKeeps(s, created);
    case StepWB => WriteKeeps(s, created);
    case Sync => SyncKeeps(s, created);
  }

  predicate Kept(s: Sys, t: Sys, created: seq<Packet>) {
    t.cpu.core == s.cpu.core && t.cpu.cnt == s.cpu.cnt && InFlight(t) == created && TokenOk(t, created) && PhaseOk(t)
  }

  lemma TokenUnmoved(s: Sys, t: Sys, created: seq<Packet>)
    requires TokenOk(s, created) && t.cpu == s.cpu && t.tick == s.tick
    ensures TokenOk(t, created)
  {
  }

  lemma RetryKeeps(s: Sys, created: seq<Packet>)
    requires InFlight(s) == created && TokenOk(s, created) && PhaseOk(s) && s.port.None?
    ensures Kept(s, DoRetry(s), created)
  {
    assert InFlight(DoRetry(s)) == InFlight(s);
  }

  lemma FetchKeeps(s: Sys, created: seq<Packet>)
    requires InFlight(s) == created && TokenOk(s, created) && PhaseOk(s) && !s.phase.fetched
    ensures Kept(s, DoIF(s), created)
  {
    hide Stalls, TokenOk, InFlight;
    TokenUnmoved(s, DoIF(s), created);
    FetchInFlight(s);
  }

  lemma FetchInFlight(s: Sys)
    requires PhaseOk(s) && !s.phase.fetched
    ensures InFlight(DoIF(s)) == InFlight(s)
  {
    hide Stalls;
    var before := s.received + Opt(s.exe2wb.outHalf) + Opt(s.exe2wb.inHalf) + Opt(s.if2exe.outHalf);
    assert before + [] == before;
  }

  lemma ExecuteKeeps(s: Sys, created: seq<Packet>)
    requires InFlight(s) == created && TokenOk(s, created) && PhaseOk(s) && !s.phase.executed
    ensures Kept(s, DoEXE(s), created)
  {
    hide TokenOk, InFlight;
    TokenUnmoved(s, DoEXE(s), created);
    ExecuteInFlight(s);
  }

  lemma ExecuteInFlight(s: Sys)
    requires PhaseOk(s) && !s.phase.executed
    ensures InFlight(DoEXE(s)) == InFlight(s)
  {
    var before := s.received + Opt(s.exe2wb.outHalf);
    assert before + [] == before;
  }

  lemma WriteKeeps(s: Sys, created: seq<Packet>)
    requires InFlight(s) == created && TokenOk(s, created) && PhaseOk(s) && !s.phase.written
    ensures Kept(s, DoWB(s), created)
  {
    hide TokenOk, InFlight;
    TokenUnmoved(s, DoWB(s), created);
    WriteInFlight(s);
  }

  lemma WriteInFlight(s: Sys)
    ensures InFlight(DoWB(s)) == InFlight(s)
  {
    assert DoWB(s).received + Opt(DoWB(s).exe2wb.outHalf) == s.received + Opt(s.exe2wb.outHalf);
  }

  lemma SyncKeeps(s: Sys, created: seq<Packet>)
    requires InFlight(s) == created && TokenOk(s, created) && PhaseOk(s)
    requires s.phase == Phase(true, true, true) && s.cpu.event != Some(s.tick)
    ensures Kept(s, DoSync(s), created)
  {
    assert InFlight(DoSync(s)) == InFlight(s);
  }

  lemma {:induction false} RunOk(im: seq<Instr>, c: Core, acts: seq<Action>)
    requires Run(im, Start(c), acts).Some?
    ensures Ok(im, c, Run(im, Start(c), acts).value)
  {
    hide Ok, Do, Enabled;
    if acts == [] {
      StartOk(im, c);
    } else {
      var n := |acts| - 1;
      RunOk(im, c, acts[..n]);
      var s := Run(im, Start(c), acts[..n]).value;
      if acts[n] == Exec {
        ExecOk(im, c, s);
        DoIsExec(im, s);
      } else {
        StageOk(im, c, s, acts[n]);
      }
    }
  }

  lemma DoIsExec(im: seq<Instr>, s: Sys)
    requires Enabled(im, s, Exec)
    ensures Do(im, s, Exec) == DoExec(im, s)
  {
  }

  /** End-to-end conservation. Whatever the order of components within each tick: the packets WB has
      received, then those in the pipe registers, the port and the processor's hand, are exactly the
      packets of the instructions executed so far, in order; and no error branch was taken. */
  lemma PacketsConserved(im: seq<Instr>, c: Core, acts: seq<Action>)
    requires Run(im, Start(c), acts).Some?
    ensures var s := Run(im, Start(c), acts).value;
            && CoreAt(im, c, s.cpu.cnt) == Some(s.cpu.core)
            && InFlight(s) == Created(im, c, s.cpu.cnt)
            && s.received <= Created(im, c, s.cpu.cnt)
            && !s.failed
  {
    hide Run, Created, CoreAt;
    RunOk(im, c, acts);
  }

  /** The backpressure token: before HCF has gone out exactly one of "next event scheduled" and "packet
      held back" is true, afterwards neither; every packet held back is that of the last instruction. */
  lemma OneToken(im: seq<Instr>, c: Core, acts: seq<Action>)
    requires Run(im, Start(c), acts).Some?
    ensures var s := Run(im, Start(c), acts).value;
            && CoreAt(im, c, s.cpu.cnt).Some? && TokenOk(s, Created(im, c, s.cpu.cnt))
  {
    hide Run, Created, CoreAt, TokenOk;
    RunOk(im, c, acts);
  }
}
