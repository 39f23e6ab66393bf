/** The multi-cycle data memory: a four-state latency machine over a byte array. */
module DataMem {
  import opened Words
  import opened RiscvDefs

  datatype State = Idle | Read | Write | Wait

  /** Input ports of the memory in one cycle. */
  datatype Request = Request(memR: bool, memW: bool, length: bv4, raddr: Pc, waddr: Pc, wdata: Word)

  /** All registers of the memory between two clock edges. */
  datatype Mem = Mem(state: State, counter: nat, dataReg: Word, readAddr: Pc, writeAddr: Pc,
                     writeData: Word, length: bv4, bytes: Bytes)

  function Pow2(n: nat): (p: nat)
    ensures p > 0
  {
    if n == 0 then 1 else 2 * Pow2(n - 1)
  }

  /** Least w with latency <= 2^w. */
  function Log2Ceil(latency: nat): (w: nat)
    requires latency > 0
    ensures latency <= Pow2(w) && (w > 0 ==> Pow2(w - 1) < latency)
  {
    if latency == 1 then 0 else 1 + Log2Ceil((latency + 1) / 2)
  }

  /** Number of values the counter register can hold. */
  function CounterRange(latency: nat): nat
    requires latency > 0
  {
    if Log2Ceil(latency) == 0 then 2 else Pow2(Log2Ceil(latency))
  }

  /** The counter register incremented at its own width. */
  function Bump(latency: nat, counter: nat): nat
    requires latency > 0
  {
    (counter + 1) % CounterRange(latency)
  }

  /** A count below the latency fits the register, so incrementing it short of the latency is exact. */
  lemma CounterFits(latency: nat, counter: nat)
    requires 0 < latency && counter < latency
    ensures counter < CounterRange(latency)
    ensures counter + 1 < latency ==> Bump(latency, counter) == counter + 1
  {
    hide Log2Ceil;
    assert latency <= CounterRange(latency);
    if counter + 1 < latency { SmallMod(counter + 1, CounterRange(latency)); }
  }

  lemma SmallMod(x: nat, m: nat)
    requires x < m
    ensures x % m == x
  {
  }

  function Aligned(length: bv4, addr: Pc): Pc {
    if length == BYTE then addr
    else if length == HALF then addr & 0x7ffe
    else addr & 0x7ffc
  }

  function SignExtend8(b: bv8): Word {
    if b & 0x80 != 0 then b as Word | 0xffff_ff00 else b as Word
  }

  function SignExtend16(h: Word): Word {
    if h & 0x8000 != 0 then h | 0xffff_0000 else h
  }

  function HalfAt(mem: Bytes, a: Pc): Word {
    (ByteAfter(mem, a, 1) as Word << 8) | (ByteAt(mem, a) as Word)
  }

  function WordAt(mem: Bytes, a: Pc): Word {
    (ByteAfter(mem, a, 3) as Word << 24) | (ByteAfter(mem, a, 2) as Word << 16)
    | (ByteAfter(mem, a, 1) as Word << 8) | (ByteAt(mem, a) as Word)
  }

  /** Value of a load. Unsigned loads use the word-aligned default address. */
  function LoadValue(mem: Bytes, length: bv4, addr: Pc): Word {
    var a := Aligned(length, addr);
    if length == BYTE then SignExtend8(ByteAt(mem, a))
    else if length == HALF then SignExtend16(HalfAt(mem, a))
    else if length == WORD then WordAt(mem, a)
    else if length == UBYTE then ByteAt(mem, a) as Word
    else if length == UHALF then HalfAt(mem, a)
    else 0
  }

  function ByteOf(w: Word, shift: nat): bv8
    requires shift <= 24
  {
    ((w >> shift) & 0xff) as bv8
  }

  function StoreWord(mem: Bytes, a: Pc, wd: Word): Bytes {
    SetByte(SetByte(SetByte(SetByte(mem, a, ByteOf(wd, 0)), a + 1, ByteOf(wd, 8)),
                    a + 2, ByteOf(wd, 16)), a + 3, ByteOf(wd, 24))
  }

  /** Effect of a store. Lengths other than byte, half and word write a zero word. */
  function StoreBytes(mem: Bytes, length: bv4, addr: Pc, data: Word): Bytes {
    var a := Aligned(length, addr);
    if length == BYTE then SetByte(mem, a, ByteOf(data, 0))
    else if length == HALF then SetByte(SetByte(mem, a, ByteOf(data, 0)), a + 1, ByteOf(data, 8))
    else StoreWord(mem, a, if length == WORD then data else 0)
  }

  /** The Valid output. */
  predicate Valid(latency: nat, m: Mem) {
    m.counter == latency - 1
  }

  /** One clock edge. */
  function Next(latency: nat, m: Mem, req: Request): Mem
    requires latency > 0
  {
    var valid := Valid(latency, m);
    var bumped := Bump(latency, m.counter);
    match m.state
    case Idle =>
      var n :=
        if req.memR then
          m.(state := Read, counter := 1, readAddr := req.raddr, length := req.length)
        else if req.memW then
          m.(state := Write, counter := 1, writeAddr := req.waddr, writeData := req.wdata, length := req.length)
        else m.(counter := 0);
      if valid then n.(state := Idle) else n
    case Read =>
      m.(dataReg := LoadValue(m.bytes, m.length, m.readAddr),
         state := if valid then Idle else Wait, counter := if valid then 0 else bumped)
    case Write =>
      m.(bytes := StoreBytes(m.bytes, m.length, m.writeAddr, m.writeData),
         state := if valid then Idle else Wait, counter := if valid then 0 else bumped)
    case Wait =>
      m.(state := if valid then Idle else Wait, counter := if valid then 0 else bumped)
  }

  /** State after the first n requests of a stream. */
  function Run(latency: nat, m: Mem, reqs: nat -> Request, n: nat): Mem
    requires latency > 0
  {
    if n == 0 then m else Next(latency, Run(latency, m, reqs, n - 1), reqs(n - 1))
  }

  // ----- Reference: an atomic byte memory with a response delay -----

  /** An accepted request takes effect at once; busy counts the cycles until its response. */
  datatype Atomic = Atomic(bytes: Bytes, busy: nat, data: Word)

  function AtomicNext(latency: nat, a: Atomic, req: Request): Atomic
    requires latency > 0
  {
    if a.busy > 0 then a.(busy := a.busy - 1)
    else if req.memR then
      a.(busy := latency - 1, data := LoadValue(a.bytes, req.length, req.raddr))
    else if req.memW then
      a.(busy := latency - 1, bytes := StoreBytes(a.bytes, req.length, req.waddr, req.wdata))
    else a
  }

  function AtomicRun(latency: nat, a: Atomic, reqs: nat -> Request, n: nat): Atomic
    requires latency > 0
  {
    if n == 0 then a else AtomicNext(latency, AtomicRun(latency, a, reqs, n - 1), reqs(n - 1))
  }

  /** The atomic memory a machine state stands for. */
  function Abstract(latency: nat, m: Mem): Atomic
    requires latency > 0
  {
    Atomic(
      if m.state == Write then StoreBytes(m.bytes, m.length, m.writeAddr, m.writeData) else m.bytes,
      if m.state == Idle || m.counter >= latency then 0 else latency - m.counter,
      if m.state == Read then LoadValue(m.bytes, m.length, m.readAddr) else m.dataReg)
  }

  /** The counter is zero in Idle, and never reaches the latency. */
  predicate Ok(latency: nat, m: Mem) {
    && latency >= 3
    && (m.state == Idle ==> m.counter == 0)
    && (m.state == Read || m.state == Write ==> m.counter == 1)
    && (m.state == Wait ==> 2 <= m.counter < latency)
  }

  lemma StepRefinesAtomic(latency: nat, m: Mem, req: Request)
    requires Ok(latency, m)
    ensures Ok(latency, Next(latency, m, req))
    ensures Abstract(latency, Next(latency, m, req)) == AtomicNext(latency, Abstract(latency, m), req)
    ensures Valid(latency, m) <==> Abstract(latency, m).busy == 1
    ensures Valid(latency, m) ==> m.dataReg == Abstract(latency, m).data
  {
    hide LoadValue, StoreBytes, Bump;
    CounterFits(latency, m.counter);
  }

  /** For every latency of at least three and every request stream, the machine is the atomic memory:
      each request is performed once, Valid rises when its response is due, with the atomic data. */
  lemma {:induction false} RefinesAtomic(latency: nat, m: Mem, reqs: nat -> Request, n: nat)
    requires Ok(latency, m)
    ensures var k := Run(latency, m, reqs, n);
            var a := AtomicRun(latency, Abstract(latency, m), reqs, n);
            && Ok(latency, k) && Abstract(latency, k) == a
            && (Valid(latency, k) <==> a.busy == 1)
            && (Valid(latency, k) ==> k.dataReg == a.data)
            && (k.state == Idle ==> k.bytes == a.bytes)
  {
    hide LoadValue, StoreBytes, AtomicNext, Next;
    if n > 0 {
      RefinesAtomic(latency, m, reqs, n - 1);
      StepRefinesAtomic(latency, Run(latency, m, reqs, n - 1), reqs(n - 1));
    }
    StepRefinesAtomic(latency, Run(latency, m, reqs, n), reqs(n));
  }

  /** The counter never wraps. It stays below the latency, which its width can hold; it is 0 in Idle; and in
      every busy cycle that does not raise Valid it grows by exactly one, although the register is
      incremented at its own width. With Valid it returns to 0 and the machine to Idle. */
  lemma CounterNeverWraps(latency: nat, m: Mem, reqs: nat -> Request, n: nat)
    requires Ok(latency, m)
    ensures var k, next := Run(latency, m, reqs, n), Run(latency, m, reqs, n + 1);
            && k.counter < latency <= CounterRange(latency)
            && (k.state == Idle ==> k.counter == 0)
            && (k.state != Idle && !Valid(latency, k) ==> next.counter == k.counter + 1 && next.state == Wait)
            && (Valid(latency, k) ==> k.state == Wait && next.counter == 0 && next.state == Idle)
  {
    hide LoadValue, StoreBytes, Bump;
    RefinesAtomic(latency, m, reqs, n);
    CounterFits(latency, Run(latency, m, reqs, n).counter);
  }

  /** A held read request is answered at cycle latency - 1 with the value the memory holds. */
  ghost predicate AnswersRead(latency: nat, m: Mem, length: bv4, addr: Pc, wdata: Word)
    requires latency > 0
  {
    var reqs := (_: nat) => Request(true, false, length, addr, addr, wdata);
    && Valid(latency, Run(latency, m, reqs, latency - 1))
    && Run(latency, m, reqs, latency - 1).dataReg == LoadValue(m.bytes, length, addr)
    && forall i: nat :: i < latency - 1 ==> !Valid(latency, Run(latency, m, reqs, i))
  }

  predicate Fresh(m: Mem) {
    m.state == Idle && m.counter == 0
  }

  lemma {:induction false} BusyCountsDown(latency: nat, a: Atomic, reqs: nat -> Request, i: nat)
    requires latency >= 3 && a.busy == 0 && reqs(0).memR && 1 <= i <= latency
    ensures var b := AtomicRun(latency, a, reqs, i);
            b.busy == latency - i && b.data == LoadValue(a.bytes, reqs(0).length, reqs(0).raddr)
  {
    hide LoadValue;
    if i == 1 {
      assert AtomicRun(latency, a, reqs, 0) == a;
    } else {
      BusyCountsDown(latency, a, reqs, i - 1);
    }
  }

  lemma HeldReadIsAnswered(latency: nat, m: Mem, length: bv4, addr: Pc, wdata: Word)
    requires latency >= 3 && Fresh(m)
    ensures AnswersRead(latency, m, length, addr, wdata)
  {
    hide LoadValue, StoreBytes, AtomicNext, Next;
    var reqs := (_: nat) => Request(true, false, length, addr, addr, wdata);
    forall i: nat | i < latency
      ensures Valid(latency, Run(latency, m, reqs, i)) <==> i == latency - 1
    {
      RefinesAtomic(latency, m, reqs, i);
      if i > 0 { BusyCountsDown(latency, Abstract(latency, m), reqs, i); }
    }
    RefinesAtomic(latency, m, reqs, latency - 1);
    BusyCountsDown(latency, Abstract(latency, m), reqs, latency - 1);
  }

  /** The memory answers reads correctly exactly when its latency is at least three: at two it
      raises Valid before the data register is loaded, at one it drops the request. */
  lemma ReadsCorrectIff(latency: nat)
    requires latency > 0
    ensures latency >= 3 <==>
            forall m: Mem, length: bv4, addr: Pc, wdata: Word ::
              Fresh(m) ==> AnswersRead(latency, m, length, addr, wdata)
  {
    if latency >= 3 {
      forall m: Mem, length: bv4, addr: Pc, wdata: Word | Fresh(m)
        ensures AnswersRead(latency, m, length, addr, wdata)
      {
        HeldReadIsAnswered(latency, m, length, addr, wdata);
      }
    } else {
      var zeros: Bytes := seq(MEM_SIZE, _ => 0 as bv8);
      var m := Mem(Idle, 0, 1, 0, 0, 0, 0, zeros);
      var reqs := (_: nat) => Request(true, false, BYTE, 0, 0, 0);
      assert Run(latency, m, reqs, 0) == m;
      assert Run(latency, m, reqs, 1) == Next(latency, m, reqs(0));
      assert LoadValue(zeros, BYTE, 0) == 0;
      assert Fresh(m) && !AnswersRead(latency, m, BYTE, 0, 0);
    }
  }

  // ----- A request held on the ports until it is answered -----

  function Effect(mem: Bytes, req: Request): Bytes {
    if req.memW && !req.memR then StoreBytes(mem, req.length, req.waddr, req.wdata) else mem
  }

  /** The machine is serving req, which met the memory in state mem; Idle means not accepted yet. */
  predicate Serving(latency: nat, m: Mem, req: Request, mem: Bytes) {
    match m.state
    case Idle => m.counter == 0 && m.bytes == mem
    case Read =>
      && req.memR && m.counter == 1 && m.bytes == mem
      && m.length == req.length && m.readAddr == req.raddr
    case Write =>
      && req.memW && !req.memR && m.counter == 1 && m.bytes == mem
      && m.length == req.length && m.writeAddr == req.waddr && m.writeData == req.wdata
    case Wait =>
      && (req.memR || req.memW) && 2 <= m.counter < latency && m.bytes == Effect(mem, req)
      && (req.memR ==> m.dataReg == LoadValue(mem, req.length, req.raddr))
  }

  /** A held request is served once: its effect is there, with the data, in the cycle Valid rises,
      after which the machine is idle again. */
  lemma ServingStep(latency: nat, m: Mem, req: Request, mem: Bytes)
    requires latency >= 3 && Serving(latency, m, req, mem)
    ensures var m' := Next(latency, m, req);
            if Valid(latency, m) then
              && m.state == Wait && m'.state == Idle && m'.counter == 0 && m'.bytes == Effect(mem, req)
            else if req.memR || req.memW then
              && Serving(latency, m', req, mem) && m'.state != Idle && (m.state == Wait ==> m'.state == Wait)
            else m' == m
  {
    hide LoadValue, StoreBytes, Bump;
    CounterFits(latency, m.counter);
  }

  // ----- A request that stays on the ports after its answer -----

  /** Storing the same bytes again changes nothing. */
  lemma EffectTwice(mem: Bytes, req: Request)
    ensures Effect(Effect(mem, req), req) == Effect(mem, req)
  {
    hide SetByte, StoreWord, ByteOf, Aligned;
    var a, v, w := Aligned(req.length, req.waddr), ByteOf(req.wdata, 0), ByteOf(req.wdata, 8);
    SetOnce(mem, a, v);
    SetPair(mem, a, v, a + 1, w);
    WordTwice(mem, a, if req.length == WORD then req.wdata else 0);
  }

  lemma SetOnce(m: Bytes, a: Pc, v: bv8)
    ensures SetByte(SetByte(m, a, v), a, v) == SetByte(m, a, v)
  {
    hide Index;
  }

  lemma SetPair(m: Bytes, a: Pc, v: bv8, b: Pc, w: bv8)
    ensures SetByte(SetByte(SetByte(SetByte(m, a, v), b, w), a, v), b, w) == SetByte(SetByte(m, a, v), b, w)
  {
    hide Index;
  }

  lemma WordTwice(m: Bytes, a: Pc, v: Word)
    ensures StoreWord(StoreWord(m, a, v), a, v) == StoreWord(m, a, v)
  {
    hide Index, ByteOf;
    SetFour(m, Index(a), ByteOf(v, 0), Index(a + 1), ByteOf(v, 8), Index(a + 2), ByteOf(v, 16), Index(a + 3),
        ByteOf(v, 24));
  }

  lemma SetFour(m: Bytes, i: nat, v: bv8, j: nat, w: bv8, k: nat, x: bv8, l: nat, y: bv8)
    requires i < MEM_SIZE && j < MEM_SIZE && k < MEM_SIZE && l < MEM_SIZE
    ensures var s := m[i := v][j := w][k := x][l := y];
            s[i := v][j := w][k := x][l := y] == s
  {
  }

  /** What a request that is never taken off the ports leaves in memory: its effect, from the second cycle
      on and for good, however often the machine serves it again. */
  lemma {:induction false} HeldForGood(latency: nat, m: Mem, req: Request, n: nat)
    requires latency >= 3 && Fresh(m)
    ensures var k := Run(latency, m, _ => req, n);
            && k.bytes == (if n < 2 then m.bytes else Effect(m.bytes, req))
            && Serving(latency, k, req, if n < 2 then m.bytes else Effect(m.bytes, req))
            && (n == 0 ==> k == m) && (n == 1
               ==> if req.memR || req.memW then k.state == Read || k.state == Write else k == m)
  {
    hide StoreBytes, LoadValue, Effect, Bump;
    if n > 0 {
      var before := Run(latency, m, _ => req, n - 1);
      HeldForGood(latency, m, req, n - 1);
      ServingStep(latency, before, req, if n - 1 < 2 then m.bytes else Effect(m.bytes, req));
      EffectTwice(m.bytes, req);
      IdleEffect(m.bytes, req);
      CounterFits(latency, before.counter);
    }
  }

  /** Reading, or asking for nothing, has no effect. */
  lemma IdleEffect(mem: Bytes, req: Request)
    ensures req.memR || !req.memW ==> Effect(mem, req) == mem
    ensures req.memW && !req.memR ==> Effect(mem, req) == StoreBytes(mem, req.length, req.waddr, req.wdata)
  {
    hide StoreBytes;
  }
}
