/** The data memory over a whole simulation: every byte is the one last written to its address, by a data
    directive, by an instruction marker of the first pass, or by a store of the run. */
module MemoryHistory {
  import opened Words
  import opened Numbers
  import opened DataStruct
  import opened ByteMemory
  import opened Assembler
  import opened SourceMachine
  import F = FunctionalCpu

  // ----- Writes of the assembler -----

  function ElementWrites(at: nat, size: nat, values: seq<int>, n: nat): seq<Write>
    requires n <= |values|
  {
    if n == 0 then []
    else
      ElementWrites(at, size, values, n - 1)
      + [Write(at + size * (n - 1), BytesOf(ToWord(Wrap(values[n - 1])), size))]
  }

  function MarkerWrites(at: nat, n: nat): seq<Write> {
    if n == 0 then [] else MarkerWrites(at, n - 1) + [Write(at + 4 * (n - 1), Marker())]
  }

  /** What the first n lines write, in order. */
  function WritesTo(cfg: Config, lines: seq<Line>, n: nat): seq<Write>
    requires n <= |lines|
  {
    if n == 0 then []
    else
      WritesTo(cfg, lines, n - 1) +
      match lines[n - 1]
      case Elements(size, values) => ElementWrites(Loc(cfg, lines, n - 1), size, values, |values|)
      case Code(src) => MarkerWrites(Loc(cfg, lines, n - 1), Slots(src))
      case _ => []
  }

  lemma OneMoreWrite(ws: seq<Write>, size: nat, w: Write)
    requires AllFit(ws, size) && w.at + |w.bytes| <= size
    ensures AllFit(ws + [w], size)
    ensures After(ws + [w], size) == Splice(After(ws, size), w.at, w.bytes)
  {
    hide Splice;
    assert (ws + [w])[..|ws|] == ws;
  }

  ghost predicate Remembers(st: Asm, ws: seq<Write>, size: nat) {
    AllFit(ws, size) && st.mem == After(ws, size)
  }

  lemma {:induction false} ElementsRemembered(st: Asm, size: nat, values: seq<int>, n: nat, ws: seq<Write>, total: nat)
    requires (size == 1 || size == 2 || size == 4) && n <= |values|
    requires ParseElements(st, size, values, n).Ok? && Remembers(st, ws, total)
    ensures var t := ParseElements(st, size, values, n).value;
            t.memoff == st.memoff + size * n && Remembers(t, ws + ElementWrites(st.memoff, size, values, n), total)
  {
    hide BytesOf, After, Splice, ToWord, ElementFits;
    if n == 0 {
      assert ws + [] == ws;
    } else {
      ElementsRemembered(st, size, values, n - 1, ws, total);
      var before := ws + ElementWrites(st.memoff, size, values, n - 1);
      var w := Write(st.memoff + size * (n - 1), BytesOf(ToWord(Wrap(values[n - 1])), size));
      assert size * n == size * (n - 1) + size;
      OneMoreWrite(before, total, w);
      assert before + [w] == ws + ElementWrites(st.memoff, size, values, n);
    }
  }

  lemma CodeRemembered(cfg: Config, st: Asm, src: Source, ws: seq<Write>, total: nat)
    requires ParseCode(cfg, st, src).Ok? && Remembers(st, ws, total)
    ensures var t := ParseCode(cfg, st, src).value;
            t.memoff == st.memoff + 4 * Slots(src) && Remembers(t, ws + MarkerWrites(st.memoff, Slots(src)), total)
  {
    hide Emit, After, Splice;
    var w, w2 := Write(st.memoff, Marker()), Write(st.memoff + 4, Marker());
    assert MarkerWrites(st.memoff, 0) == [];
    assert MarkerWrites(st.memoff, 1) == [w];
    OneMoreWrite(ws, total, w);
    if Slots(src) == 2 {
      assert MarkerWrites(st.memoff, 2) == [w, w2];
      OneMoreWrite(ws + [w], total, w2);
      assert ws + [w] + [w2] == ws + [w, w2];
    }
  }

  /** The memory the first pass leaves is the history of its directives and markers. */
  lemma {:induction false} ParseRemembered(cfg: Config, lines: seq<Line>, n: nat)
    requires WellFormedLines(lines) && n <= |lines| && Parse(cfg, lines, n).Ok?
    ensures var st := Parse(cfg, lines, n).value;
            st.memoff == Loc(cfg, lines, n) && Remembers(st, WritesTo(cfg, lines, n), cfg.memSize)
  {
    hide ParseElements, ParseCode, After, ElementWrites, MarkerWrites, Slots;
    if n == 0 {
      NoWrites(cfg.memSize);
    } else {
      ParseRemembered(cfg, lines, n - 1);
      var st, ws := Parse(cfg, lines, n - 1).value, WritesTo(cfg, lines, n - 1);
      assert ParseLine(cfg, st, lines[n - 1]) == Parse(cfg, lines, n);
      match lines[n - 1]
      case Elements(size, values) => ElementsRemembered(st, size, values, |values|, ws, cfg.memSize);
      case Code(src) => CodeRemembered(cfg, st, src, ws, cfg.memSize);
      case _ => assert ws + [] == ws;
    }
  }

  lemma NoWrites(size: nat)
    ensures AllFit([], size) && After([], size) == Zeroed(size)
  {
  }

  // ----- Writes of the run -----

  /** What one instruction writes to memory. */
  function StoreOf(im: seq<Instr>, c: F.Core): seq<Write> {
    match F.Fetch(im, c.pc)
    case None => []
    case Some(i) =>
      if IsStore(i.op)
      then [Write(ToNum(Sum(ReadReg(c.rf, i.a2.reg), i.a3.imm)), BytesOf(ReadReg(c.rf, i.a1.reg), Size(i.op)))]
      else []
  }

  function StoresTo(im: seq<Instr>, c: F.Core, n: nat): seq<Write> {
    if n == 0 || F.CoreAt(im, c, n - 1).None? then []
    else StoresTo(im, c, n - 1) + StoreOf(im, F.CoreAt(im, c, n - 1).value)
  }

  lemma StepRemembered(im: seq<Instr>, c: F.Core, ws: seq<Write>)
    requires F.StepCore(im, c).Some? && AllFit(ws, |c.mem|) && c.mem == After(ws, |c.mem|)
    ensures var d := F.StepCore(im, c).value;
            && |d.mem| == |c.mem| && AllFit(ws + StoreOf(im, c), |c.mem|)
            && d.mem == After(ws + StoreOf(im, c), |c.mem|)
  {
    hide After, Splice, BytesOf, F.Arith, F.Put, Sum, F.Upper, F.Holds, ToNum, ToWord, ReadReg, Load;
    var i := im[c.pc / 4];
    if IsStore(i.op) {
      var a := ToNum(Sum(ReadReg(c.rf, i.a2.reg), i.a3.imm));
      StoreIsWrite(ws, |c.mem|, i.op, a, ReadReg(c.rf, i.a1.reg));
    } else {
      assert ws + [] == ws;
    }
  }

  /** At every point of a run the memory is the history it started from and the stores since. */
  lemma {:induction false} RunRemembered(im: seq<Instr>, c: F.Core, ws: seq<Write>, n: nat)
    requires AllFit(ws, |c.mem|) && c.mem == After(ws, |c.mem|) && F.CoreAt(im, c, n).Some?
    ensures var d, all := F.CoreAt(im, c, n).value, ws + StoresTo(im, c, n);
            |d.mem| == |c.mem| && AllFit(all, |c.mem|) && d.mem == After(all, |c.mem|)
  {
    hide F.StepCore, After, StoreOf;
    if n == 0 {
      assert ws + [] == ws;
    } else {
      F.StepDefined(im, c, n);
      RunRemembered(im, c, ws, n - 1);
      var d := F.CoreAt(im, c, n - 1).value;
      StepRemembered(im, d, ws + StoresTo(im, c, n - 1));
      assert ws + StoresTo(im, c, n - 1) + StoreOf(im, d) == ws + StoresTo(im, c, n);
    }
  }

  /** From source to load: at any point of an assembled program's run, a load in bounds returns the
      extended little-endian value of the bytes last written, by directives, markers or stores. */
  lemma LoadsReadHistory(cfg: Config, lines: seq<Line>, prog: Asm, c: F.Core, n: nat, op: Op, a: Addr)
    requires WellFormedLines(lines) && Assemble(cfg, lines) == Ok(prog) && c.mem == prog.mem
    requires F.CoreAt(prog.imem, c, n).Some? && IsLoad(op) && a + Size(op) <= cfg.memSize
    ensures var ws := WritesTo(cfg, lines, |lines|) + StoresTo(prog.imem, c, n);
            Load(op, F.CoreAt(prog.imem, c, n).value.mem, a) == Some(ExtendLoad(op, Value(LastBytes(ws, a, Size(op)))))
  {
    hide After, F.CoreAt, Load, LastBytes, Value, ExtendLoad, Normalize, Parse, WritesTo, StoresTo;
    ParseRemembered(cfg, lines, |lines|);
    var ws := WritesTo(cfg, lines, |lines|);
    RunRemembered(prog.imem, c, ws, n);
    LoadReadsLastWrites(ws + StoresTo(prog.imem, c, n), cfg.memSize, op, a);
  }
}
