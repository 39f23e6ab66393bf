/** The assembler as it runs: loops over lines, values, labels and slots that fill its memories in place.
    Each method either does what the pure passes say or stops with their error. */
module Emulator {
  import opened Words
  import opened Numbers
  import opened DataStruct
  import opened A = Assembler
  import M = ByteMemory

  function Marked(mem: seq<bv8>, at: nat, n: nat): (m: seq<bv8>)
    requires n <= 2 && at + 4 * n <= |mem|
    ensures |m| == |mem|
  {
    if n == 0 then mem
    else
      var once := M.Splice(mem, at, Marker());
      if n == 1 then once else M.Splice(once, at + 4, Marker())
  }

  /** One value of a directive. */
  function PlaceElement(st: Asm, size: nat, v: int): Result<Asm>
    requires size == 1 || size == 2 || size == 4
  {
    if !ElementFits(size, v) then Err(ValueOutOfBounds)
    else if !M.InRange(st.mem, st.memoff, size) then Err(DoesNotFit)
    else Ok(st.(mem := M.Splice(st.mem, st.memoff, M.BytesOf(ToWord(Wrap(v)), size)), memoff := st.memoff + size))
  }

  lemma NextElement(st: Asm, size: nat, values: seq<int>, k: nat)
    requires (size == 1 || size == 2 || size == 4) && k < |values| && ParseElements(st, size, values, k).Ok?
    ensures ParseElements(st, size, values, k + 1)
            == PlaceElement(ParseElements(st, size, values, k).value, size, values[k])
  {
    hide M.BytesOf, ToWord, ElementFits;
  }

  /** One or two slots written. */
  function Filled(imem: seq<Instr>, k: nat, n: nat, i: Instr, i2: Instr): seq<Instr>
    requires 1 <= n <= 2 && k + n <= |imem|
  {
    if n == 2 then imem[k := i][k + 1 := i2] else imem[k := i]
  }

  /** The first pass over one instruction, in these terms. */
  lemma CodeIs(cfg: Config, st: Asm, src: Source)
    ensures ParseCode(cfg, st, src)
            == var k, n := st.memoff / 4, Slots(src);
               if st.memoff + 4 > cfg.dataOffset then Err(CodeInData)
               else if k + n > |st.imem| || !M.InRange(st.mem, st.memoff, 4 * n) then Err(DoesNotFit)
               else
                 match Emit(src, st.imem[k], st.imem[k + n - 1])
                 case None => Err(BadImmediate)
                 case Some((i, i2)) =>
                   Ok(Asm(Filled(st.imem, k, n, i, i2), Marked(st.mem, st.memoff, n), st.labels, st.memoff + 4 * n))
  {
    hide Emit, M.Splice;
  }

  class Emulator {
    const cfg: Config
    const imem: array<Instr>
    const mem: array<bv8>
    var labels: seq<LabelLoc>
    var memoff: nat

    constructor (cfg: Config)
      ensures this.cfg == cfg && Valid() && View() == A.Start(cfg)
      ensures fresh(imem) && fresh(mem)
    {
      this.cfg := cfg;
      imem := new Instr[cfg.dataOffset / 4](_ => BLANK);
      mem := new bv8[cfg.memSize](_ => 0);
      labels, memoff := [], 0;
      new;
      assert imem[..] == A.Start(cfg).imem && mem[..] == A.Start(cfg).mem;
    }

    ghost predicate Valid() {
      var i: object, m: object := imem, mem;
      i != m
    }

    ghost function View(): Asm
      reads this, imem, mem
    {
      Asm(imem[..], mem[..], labels, memoff)
    }

    /** Copies bytes to an address, one after the other. */
    method Copy(at: nat, bytes: seq<bv8>)
      requires Valid() && at + |bytes| <= mem.Length
      modifies mem
      ensures mem[..] == M.Splice(old(mem[..]), at, bytes)
    {
      for k := 0 to |bytes|
        invariant forall i :: 0 <= i < mem.Length ==>
                    mem[i] == if at <= i < at + k then bytes[i - at] else old(mem[i])
      {
        mem[at + k] := bytes[k];
      }
    }

    /** Places one value where the section has got to. */
    method PlaceOne(size: nat, v: int) returns (err: Option<Error>)
      requires Valid() && (size == 1 || size == 2 || size == 4)
      modifies this`memoff, mem
      ensures match PlaceElement(old(View()), size, v)
              case Ok(t) => err.None? && View() == t
              case Err(e) => err == Some(e)
    {
      hide M.BytesOf, ToWord, ElementFits, M.Splice;
      if !ElementFits(size, v) {
        return Some(ValueOutOfBounds);
      }
      if memoff + size > mem.Length {
        return Some(DoesNotFit);
      }
      Copy(memoff, M.BytesOf(ToWord(Wrap(v)), size));
      memoff := memoff + size;
      return None;
    }

    method ParseDataElement(size: nat, values: seq<int>) returns (err: Option<Error>)
      requires Valid() && (size == 1 || size == 2 || size == 4)
      modifies this`memoff, mem
      ensures match ParseElements(old(View()), size, values, |values|)
              case Ok(t) => err.None? && View() == t
              case Err(e) => err == Some(e)
    {
      hide PlaceElement;
      ghost var start := View();
      err := None;
      for k := 0 to |values|
        invariant err.None? && ParseElements(start, size, values, k) == Ok(View())
      {
        NextElement(start, size, values, k);
        err := PlaceOne(size, values[k]);
        if err.Some? {
          ErrorsStay(start, size, values, k + 1, |values|);
          return;
        }
      }
    }

    /** Fills the slots of an instruction and marks the memory under them. */
    method ParseInstr(src: Source) returns (err: Option<Error>)
      requires Valid()
      modifies this`memoff, imem, mem
      ensures match ParseCode(cfg, old(View()), src)
              case Ok(t) => err.None? && View() == t
              case Err(e) => err == Some(e)
    {
      hide Emit, ParseCode, Filled, Marked;
      var k, n := memoff / 4, Slots(src);
      CodeIs(cfg, View(), src);
      if memoff + 4 > cfg.dataOffset {
        return Some(CodeInData);
      }
      if k + n > imem.Length || memoff + 4 * n > mem.Length {
        return Some(DoesNotFit);
      }
      var emitted := Emit(src, imem[k], imem[k + n - 1]);
      if emitted.None? {
        return Some(BadImmediate);
      }
      Fill(k, n, emitted.value.0, emitted.value.1);
      Mark(n);
      memoff := memoff + 4 * n;
      return None;
    }

    /** Writes one slot, or two. */
    method Fill(k: nat, n: nat, i: Instr, i2: Instr)
      requires Valid() && 1 <= n <= 2 && k + n <= imem.Length
      modifies imem
      ensures imem[..] == Filled(old(imem[..]), k, n, i, i2)
    {
      imem[k] := i;
      if n == 2 {
        imem[k + 1] := i2;
      }
    }

    /** Marks the words under n instruction slots. */
    method Mark(n: nat)
      requires Valid() && 1 <= n <= 2 && memoff + 4 * n <= mem.Length
      modifies mem
      ensures mem[..] == Marked(old(mem[..]), memoff, n)
    {
      for i := 0 to n
        invariant mem[..] == Marked(old(mem[..]), memoff, i)
      {
        Copy(memoff + 4 * i, Marker());
      }
    }

    method ParseOneLine(l: Line) returns (err: Option<Error>)
      requires Valid() && WellFormedLine(l)
      modifies this, imem, mem
      ensures match ParseLine(cfg, old(View()), l)
              case Ok(t) => err.None? && View() == t
              case Err(e) => err == Some(e)
    {
      hide ParseCode, ParseElements;
      err := None;
      match l {
        case Text => memoff := cfg.textOffset;
        case Data => memoff := cfg.dataOffset;
        case Elements(size, values) => err := ParseDataElement(size, values);
        case LabelDef(name) =>
          if |name| >= MAX_LABEL_LEN {
            return Some(LabelTooLong);
          }
          if |labels| >= cfg.maxLabels {
            return Some(TooManyLabels);
          }
          labels := labels + [LabelLoc(name, memoff)];
        case Code(src) => err := ParseInstr(src);
      }
    }

    /** The first pass. */
    method ParseAll(lines: seq<Line>) returns (err: Option<Error>)
      requires Valid() && View() == A.Start(cfg) && WellFormedLines(lines)
      modifies this, imem, mem
      ensures match A.Parse(cfg, lines, |lines|)
              case Ok(t) => err.None? && View() == t
              case Err(e) => err == Some(e)
    {
      hide ParseLine;
      for j := 0 to |lines|
        invariant A.Parse(cfg, lines, j) == Ok(View())
      {
        err := ParseOneLine(lines[j]);
        if err.Some? {
          LineErrorsStay(cfg, lines, j + 1, |lines|);
          return;
        }
      }
      return None;
    }

    /** Linear search for the first definition of a label. */
    method FindLabel(name: string) returns (addr: Option<nat>)
      ensures addr == LabelAddr(labels, name)
    {
      for i := 0 to |labels|
        invariant LabelAddr(labels, name) == LabelAddr(labels[i..], name)
      {
        assert labels[i..][1..] == labels[i + 1..];
        if labels[i].name == name {
          return Some(labels[i].loc);
        }
      }
      return None;
    }

    method BindOperand(o: Operand) returns (r: Result<Operand>)
      ensures r == Bind(labels, o)
    {
      if o.kind != Label {
        return Ok(o);
      }
      var a := FindLabel(o.name);
      return if a.None? then Err(UndefinedLabel) else Ok(o.(kind := Immediate, imm := ToWord(Wrap(a.value))));
    }

    /** The second pass on one slot. */
    method NormalizeSlot(k: nat) returns (err: Option<Error>)
      requires k < imem.Length
      modifies imem
      ensures match Resolve(labels, k, old(imem[k]))
              case Ok(i) => err.None? && imem[..] == old(imem[..])[k := i]
              case Err(e) => err == Some(e)
    {
      hide LabelAddr, Bind, Distance, SignedNum, High20, Low12;
      var ii := imem[k];
      if ii.op == Unimpl {
        assert imem[..] == old(imem[..])[k := ii];
        return None;
      }
      var o1 := BindOperand(ii.a1);
      if o1.Err? {
        return Some(o1.error);
      }
      ii := ii.(a1 := o1.value);
      if ii.a2.kind == Label {
        var o2 := BindOperand(ii.a2);
        if o2.Err? {
          return Some(o2.error);
        }
        ii := ii.(a2 := o2.value);
        if ii.op == Lui {
          ii := ii.(a2 := SetImm(ii.a2, High20(ii.a2.imm)));
        } else if ii.op == Jal && Distance(4 * k, SignedNum(ii.a3.imm)) >= 0x20_0000 {
          return Some(OutOfReach);
        }
      }
      if ii.a3.kind == Label {
        var o3 := BindOperand(ii.a3);
        if o3.Err? {
          return Some(o3.error);
        }
        ii := ii.(a3 := o3.value);
        if ii.op == Addi {
          ii := ii.(a3 := SetImm(ii.a3, Low12(ii.a3.imm)));
        } else if IsBranch(ii.op) && Distance(4 * k, SignedNum(ii.a3.imm)) >= 0x2000 {
          return Some(OutOfReach);
        }
      }
      imem[k] := ii;
      return None;
    }

    method NormalizeLabels() returns (err: Option<Error>)
      requires Valid()
      modifies imem
      ensures match Normalize(labels, old(imem[..]), imem.Length)
              case Ok(m) => err.None? && imem[..] == m
              case Err(e) => err == Some(e)
    {
      hide Resolve;
      ghost var before := imem[..];
      for k := 0 to imem.Length
        invariant Normalize(labels, before, k) == Ok(imem[..])
      {
        err := NormalizeSlot(k);
        if err.Some? {
          SlotErrorsStay(labels, before, k + 1, imem.Length);
          return;
        }
      }
      return None;
    }

    /** Both passes, as simInit calls them. */
    method AssembleLines(lines: seq<Line>) returns (err: Option<Error>)
      requires Valid() && View() == A.Start(cfg) && WellFormedLines(lines)
      modifies this, imem, mem
      ensures match Assemble(cfg, lines)
              case Ok(prog) => err.None? && View() == prog
              case Err(e) => err == Some(e)
    {
      hide A.Parse, Normalize;
      err := ParseAll(lines);
      if err.None? {
        err := NormalizeLabels();
      }
    }
  }

  lemma {:induction false} ErrorsStay(st: Asm, size: nat, values: seq<int>, k: nat, n: nat)
    requires (size == 1 || size == 2 || size == 4) && k <= n <= |values| && ParseElements(st, size, values, k).Err?
    ensures ParseElements(st, size, values, n) == ParseElements(st, size, values, k)
    decreases n
  {
    hide M.BytesOf, ToWord, ElementFits;
    if k < n { ErrorsStay(st, size, values, k, n - 1); }
  }

  lemma {:induction false} LineErrorsStay(cfg: Config, lines: seq<Line>, k: nat, n: nat)
    requires WellFormedLines(lines) && k <= n <= |lines| && A.Parse(cfg, lines, k).Err?
    ensures A.Parse(cfg, lines, n) == A.Parse(cfg, lines, k)
    decreases n
  {
    hide ParseLine;
    if k < n { LineErrorsStay(cfg, lines, k, n - 1); }
  }

  lemma {:induction false} SlotErrorsStay(labels: seq<LabelLoc>, imem: seq<Instr>, k: nat, n: nat)
    requires k <= n <= |imem| && Normalize(labels, imem, k).Err?
    ensures Normalize(labels, imem, n) == Normalize(labels, imem, k)
    decreases n
  {
    hide Resolve;
    if k < n { SlotErrorsStay(labels, imem, k, n - 1); }
  }
}
