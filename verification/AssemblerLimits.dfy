/** Where the assembler's range checks and data directives do not do what they look like. */
module AssemblerLimits {
  import opened Words
  import opened Numbers
  import opened DataStruct
  import opened Assembler
  import opened AssemblerProof
  import M = ByteMemory

  // ----- Range checks of jumps and branches -----

  /** A jump to a label, with or without a link register. */
  predicate IsJump(src: Source) { src.Jump? || src.J? }

  /** What the first pass leaves for a jump in a slot that held i. */
  function Emitted(src: Source, i: Instr): Instr
    requires IsJump(src)
  {
    Emit(src, i, i).value.0
  }

  /** Whatever a slot held in its third immediate, which the first pass does not touch: a jump written there
      is refused for being out of reach exactly when that immediate, taken as an address, is 2^21 or more
      from the jump itself. Where the label is does not matter. */
  lemma JumpCheckIff(labels: seq<LabelLoc>, k: nat, src: Source, i: Instr)
    requires IsJump(src) && i.a3.kind != Label
    ensures var far := Distance(4 * k, SignedNum(i.a3.imm)) >= 0x20_0000;
            && (Resolve(labels, k, Emitted(src, i)) == Err(OutOfReach) <==> LabelAddr(labels, src.target).Some? && far)
            && (Resolve(labels, k, Emitted(src, i)).Ok? <==> LabelAddr(labels, src.target).Some? && !far)
  {
    hide LabelAddr, ToWord, SignedNum, Distance;
  }

  /** So the check cannot tell two programs apart that differ only in where the label is. */
  lemma JumpCheckIgnoresTarget(labels: seq<LabelLoc>, others: seq<LabelLoc>, k: nat, src: Source, i: Instr)
    requires IsJump(src) && i.a3.kind != Label
    requires LabelAddr(labels, src.target).Some? && LabelAddr(others, src.target).Some?
    ensures Resolve(labels, k, Emitted(src, i)).Ok? <==> Resolve(others, k, Emitted(src, i)).Ok?
  {
    hide Resolve, Emitted, LabelAddr, Distance, SignedNum;
    JumpCheckIff(labels, k, src, i);
    JumpCheckIff(others, k, src, i);
  }

  lemma ZeroIsZero()
    ensures SignedNum(0) == 0
  {
  }

  /** In a slot whose third immediate happens to be zero, a jump from 0 to 2^30 is accepted, and one from
      2^21 to itself refused. */
  lemma JumpCheckMisses(name: string, i: Instr)
    requires i.a3.kind != Label && i.a3.imm == 0
    ensures Resolve([LabelLoc(name, 0x4000_0000)], 0, Emitted(J(name), i)).Ok?
    ensures Resolve([LabelLoc(name, 0x20_0000)], 0x8_0000, Emitted(J(name), i)) == Err(OutOfReach)
  {
    hide Resolve, Emitted, SignedNum;
    ZeroIsZero();
    JumpCheckIff([LabelLoc(name, 0x4000_0000)], 0, J(name), i);
    JumpCheckIff([LabelLoc(name, 0x20_0000)], 0x8_0000, J(name), i);
  }

  predicate IsTest(src: Source) { src.Branch? || src.Bnez? || src.Beqz? }

  /** The check of a branch does look at its target; it lets through twice what an encoding reaches. */
  lemma BranchCheckIff(labels: seq<LabelLoc>, k: nat, src: Source)
    requires IsTest(src) && WellFormed(src)
    requires LabelAddr(labels, src.target).Some? && LabelAddr(labels, src.target).value < 0x8000_0000
    ensures var a := LabelAddr(labels, src.target).value;
            && (Resolve(labels, k, Fresh(src).value.0).Ok? <==> -0x2000 < a - 4 * k < 0x2000)
            && (Resolve(labels, k, Fresh(src).value.0) == Err(OutOfReach) <==> !(-0x2000 < a - 4 * k < 0x2000))
  {
    hide LabelAddr, ToWord, SignedNum, Distance;
    SmallSigned(LabelAddr(labels, src.target).value);
    DistanceIs(4 * k, LabelAddr(labels, src.target).value);
  }

  lemma SmallSigned(a: int)
    requires 0 <= a < 0x8000_0000
    ensures SignedNum(ToWord(Wrap(a))) == a
  {
    hide ToWord, ToNum;
    NumBack(a);
  }

  lemma DistanceIs(a: int, b: int)
    ensures Distance(a, b) >= 0x2000 <==> !(-0x2000 < b - a < 0x2000)
  {
  }

  // ----- Data elements -----

  function Limit(size: nat): int {
    if size == 1 then 0x100 else if size == 2 then 0x1_0000 else 0x1_0000_0000
  }

  /** What a directive leaves in memory for one value. */
  function ElementBytes(size: nat, v: int): seq<bv8> { M.BytesOf(ToWord(Wrap(v)), size) }

  lemma KeptNumber(w: Word, n: nat)
    requires n == 1 || n == 2 || n == 4
    ensures ToNum(M.Keep(w, n)) == ToNum(w) % Limit(n)
  {
    hide ToNum, M.Keep;
    if n == 4 {
      WordItself(w);
    } else {
      KeptParts(w);
      LowDigits(Num(ByteK(w, 0)), Num(ByteK(w, 1)), Num(ByteK(w, 2)), Num(ByteK(w, 3)));
    }
  }

  lemma KeptParts(w: Word)
    ensures ToNum(M.Keep(w, 1)) == Num(ByteK(w, 0))
            && ToNum(M.Keep(w, 2)) == Num(ByteK(w, 0)) + 0x100 * Num(ByteK(w, 1))
    ensures ToNum(w) == Num(ByteK(w, 0)) + 0x100 * Num(ByteK(w, 1)) + 0x1_0000 * Num(ByteK(w, 2))
            + 0x100_0000 * Num(ByteK(w, 3))
  {
    hide ByteK, Num, M.Keep;
    KeptBytes(w);
    ZeroByte();
  }

  lemma LowDigits(d0: int, d1: int, d2: int, d3: int)
    requires 0 <= d0 < 256 && 0 <= d1 < 256
    ensures var n := d0 + 0x100 * d1 + 0x1_0000 * d2 + 0x100_0000 * d3;
            n % 0x100 == d0 && n % 0x1_0000 == d0 + 0x100 * d1
  {
    WholeBytes(d0, d1 + 0x100 * d2 + 0x1_0000 * d3);
    WholeHalves(d0 + 0x100 * d1, d2 + 0x100 * d3);
  }

  lemma ZeroByte()
    ensures Num(0) == 0
  {
  }

  lemma WordItself(w: Word)
    ensures M.Keep(w, 4) == w
  {
  }

  lemma KeptBytes(w: Word)
    ensures var k := M.Keep(w, 1);
            ByteK(k, 0) == ByteK(w, 0) && ByteK(k, 1) == 0 && ByteK(k, 2) == 0 && ByteK(k, 3) == 0
    ensures var k := M.Keep(w, 2);
            ByteK(k, 0) == ByteK(w, 0) && ByteK(k, 1) == ByteK(w, 1) && ByteK(k, 2) == 0 && ByteK(k, 3) == 0
  {
  }

  /** Read without a sign, an element is its value modulo 2^8, 2^16 or 2^32. */
  lemma ElementModulo(size: nat, v: int)
    requires size == 1 || size == 2 || size == 4
    ensures ToNum(M.Value(ElementBytes(size, v))) == v % Limit(size)
  {
    hide ToNum, ToWord, M.Keep, M.Value, M.BytesOf;
    M.ValueOfBytes(ToWord(Wrap(v)), size);
    KeptNumber(ToWord(Wrap(v)), size);
    NumBack(Wrap(v));
    SmallerModulus(v);
  }

  lemma SmallerModulus(v: int)
    ensures v % 0x1_0000_0000 % 0x100 == v % 0x100 && v % 0x1_0000_0000 % 0x1_0000 == v % 0x1_0000
  {
    var q := v / 0x1_0000_0000;
    WholeBytes(v % 0x1_0000_0000, 0x100_0000 * q);
    WholeHalves(v % 0x1_0000_0000, 0x1_0000 * q);
  }

  lemma WholeBytes(r: int, t: int)
    ensures (r + 0x100 * t) % 0x100 == r % 0x100
  {
  }

  lemma WholeHalves(r: int, t: int)
    ensures (r + 0x1_0000 * t) % 0x1_0000 == r % 0x1_0000
  {
  }

  /** The number a load with a sign denotes. */
  function Centred(n: int, limit: int): int { if n >= limit / 2 then n - limit else n }

  lemma SignedByte(b: bv8)
    ensures Signed(Pack(b, 0, 0, 0), 0x100) == if b >= 0x80 then Pack(b, 0xff, 0xff, 0xff) else Pack(b, 0, 0, 0)
  {
  }

  lemma SignedHalf(b0: bv8, b1: bv8)
    ensures Signed(Pack(b0, b1, 0, 0), 0x1_0000) == if b1 >= 0x80 then Pack(b0, b1, 0xff, 0xff) else Pack(b0, b1, 0, 0)
  {
  }

  lemma TopBit(b: bv8)
    ensures b >= 0x80 <==> Num(b) >= 128
  {
  }

  lemma FullByte()
    ensures Num(0xff) == 255
  {
  }

  lemma PackNumber(b0: bv8, b1: bv8, b2: bv8, b3: bv8)
    ensures ToNum(Pack(b0, b1, b2, b3)) == Num(b0) + 0x100 * Num(b1) + 0x1_0000 * Num(b2) + 0x100_0000 * Num(b3)
  {
    hide Pack, ByteK, Num;
    PackBack(b0, b1, b2, b3, 0);
  }

  /** A sign-extending load reads the centred number of the bytes. */
  lemma SignedReads(op: Op, w: Word)
    requires op == Lb || op == Lh || op == Lw
    ensures SignedNum(M.ExtendLoad(op, M.Keep(w, M.Size(op))))
            == Centred(ToNum(M.Keep(w, M.Size(op))), Limit(M.Size(op)))
  {
    hide ToNum, Signed, Pack, ByteK, M.Keep, Num;
    var b0, b1 := ByteK(w, 0), ByteK(w, 1);
    M.KeepBits(w);
    KeepIsPack(w);
    SignedByte(b0);
    SignedHalf(b0, b1);
    TopBit(b0);
    TopBit(b1);
    ZeroByte();
    FullByte();
    PackNumber(b0, 0, 0, 0);
    PackNumber(b0, b1, 0, 0);
    PackNumber(b0, 0xff, 0xff, 0xff);
    PackNumber(b0, b1, 0xff, 0xff);
  }

  lemma KeepIsPack(w: Word)
    ensures M.Keep(w, 1) == Pack(ByteK(w, 0), 0, 0, 0) && M.Keep(w, 2) == Pack(ByteK(w, 0), ByteK(w, 1), 0, 0)
  {
  }

  lemma CentredIff(v: int, size: nat)
    requires size == 1 || size == 2 || size == 4
    ensures Centred(v % Limit(size), Limit(size)) == v <==> -(Limit(size) / 2) <= v < Limit(size) / 2
  {
  }

  /** A load of an element's size finds its bytes. */
  lemma ElementPlaced(st: Asm, size: nat, v: int, op: Op)
    requires IsLoad(op) && M.Size(op) == size && st.memoff < 0x1_0000_0000 && ParseElements(st, size, [v], 1).Ok?
    ensures ElementFits(size, v)
    ensures M.Load(op, ParseElements(st, size, [v], 1).value.mem, st.memoff)
            == Some(M.ExtendLoad(op, M.Value(ElementBytes(size, v))))
  {
    hide ToWord, M.Value, M.BytesOf, M.ExtendLoad;
    assert ParseElements(st, size, [v], 0) == Ok(st);
    assert ParseElements(st, size, [v], 1).value.mem[st.memoff..st.memoff + size] == ElementBytes(size, v);
  }

  lemma SignedNumber(size: nat, v: int, op: Op)
    requires (op == Lb || op == Lh || op == Lw) && M.Size(op) == size
    ensures SignedNum(M.ExtendLoad(op, M.Value(ElementBytes(size, v)))) == Centred(v % Limit(size), Limit(size))
  {
    hide ToNum, ToWord, M.Value, M.BytesOf, M.Keep, SignedNum, M.ExtendLoad;
    ElementModulo(size, v);
    M.ValueOfBytes(ToWord(Wrap(v)), size);
    SignedReads(op, ToWord(Wrap(v)));
  }

  lemma PlainLoads(op: Op, w: Word)
    requires op == Lbu || op == Lhu || op == Lw
    ensures M.ExtendLoad(op, w) == w
  {
  }

  lemma ModuloIff(v: int, size: nat)
    requires size == 1 || size == 2 || size == 4
    ensures v % Limit(size) == v <==> 0 <= v < Limit(size)
  {
  }

  /** Data elements read back. Whatever is accepted, a load of the element's size finds its low bytes: as a
      number without sign they are the value written if and only if it is from 0 to 2^n - 1, and with sign
      if and only if it is from -2^(n-1) to 2^(n-1) - 1; everything else is truncated without a word. */
  lemma ElementReadsBackIff(st: Asm, size: nat, v: int, op: Op)
    requires IsLoad(op) && M.Size(op) == size && st.memoff < 0x1_0000_0000 && ParseElements(st, size, [v], 1).Ok?
    ensures ElementFits(size, v)
    ensures var w := M.Load(op, ParseElements(st, size, [v], 1).value.mem, st.memoff);
            && w.Some?
            && (op == Lbu || op == Lhu || op == Lw ==> (ToNum(w.value) == v <==> 0 <= v < Limit(size)))
            && (op == Lb || op == Lh || op == Lw
               ==> (SignedNum(w.value) == v <==> -(Limit(size) / 2) <= v < Limit(size) / 2))
  {
    hide ToNum, M.Value, SignedNum, M.Load, ParseElements, M.ExtendLoad, ElementBytes, ElementFits;
    ElementPlaced(st, size, v, op);
    if op == Lb || op == Lh || op == Lw {
      SignedNumber(size, v, op);
      CentredIff(v, size);
    }
    if op == Lbu || op == Lhu || op == Lw {
      ElementModulo(size, v);
      PlainLoads(op, M.Value(ElementBytes(size, v)));
      ModuloIff(v, size);
    }
  }

  /** .byte -300 is accepted and reads back as 212. */
  lemma TruncatedByte()
    ensures ElementFits(1, -300) && ToNum(M.Value(ElementBytes(1, -300))) == 212
  {
    hide ToNum, M.Value, ElementBytes;
    ElementModulo(1, -300);
  }
}
