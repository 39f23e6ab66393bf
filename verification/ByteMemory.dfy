/** The simulator's data memory: a bounds-checked byte array with sized little-endian access. */
module ByteMemory {
  import opened Words
  import opened DataStruct
  import opened Numbers

  function Size(op: Op): nat {
    match op
    case Lb | Lbu | Sb => 1
    case Lh | Lhu | Sh => 2
    case Lw | Sw => 4
    case _ => 0
  }

  predicate InRange(mem: seq<bv8>, a: int, n: nat) {
    0 <= a && a + n <= |mem|
  }

  function ByteOrZero(bytes: seq<bv8>, k: nat): bv8 { if k < |bytes| then bytes[k] else 0 }

  /** Little-endian value of up to four bytes. */
  function Value(bytes: seq<bv8>): Word {
    Pack(ByteOrZero(bytes, 0), ByteOrZero(bytes, 1), ByteOrZero(bytes, 2), ByteOrZero(bytes, 3))
  }

  /** The n low bytes of a word, low byte first. */
  function BytesOf(w: Word, n: nat): (b: seq<bv8>)
    ensures |b| == n
  {
    seq(n, k requires 0 <= k < n => ByteK(w, k))
  }

  function ExtendLoad(op: Op, v: Word): Word {
    match op
    case Lb => Signed(v, 0x100)
    case Lh => Signed(v, 0x1_0000)
    case _ => v
  }

  /** A load; None where the bounds check fails. */
  function Load(op: Op, mem: seq<bv8>, a: Addr): Option<Word> {
    if InRange(mem, a, Size(op)) then Some(ExtendLoad(op, Value(mem[a..a + Size(op)]))) else None
  }

  function Splice(mem: seq<bv8>, a: int, bytes: seq<bv8>): (m: seq<bv8>)
    requires InRange(mem, a, |bytes|)
    ensures |m| == |mem|
    ensures forall i :: 0 <= i < |mem| ==> m[i] == if a <= i < a + |bytes| then bytes[i - a] else mem[i]
  {
    mem[..a] + bytes + mem[a + |bytes|..]
  }

  /** A store; None where the bounds check fails. */
  function Store(op: Op, mem: seq<bv8>, a: Addr, data: Word): Option<seq<bv8>> {
    if InRange(mem, a, Size(op)) then Some(Splice(mem, a, BytesOf(data, Size(op)))) else None
  }

  // ----- The abstract byte map -----

  /** One write to the memory, by a store or by a data directive. */
  datatype Write = Write(at: nat, bytes: seq<bv8>)

  predicate Covers(w: Write, i: int) {
    w.at <= i < w.at + |w.bytes|
  }

  /** The byte last written to an address; memory starts out zero. */
  function LastByte(ws: seq<Write>, i: int): bv8 {
    if ws == [] then 0
    else
      var w := ws[|ws| - 1];
      if Covers(w, i) then w.bytes[i - w.at] else LastByte(ws[..|ws| - 1], i)
  }

  ghost predicate AllFit(ws: seq<Write>, size: nat) {
    forall k :: 0 <= k < |ws| ==> ws[k].at + |ws[k].bytes| <= size
  }

  function Zeroed(size: nat): (m: seq<bv8>)
    ensures |m| == size
  {
    seq(size, _ => 0 as bv8)
  }

  /** The memory after a list of writes. */
  function After(ws: seq<Write>, size: nat): (m: seq<bv8>)
    requires AllFit(ws, size)
    ensures |m| == size
  {
    if ws == [] then Zeroed(size)
    else Splice(After(ws[..|ws| - 1], size), ws[|ws| - 1].at, ws[|ws| - 1].bytes)
  }

  lemma {:induction false} HoldsLastByte(ws: seq<Write>, size: nat, i: nat)
    requires AllFit(ws, size) && i < size
    ensures After(ws, size)[i] == LastByte(ws, i)
  {
    if ws != [] { HoldsLastByte(ws[..|ws| - 1], size, i); }
  }

  /** The bytes last written to n addresses from a on. */
  function LastBytes(ws: seq<Write>, a: nat, n: nat): (b: seq<bv8>)
    ensures |b| == n
  {
    seq(n, k requires 0 <= k < n => LastByte(ws, a + k))
  }

  /** Whatever stores and directives came before, overlapping or not, a load in bounds returns the
      extended little-endian value of the bytes last written to its addresses. */
  lemma LoadReadsLastWrites(ws: seq<Write>, size: nat, op: Op, a: Addr)
    requires AllFit(ws, size) && IsLoad(op)
    ensures Load(op, After(ws, size), a)
            == if a + Size(op) <= size then Some(ExtendLoad(op, Value(LastBytes(ws, a, Size(op))))) else None
  {
    hide ExtendLoad, Value;
    var m, n := After(ws, size), Size(op);
    if a + n <= size {
      forall k | 0 <= k < n ensures m[a..a + n][k] == LastBytes(ws, a, n)[k] { HoldsLastByte(ws, size, a + k); }
      assert m[a..a + n] == LastBytes(ws, a, n);
    }
  }

  /** Storing appends one write to that history. */
  lemma StoreIsWrite(ws: seq<Write>, size: nat, op: Op, a: Addr, data: Word)
    requires AllFit(ws, size) && IsStore(op) && a + Size(op) <= size
    ensures var w := Write(a, BytesOf(data, Size(op)));
            AllFit(ws + [w], size) && Store(op, After(ws, size), a, data) == Some(After(ws + [w], size))
  {
    hide BytesOf, Splice;
    var w := Write(a, BytesOf(data, Size(op)));
    assert (ws + [w])[..|ws|] == ws;
  }

  /** A word cut down to its n low bytes. */
  function Keep(w: Word, n: nat): Word {
    if n == 1 then w & 0xff else if n == 2 then w & 0xffff else w
  }

  lemma ValueOfBytes(w: Word, n: nat)
    requires n == 1 || n == 2 || n == 4
    ensures Value(BytesOf(w, n)) == Keep(w, n)
  {
    hide Pack, ByteK;
    KeepBits(w);
    PackBack(0, 0, 0, 0, w);
  }

  lemma KeepBits(w: Word)
    ensures Pack(ByteK(w, 0), 0, 0, 0) == w & 0xff
    ensures Pack(ByteK(w, 0), ByteK(w, 1), 0, 0) == w & 0xffff
  {
  }

  /** Reading back what was just stored: the stored low bytes, extended as the load asks. */
  lemma LoadAfterStore(sop: Op, lop: Op, mem: seq<bv8>, a: Addr, data: Word)
    requires IsStore(sop) && IsLoad(lop) && Size(sop) == Size(lop) && InRange(mem, a, Size(sop))
    ensures Load(lop, Store(sop, mem, a, data).value, a) == Some(ExtendLoad(lop, Keep(data, Size(sop))))
  {
    hide ExtendLoad, Keep, Value;
    var n := Size(sop);
    ValueOfBytes(data, n);
    assert Store(sop, mem, a, data).value[a..a + n] == BytesOf(data, n);
  }
}
