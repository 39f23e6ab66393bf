/** Machine words, register files and byte memories shared by the hardware models. */
module Words {
  type Word = bv32
  type Pc = bv15

  const XLEN_REGS: int := 32
  const MEM_SIZE: int := 0x8000

  type Regs = r: seq<Word> | |r| == XLEN_REGS witness seq(XLEN_REGS, _ => 0 as Word)
  type Bytes = b: seq<bv8> | |b| == MEM_SIZE witness seq(MEM_SIZE, _ => 0 as bv8)

  function Max(a: int, b: int): int { if a < b then b else a }

  datatype Option<T> = None | Some(value: T)

  function ZeroRegs(): Regs { seq(XLEN_REGS, _ => 0 as Word) }

  function ReadReg(regs: Regs, x: bv5): Word {
    regs[x as int]
  }

  /** One clock edge of the register file: the write port, then x0 forced to zero. */
  function NextRegs(regs: Regs, wen: bool, waddr: bv5, wdata: Word): Regs {
    (if wen then regs[waddr as int := wdata] else regs)[0 := 0]
  }

  /** The next word's address; program counters wrap at 15 bits. */
  function Plus4(pc: Pc): Pc { pc + 4 }

  /** A program counter as a 32-bit operand. */
  function Extend(pc: Pc): Word { pc as Word }

  function Index(a: Pc): (i: int)
    ensures 0 <= i < MEM_SIZE
  {
    a as int
  }

  function ByteAt(mem: Bytes, a: Pc): bv8 {
    mem[Index(a)]
  }

  /** The byte k places behind an address, which wraps at 15 bits. */
  function ByteAfter(mem: Bytes, a: Pc, k: Pc): bv8 {
    ByteAt(mem, a + k)
  }

  function SetByte(mem: Bytes, a: Pc, v: bv8): Bytes {
    mem[Index(a) := v]
  }

  lemma IndexBack(a: Pc)
    ensures Index(a) as Pc == a
  {
  }

  /** Distinct addresses are distinct indices. */
  lemma IndexDistinct(a: Pc, b: Pc)
    ensures Index(a) == Index(b) <==> a == b
  {
    IndexBack(a);
    IndexBack(b);
  }

  lemma ByteOfSet(mem: Bytes, a: Pc, v: bv8, b: Pc)
    ensures ByteAt(SetByte(mem, a, v), b) == if a == b then v else ByteAt(mem, b)
  {
    hide Index;
    IndexDistinct(a, b);
  }

  /** Two's-complement "less than". */
  predicate SignedLess(a: Word, b: Word) {
    if a >> 31 != b >> 31 then a >> 31 == 1 else a < b
  }

  /** The value a two's-complement field of the given modulus denotes, modulo 2^32. */
  function Signed(x: Word, modulus: Word): Word {
    if x >= modulus >> 1 then x - modulus else x
  }

  // Word operations, each under a name that proofs can leave folded.

  function Sum(a: Word, b: Word): Word { a + b }
  function Minus(a: Word, b: Word): Word { a - b }
  function BitAnd(a: Word, b: Word): Word { a & b }
  function BitOr(a: Word, b: Word): Word { a | b }
  function BitXor(a: Word, b: Word): Word { a ^ b }
  predicate Below(a: Word, b: Word) { a < b }
  function Flag(b: bool): Word { if b then 1 else 0 }
}
