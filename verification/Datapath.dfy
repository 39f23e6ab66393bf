/** Combinational datapath blocks: immediate generator, ALU, branch comparator and the stage muxes. */
module Datapath {
  import opened Words
  import opened RiscvDefs

  function SignExtend12(x: bv12): Word {
    if x & 0x800 != 0 then x as Word | 0xffff_f000 else x as Word
  }

  function SignExtend13(x: bv13): Word {
    if x & 0x1000 != 0 then x as Word | 0xffff_e000 else x as Word
  }

  function SignExtend21(x: bv21): Word {
    if x & 0x10_0000 != 0 then x as Word | 0xffe0_0000 else x as Word
  }

  /** Store immediate bits: 31-25 and 11-7. */
  function StoreBits(inst: Word): bv12 {
    (((inst >> 25) << 5) | ((inst >> 7) & 0x1f)) as bv12
  }

  /** Branch immediate bits: 31, 7, 30-25, 11-8 and a zero. */
  function BranchBits(inst: Word): bv13 {
    (((inst >> 31) << 12) | (((inst >> 7) & 1) << 11)
     | (((inst >> 25) & 0x3f) << 5) | (((inst >> 8) & 0xf) << 1)) as bv13
  }

  /** Jump immediate bits: 31, 19-12, 20, 30-21 and a zero. */
  function JumpBits(inst: Word): bv21 {
    (((inst >> 31) << 20) | (((inst >> 12) & 0xff) << 12)
     | (((inst >> 20) & 1) << 11) | (((inst >> 21) & 0x3ff) << 1)) as bv21
  }

  function ImmGen(sel: ImmType, inst: Word): Word {
    match sel
    case RType => 0
    case IType => SignExtend12((inst >> 20) as bv12)
    case SType => SignExtend12(StoreBits(inst))
    case BType => SignExtend13(BranchBits(inst))
    case UType => inst & 0xffff_f000
    case JType => SignExtend21(JumpBits(inst))
  }

  function Shl(a: Word, n: bv5): Word { a << n }
  function Shr(a: Word, n: bv5): Word { a >> n }

  /** The shift amount an operand gives. */
  function Low5(w: Word): bv5 { (w & 0x1f) as bv5 }

  function ShiftRightArith(a: Word, n: bv5): Word {
    if a >> 31 == 1 then Shr(a, n) | !Shr(0xffff_ffff, n) else Shr(a, n)
  }

  function Alu(sel: bv15, a: Word, b: Word): Word {
    var sh := Low5(b);
    if sel == ADD then Sum(a, b)
    else if sel == SLL then Shl(a, sh)
    else if sel == SLT then Flag(SignedLess(a, b))
    else if sel == SLTU then Flag(Below(a, b))
    else if sel == XOR then BitXor(a, b)
    else if sel == SRL then Shr(a, sh)
    else if sel == OR then BitOr(a, b)
    else if sel == AND then BitAnd(a, b)
    else if sel == SUB then Minus(a, b)
    else if sel == SRA then ShiftRightArith(a, sh)
    else 0
  }

  predicate BranchLess(unsigned: bool, a: Word, b: Word) {
    if unsigned then a < b else SignedLess(a, b)
  }

  /** Byte address in the low 15 bits of an ALU result. */
  function Low15(w: Word): Pc { (w & 0x7fff) as Pc }
}
