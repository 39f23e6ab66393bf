/** Opcode map and instruction fields. */
module RiscvDefs {
  import opened Words

  const LOAD: bv7 := 0x03
  const STORE: bv7 := 0x23
  const BRANCH: bv7 := 0x63
  const JALR: bv7 := 0x67
  const JAL: bv7 := 0x6f
  const OP_IMM: bv7 := 0x13
  const OP: bv7 := 0x33
  const AUIPC: bv7 := 0x17
  const LUI: bv7 := 0x37
  const HCF: bv7 := 0x0b

  datatype ImmType = RType | IType | SType | BType | JType | UType

  const ADD: bv15 := 0x00f8
  const SLL: bv15 := 0x00f9
  const SLT: bv15 := 0x00fa
  const SLTU: bv15 := 0x00fb
  const XOR: bv15 := 0x00fc
  const SRL: bv15 := 0x00fd
  const OR: bv15 := 0x00fe
  const AND: bv15 := 0x00ff
  const SUB: bv15 := 0x20f8
  const SRA: bv15 := 0x20fd

  /** Access widths of the memory interface. */
  const BYTE: bv4 := 0
  const HALF: bv4 := 1
  const WORD: bv4 := 2
  const UBYTE: bv4 := 4
  const UHALF: bv4 := 5

  function Opcode(inst: Word): bv7 { (inst & 0x7f) as bv7 }
  function Rd(inst: Word): bv5 { ((inst >> 7) & 0x1f) as bv5 }
  function Funct3(inst: Word): bv3 { ((inst >> 12) & 0x7) as bv3 }
  function Rs1(inst: Word): bv5 { ((inst >> 15) & 0x1f) as bv5 }
  function Rs2(inst: Word): bv5 { ((inst >> 20) & 0x1f) as bv5 }
  function Funct7(inst: Word): bv7 { (inst >> 25) as bv7 }

  /** The little-endian word the instruction memory returns; addresses wrap at 15 bits. */
  function Fetch(im: Bytes, pc: Pc): Word {
    (ByteAt(im, pc + 3) as Word << 24) | (ByteAt(im, pc + 2) as Word << 16)
    | (ByteAt(im, pc + 1) as Word << 8) | (ByteAt(im, pc) as Word)
  }
}
