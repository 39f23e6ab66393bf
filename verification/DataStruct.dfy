/** Decoded instructions and packets of the functional simulator. */
module DataStruct {
  import opened Words
  import Numbers

  datatype Op =
    | Unimpl | Add | Addi | And | Andi | Auipc | Beq | Bge | Bgeu | Blt | Bltu | Bne | Jal | Jalr | Lb | Lbu | Lh | Lhu
    | Lui | Lw | Or | Ori | Sb | Sh | Sll | Slli | Slt | Slti | Sltiu | Sltu | Sra | Srai | Srl | Srli | Sub | Sw | Xor
    | Xori | Hcf

  datatype OperandType = Nothing | Register | Immediate | Label

  datatype Operand = Operand(kind: OperandType, name: string, reg: bv5, imm: Word)

  datatype Instr = Instr(op: Op, a1: Operand, a2: Operand, a3: Operand)

  const NO_OPERAND := Operand(Nothing, "", 0, 0)

  /** What the constructor of the processor puts into every slot of its instruction memory. */
  const BLANK := Instr(Unimpl, NO_OPERAND, NO_OPERAND, NO_OPERAND)

  /** Byte addresses and program counters: 32-bit unsigned integers. */
  type Addr = Numbers.U32

  function Next(pc: Addr): Addr { (pc + 4) % 0x1_0000_0000 }

  /** An executed instruction on its way through the timing model. */
  datatype Packet = Packet(inst: Instr, pc: Addr, taken: bool)

  predicate IsRegOp(op: Op) {
    match op case Add | Sub | Slt | Sltu | And | Or | Xor | Sll | Srl | Sra => true case _ => false
  }

  predicate IsImmOp(op: Op) {
    match op case Addi | Slti | Sltiu | Andi | Ori | Xori | Slli | Srli | Srai => true case _ => false
  }

  predicate IsBranch(op: Op) {
    match op case Beq | Bge | Bgeu | Blt | Bltu | Bne => true case _ => false
  }

  predicate IsLoad(op: Op) {
    match op case Lb | Lbu | Lh | Lhu | Lw => true case _ => false
  }

  predicate IsStore(op: Op) {
    match op case Sb | Sh | Sw => true case _ => false
  }
}
