/** The combinational controller: decode tables, branch resolution and hazard detection. */
module Controller {
  import opened Words
  import opened RiscvDefs
  import opened Datapath

  predicate IsLoad(inst: Word) { Opcode(inst) == LOAD }
  predicate IsStore(inst: Word) { Opcode(inst) == STORE }
  predicate IsMem(inst: Word) { IsLoad(inst) || IsStore(inst) }
  predicate IsHcf(inst: Word) { Opcode(inst) == HCF }

  /** JAL and JALR: the instructions that write a link value. */
  predicate IsJump(inst: Word) { Opcode(inst) == JALR || Opcode(inst) == JAL }

  /** E_En: instructions that may redirect the program counter. */
  predicate IsControl(inst: Word) { Opcode(inst) == BRANCH || IsJump(inst) }

  predicate BranchTaken(inst: Word, a: Word, b: Word) {
    var op, f3 := Opcode(inst), Funct3(inst);
    var eq, lt := a == b, BranchLess((inst >> 13) & 1 == 1, a, b);
    if op == BRANCH then
      if f3 == 0 then eq
      else if f3 == 1 then !eq
      else if f3 == 4 || f3 == 6 then lt
      else if f3 == 5 || f3 == 7 then !lt
      else false
    else op == JALR || op == JAL
  }

  function ImmSel(inst: Word): ImmType {
    var op := Opcode(inst);
    if op == LOAD || op == JALR || op == OP_IMM then IType
    else if op == STORE then SType
    else if op == BRANCH then BType
    else if op == JAL then JType
    else if op == AUIPC || op == LUI then UType
    else RType
  }

  function ASel(inst: Word): bv2 {
    var op := Opcode(inst);
    if op == BRANCH || op == JAL || op == AUIPC then 1
    else if op == LUI || op == HCF then 2
    else 0
  }

  function BSel(inst: Word): bv1 {
    var op := Opcode(inst);
    if op == LOAD || op == STORE || op == BRANCH || op == JALR || op == JAL || op == OP_IMM
       || op == AUIPC || op == LUI
    then 1 else 0
  }

  function AluSel(inst: Word): bv15 {
    var op := Opcode(inst);
    var f3, f7 := Funct3(inst) as bv15, Funct7(inst) as bv15;
    if op == OP then (f7 << 8) | 0xf8 | f3
    else if op == OP_IMM then if f3 == 5 then (f7 << 8) | 0xf8 | f3 else 0xf8 | f3
    else ADD
  }

  /** W_RegWEn, and the three is_*_use_rd signals, which share its table. */
  predicate WritesRd(inst: Word) {
    var op := Opcode(inst);
    op == LOAD || op == JALR || op == JAL || op == OP_IMM || op == OP || op == AUIPC || op == LUI
  }

  predicate UsesRs1(inst: Word) {
    var op := Opcode(inst);
    op == LOAD || op == STORE || op == BRANCH || op == JALR || op == OP_IMM || op == OP
  }

  predicate UsesRs2(inst: Word) {
    var op := Opcode(inst);
    op == STORE || op == BRANCH || op == OP
  }

  /** Read-after-write overlap between the instruction in ID and an older one. */
  predicate Overlap(id: Word, older: Word) {
    && WritesRd(older) && Rd(older) != 0
    && ((UsesRs1(id) && Rs1(id) == Rd(older)) || (UsesRs2(id) && Rs2(id) == Rd(older)))
  }

  /** EXE operand muxes and ALU. */
  function AluOut(inst: Word, pc: Pc, imm: Word, r1: Word, r2: Word): Word {
    var a := if ASel(inst) == 1 then Extend(pc) else if ASel(inst) == 2 then 0 else r1;
    var b := if BSel(inst) == 1 then imm else r2;
    Alu(AluSel(inst), a, b)
  }

  /** DM_Length. */
  function Length(inst: Word): bv4 { Funct3(inst) as bv4 }

  /** WB mux. */
  function WriteBack(inst: Word, pc4: Pc, alu: Word, ld: Word): Word {
    if IsLoad(inst) then ld else if IsJump(inst) then Extend(pc4) else alu
  }

  /** An all-zero word, which is what a bubble holds, has no effect anywhere in the pipeline. */
  lemma BubbleIsInert(inst: Word)
    ensures !IsMem(0) && !IsHcf(0) && !IsControl(0) && !WritesRd(0) && !UsesRs1(0) && !UsesRs2(0)
    ensures !Overlap(inst, 0) && !Overlap(0, inst)
  {
  }

  /** Operand values an instruction does not declare as used never reach its effects. */
  lemma UnusedOperands(inst: Word, pc: Pc, imm: Word, r1: Word, r2: Word, s1: Word, s2: Word)
    requires UsesRs1(inst) ==> r1 == s1
    requires UsesRs2(inst) ==> r2 == s2
    ensures WritesRd(inst) || IsMem(inst) || IsControl(inst)
            ==> AluOut(inst, pc, imm, r1, r2) == AluOut(inst, pc, imm, s1, s2)
    ensures BranchTaken(inst, r1, r2) == BranchTaken(inst, s1, s2)
  {
    hide Alu, AluSel, Opcode, Funct3, BranchLess;
  }
}
