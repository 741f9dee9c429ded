/** Opcodes (include/nybit/ir.h), with the classifications the passes use. */
module Opcodes {

  datatype Opcode =
    | NONE | CONST | CONST_NULL
    | ADD | SUB | MUL | DIV_S | DIV_U | REM_S | REM_U | NEG
    | FADD | FSUB | FMUL | FDIV | FREM | FNEG
    | AND | OR | XOR | NOT | SHL | SHR | SAR | ROTL | ROTR
    | CMP_EQ | CMP_NE | CMP_LT_S | CMP_LT_U | CMP_LE_S | CMP_LE_U | CMP_GT_S | CMP_GT_U | CMP_GE_S | CMP_GE_U
    | FCMP_EQ | FCMP_NE | FCMP_LT | FCMP_LE | FCMP_GT | FCMP_GE
    | SELECT | ADDR | ADDR_OFFSET | GLOBAL_ADDR | LOAD | STORE | STACK_SLOT | STACK_ADDR
    | ATOMIC_LOAD | ATOMIC_STORE | ATOMIC_RMW | ATOMIC_CMPXCHG | FENCE
    | CAST | EXTEND | TRUNCATE | BITCAST | SEXT | ZEXT | FEXT | FTRUNC | SITOFP | UITOFP | FPTOSI | FPTOUI
    | VADD | VSUB | VMUL | VDIV | VAND | VOR | VXOR | VSHUFFLE
    | BRANCH | BRANCH_IF | SWITCH | RETURN | TRAP
    | CALL | CALL_INDIRECT | PHI

  /** ny_opcode_is_terminator (src/ir/instruction.c). */
  predicate IsTerminator(op: Opcode) {
    op in {BRANCH, BRANCH_IF, SWITCH, RETURN, TRAP}
  }

  /** The integer opcodes ny_fold_int_unary accepts. */
  predicate IsIntUnary(op: Opcode) {
    op in {NEG, NOT}
  }

  /** The integer opcodes ny_fold_int_binary accepts. */
  predicate IsIntBinary(op: Opcode) {
    op in {ADD, SUB, MUL, DIV_S, DIV_U, REM_S, REM_U, AND, OR, XOR, SHL, SHR, SAR, ROTL, ROTR}
  }

  /** The integer opcodes ny_fold_int_cmp accepts. */
  predicate IsIntCmp(op: Opcode) {
    op in {CMP_EQ, CMP_NE, CMP_LT_S, CMP_LT_U, CMP_LE_S, CMP_LE_U, CMP_GT_S, CMP_GT_U, CMP_GE_S, CMP_GE_U}
  }

  /** Floating-point opcodes, which the integer functions of this model do not use. */
  predicate IsFloat(op: Opcode) {
    op in {FADD, FSUB, FMUL, FDIV, FREM, FNEG, FCMP_EQ, FCMP_NE, FCMP_LT, FCMP_LE, FCMP_GT, FCMP_GE}
  }

  /** ny_opt_is_commutative (src/opt/common.c). */
  predicate IsCommutative(op: Opcode) {
    op in {ADD, MUL, FADD, FMUL, AND, OR, XOR, CMP_EQ, CMP_NE, FCMP_EQ, FCMP_NE}
  }

  /** is_gvn_candidate (src/opt/gvn.c). */
  predicate IsGvnCandidate(op: Opcode) {
    || IsIntUnary(op) || IsIntBinary(op) || IsIntCmp(op)
    || (IsFloat(op) && op != FREM)
    || op in {SELECT, CAST, EXTEND, TRUNCATE, BITCAST, SEXT, ZEXT, FEXT, FTRUNC, SITOFP, FPTOSI}
  }

  /**
   * Opcodes whose execution is observable outside the function (the switch of inst_has_side_effects, src/opt/dce.c).
   */
  predicate IsEffect(op: Opcode) {
    op in {STORE, ATOMIC_STORE, ATOMIC_RMW, ATOMIC_CMPXCHG, FENCE, CALL, CALL_INDIRECT, TRAP}
  }
}
