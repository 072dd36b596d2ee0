/** The arithmetic unit and the comparator of the execute stage
    (models/pipeline/modules/alu.h, models/pipeline/modules/cmp.h). */
module Alu {
  import opened Words

  datatype ALUControl = NOP | ADD | SUB | SLL | SLT | SLTU | XOR | SRL | SRA | OR | AND

  datatype CmpControl = NOP | EQ | NE | LT | GE | LTU | GEU

  function ALU(control: ALUControl, srcA: Word, srcB: Word): Word {
    match control
    case NOP => 0
    case ADD => Add(srcA, srcB)
    case SUB => Sub(srcA, srcB)
    case AND => And(srcA, srcB)
    case OR => Or(srcA, srcB)
    case XOR => Xor(srcA, srcB)
    case SLL => ShiftLeft(srcA, srcB & 0x1f)
    case SRL => ShiftRight(srcA, srcB & 0x1f)
    case SRA => ShiftRightArithmetic(srcA, srcB & 0x1f)
    case SLT => if SignedLess(srcA, srcB) then 1 else 0
    case SLTU => if Below(srcA, srcB) then 1 else 0
  }

  predicate Cmp(control: CmpControl, lhs: Word, rhs: Word) {
    match control
    case NOP => false
    case EQ => lhs == rhs
    case NE => lhs != rhs
    case LT => SignedLess(lhs, rhs)
    case LTU => Below(lhs, rhs)
    case GE => !SignedLess(lhs, rhs)
    case GEU => !Below(lhs, rhs)
  }
}
