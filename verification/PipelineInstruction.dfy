/** Field extraction of the pipeline model (models/pipeline/pipeline/instruction.h). */
module PipelineInstruction {
  import opened Words

  datatype InstructionType = UNKNOWN | RType | IType | SType | BType | UType | JType

  function GetFunct7(w: Word): bv7 { ((w >> 25) & 0x7f) as bv7 }

  function GetRs2(w: Word): RegIdx { ((w >> 20) & 0x1f) as RegIdx }

  function GetRs1(w: Word): RegIdx { ((w >> 15) & 0x1f) as RegIdx }

  function GetFunct3(w: Word): bv3 { ((w >> 12) & 0x7) as bv3 }

  function GetRd(w: Word): RegIdx { ((w >> 7) & 0x1f) as RegIdx }

  function GetOpcode(w: Word): bv7 { (w & 0x7f) as bv7 }

  const OP: bv7 := 0x33
  const STORE: bv7 := 0x23
  const BRANCH: bv7 := 0x63
  const LOAD: bv7 := 0x03
  const OP_IMM: bv7 := 0x13
  const SYSTEM: bv7 := 0x73
  const JALR: bv7 := 0x67
  const LUI: bv7 := 0x37
  const AUIPC: bv7 := 0x17
  const JAL: bv7 := 0x6f

  function GetInstructionType(opcode: bv7): InstructionType {
    if opcode == OP then RType
    else if opcode == STORE then SType
    else if opcode == BRANCH then BType
    else if opcode == LOAD || opcode == OP_IMM || opcode == SYSTEM || opcode == JALR then IType
    else if opcode == LUI || opcode == AUIPC then UType
    else if opcode == JAL then JType
    else UNKNOWN
  }

  predicate HasRs1(t: InstructionType) {
    t != UType && t != JType
  }

  predicate HasRs2(t: InstructionType) {
    t == RType || t == IType || t == SType || t == BType
  }

  /** The bit-field copies of the `imm_layout` union, one function for each format; the `se` field is
      0, or decremented to all ones when the sign bit is set. */
  function ImmediateI(w: Word): Word {
    (w >> 20) | (if (w >> 31) & 1 != 0 then 0xffff_f000 else 0)
  }

  function ImmediateS(w: Word): Word {
    ((w >> 7) & 0x1f) | (((w >> 25) & 0x7f) << 5) | (if (w >> 31) & 1 != 0 then 0xffff_f000 else 0)
  }

  function ImmediateB(w: Word): Word {
    (((w >> 8) & 0xf) << 1) | (((w >> 25) & 0x3f) << 5) | (((w >> 7) & 1) << 11)
    | (if (w >> 31) & 1 != 0 then 0xffff_f000 else 0)
  }

  function ImmediateJ(w: Word): Word {
    (((w >> 21) & 0x3ff) << 1) | (((w >> 20) & 1) << 11) | (((w >> 12) & 0xff) << 12)
    | (if (w >> 31) & 1 != 0 then 0xfff0_0000 else 0)
  }

  function ImmediateU(w: Word): Word {
    ((w >> 12) & 0xf_ffff) << 12
  }

  function ImmediateExtensionBlock(w: Word): Word {
    match GetInstructionType(GetOpcode(w))
    case UNKNOWN => 0
    case RType => 0
    case IType => ImmediateI(w)
    case SType => ImmediateS(w)
    case BType => ImmediateB(w)
    case JType => ImmediateJ(w)
    case UType => ImmediateU(w)
  }
}
