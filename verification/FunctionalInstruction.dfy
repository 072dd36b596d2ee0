/** The typed instruction views of the interpreter (models/functional/instruction.h) and its decoder
    macro (models/functional/decoder.h). */
module FunctionalInstruction {
  import opened Words

  datatype RV32I =
    | LUI | AUIPC | JAL | JALR | BEQ | BNE | BLT | BGE | BLTU | BGEU | LB | LH | LW | LBU | LHU | SB | SH | SW
    | ADDI | SLTI | SLTIU | XORI | ORI | ANDI | SLLI | SRLI | SRAI
    | ADD | SUB | SLL | SLT | SLTU | XOR | SRL | SRA | OR | AND | FENCE | ECALL | EBREAK | UNKNOWN

  // ----- getters of the bit-field layouts; the formats that have a field keep it in the same place -----

  function GetOpcode(raw: Word): bv7 { (raw & 0x7f) as bv7 }

  function GetRd(raw: Word): RegIdx { ((raw >> 7) & 0x1f) as RegIdx }

  function GetFunct3(raw: Word): bv3 { ((raw >> 12) & 0x7) as bv3 }

  function GetRs1(raw: Word): RegIdx { ((raw >> 15) & 0x1f) as RegIdx }

  function GetRs2(raw: Word): RegIdx { ((raw >> 20) & 0x1f) as RegIdx }

  // ----- `GetImm` of each typed view -----

  function TypeIImm(raw: Word): Word {
    ((raw >> 20) & 0xfff) | (if (raw >> 31) & 1 != 0 then 0xffff_f000 else 0)
  }

  function TypeSImm(raw: Word): Word {
    ((raw >> 7) & 0x1f) | (((raw >> 25) & 0x7f) << 5) | (if (raw >> 31) & 1 != 0 then 0xffff_f000 else 0)
  }

  function TypeBImm(raw: Word): Word {
    (((raw >> 8) & 0xf) << 1) | (((raw >> 25) & 0x3f) << 5) | (((raw >> 7) & 1) << 11)
    | (if (raw >> 31) & 1 != 0 then 0xffff_f000 else 0)
  }

  function TypeUImm(raw: Word): Word {
    raw & (0 - (1 << 12))
  }

  function TypeJImm(raw: Word): Word {
    (((raw >> 21) & 0x3ff) << 1) | (((raw >> 20) & 1) << 11) | (((raw >> 12) & 0xff) << 12)
    | (if (raw >> 31) & 1 != 0 then 0xfff0_0000 else 0)
  }

  function BranchName(funct3: bv3): RV32I {
    if funct3 == 0 then BEQ else if funct3 == 1 then BNE else if funct3 == 4 then BLT
    else if funct3 == 5 then BGE else if funct3 == 6 then BLTU else if funct3 == 7 then BGEU else UNKNOWN
  }

  function LoadName(funct3: bv3): RV32I {
    if funct3 == 0 then LB else if funct3 == 1 then LH else if funct3 == 2 then LW
    else if funct3 == 4 then LBU else if funct3 == 5 then LHU else UNKNOWN
  }

  function StoreName(funct3: bv3): RV32I {
    if funct3 == 0 then SB else if funct3 == 1 then SH else if funct3 == 2 then SW else UNKNOWN
  }

  function OpImmName(raw: Word): RV32I {
    var funct3 := GetFunct3(raw);
    if funct3 == 0 then ADDI else if funct3 == 2 then SLTI else if funct3 == 3 then SLTIU
    else if funct3 == 4 then XORI else if funct3 == 6 then ORI else if funct3 == 7 then ANDI
    else if funct3 == 1 then SLLI
    else if raw & (1 << 30) != 0 then SRAI else SRLI
  }

  function OpName(raw: Word): RV32I {
    var funct3 := GetFunct3(raw);
    if funct3 == 0 then (if raw & (1 << 30) != 0 then SUB else ADD)
    else if funct3 == 1 then SLL else if funct3 == 2 then SLT else if funct3 == 3 then SLTU
    else if funct3 == 4 then XOR
    else if funct3 == 5 then (if raw & (1 << 30) != 0 then SRA else SRL)
    else if funct3 == 6 then OR else AND
  }

  function SystemName(raw: Word): RV32I {
    if raw & (1 << 20) != 0 then EBREAK else ECALL
  }

  /** `SWITCH_DECODER`; None stands for the default case, which terminates the program. */
  function SwitchDecoder(raw: Word): Option<RV32I> {
    var opcode := GetOpcode(raw);
    if opcode == 0x37 then Some(LUI)
    else if opcode == 0x17 then Some(AUIPC)
    else if opcode == 0x6f then Some(JAL)
    else if opcode == 0x67 then Some(JALR)
    else if opcode == 0x63 then Some(BranchName(GetFunct3(raw)))
    else if opcode == 0x03 then Some(LoadName(GetFunct3(raw)))
    else if opcode == 0x23 then Some(StoreName(GetFunct3(raw)))
    else if opcode == 0x13 then Some(OpImmName(raw))
    else if opcode == 0x33 then Some(OpName(raw))
    else if opcode == 0x0f then Some(FENCE)
    else if opcode == 0x73 then Some(SystemName(raw))
    else None
  }
}
