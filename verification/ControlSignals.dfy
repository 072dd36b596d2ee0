/** The decoder of the pipeline model (models/pipeline/pipeline/control_unit.h). */
module ControlSignals {
  import opened Words
  import opened PipelineInstruction
  import Alu

  /** Why a run ends: the C++ exceptions that leave `Tick`. */
  datatype Cause = Ecall | Ebreak | InvalidInstruction | Misaligned | InvalidMemoryMode

  datatype Signals = Signals(
    isJalr: bool, wbWe: bool, memWe: bool, memToReg: bool, brnCond: bool, jmpCond: bool,
    cmpControl: Alu.CmpControl, aluSrc2: bool, aluOp: Alu.ALUControl)

  datatype Control = Accept(signals: Signals) | Reject(cause: Cause)

  function OpAlu(funct3: bv3, funct7: bv7): Option<Alu.ALUControl> {
    if funct3 == 0 then
      if funct7 == 0 then Some(Alu.ALUControl.ADD)
      else if funct7 == 0x20 then Some(Alu.ALUControl.SUB)
      else None
    else if funct3 == 1 then Some(Alu.ALUControl.SLL)
    else if funct3 == 2 then Some(Alu.ALUControl.SLT)
    else if funct3 == 3 then Some(Alu.ALUControl.SLTU)
    else if funct3 == 4 then Some(Alu.ALUControl.XOR)
    else if funct3 == 5 then
      if funct7 == 0 then Some(Alu.ALUControl.SRL)
      else if funct7 == 0x20 then Some(Alu.ALUControl.SRA)
      else None
    else if funct3 == 6 then Some(Alu.ALUControl.OR)
    else Some(Alu.ALUControl.AND)
  }

  function OpImmAlu(funct3: bv3, funct7: bv7): Option<Alu.ALUControl> {
    if funct3 == 0 then Some(Alu.ALUControl.ADD)
    else if funct3 == 2 then Some(Alu.ALUControl.SLT)
    else if funct3 == 3 then Some(Alu.ALUControl.SLTU)
    else if funct3 == 4 then Some(Alu.ALUControl.XOR)
    else if funct3 == 6 then Some(Alu.ALUControl.OR)
    else if funct3 == 7 then Some(Alu.ALUControl.AND)
    else if funct3 == 1 then
      if funct7 == 0 then Some(Alu.ALUControl.SLL) else None
    else
      if funct7 == 0 then Some(Alu.ALUControl.SRL)
      else if funct7 == 0x20 then Some(Alu.ALUControl.SRA)
      else None
  }

  function BranchCmp(funct3: bv3): Option<Alu.CmpControl> {
    if funct3 == 0 then Some(Alu.CmpControl.EQ)
    else if funct3 == 1 then Some(Alu.CmpControl.NE)
    else if funct3 == 4 then Some(Alu.CmpControl.LT)
    else if funct3 == 5 then Some(Alu.CmpControl.GE)
    else if funct3 == 6 then Some(Alu.CmpControl.LTU)
    else if funct3 == 7 then Some(Alu.CmpControl.GEU)
    else None
  }

  function AluControlOf(opcode: bv7, funct3: bv3, funct7: bv7): Option<Alu.ALUControl> {
    if opcode == OP then OpAlu(funct3, funct7)
    else if opcode == OP_IMM then OpImmAlu(funct3, funct7)
    else if GetInstructionType(opcode) == UType || opcode == JALR || opcode == LOAD || opcode == STORE then
      Some(Alu.ALUControl.ADD)
    else Some(Alu.ALUControl.NOP)
  }

  function CmpControlOf(opcode: bv7, funct3: bv3): Option<Alu.CmpControl> {
    if opcode == BRANCH then BranchCmp(funct3) else Some(Alu.CmpControl.NOP)
  }

  /** `ControlUnit::Tick`: the control signals of an instruction, or the exception it raises.
      Note that an unknown opcode is accepted, with its write-back enabled. */
  function ControlTick(opcode: bv7, funct3: bv3, funct7: bv7, rs2: RegIdx): Control {
    if opcode == SYSTEM then
      Reject(if rs2 == 0 then Ecall else if rs2 == 1 then Ebreak else InvalidInstruction)
    else
      var instrType := GetInstructionType(opcode);
      var aluOp := AluControlOf(opcode, funct3, funct7);
      var cmpControl := CmpControlOf(opcode, funct3);
      if aluOp.None? || cmpControl.None? then Reject(InvalidInstruction)
      else Accept(Signals(
        opcode == JALR,
        !(opcode == STORE || opcode == BRANCH || opcode == SYSTEM),
        opcode == STORE,
        opcode == LOAD,
        opcode == BRANCH,
        opcode == JAL || opcode == JALR,
        cmpControl.value,
        instrType == IType || instrType == SType || instrType == UType,
        aluOp.value))
  }

  function ControlOf(w: Word): Control {
    ControlTick(GetOpcode(w), GetFunct3(w), GetFunct7(w), GetRs2(w))
  }
}
