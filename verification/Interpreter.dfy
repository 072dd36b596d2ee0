/** One round of the dispatch loop of the interpreter (models/functional/model.cpp:105-400). */
module Interpreter {
  import opened Words
  import opened Memory
  import opened RegisterFile
  import opened ControlSignals
  import opened PipelineStep
  import opened Datapath
  import opened FunctionalInstruction

  /** The loop goes on, returns to the caller, terminates the program, or shifts by 32 or more,
      which C++ leaves undefined. */
  datatype Result =
    | Goes(arch: Arch)
    | Returns(cause: Cause, arch: Arch)
    | Terminates
    | Undefined

  /** `RV32IRegFile::WriteReg`: x0 is stored as zero and not recorded. */
  function WriteReg(rf: RegFile, value: Word, idx: RegIdx): RegFile {
    RegFile(rf.regs[idx as int := if idx != 0 then value else 0],
            if idx != 0 then rf.trace + [RegEvent(idx, value)] else rf.trace)
  }

  /** Write rd and go to the next instruction. */
  function Put(s: Arch, raw: Word, value: Word): Result {
    Goes(s.(pc := Add(s.pc, 4), regFile := WriteReg(s.regFile, value, GetRd(raw))))
  }

  function Bool(b: bool): Word {
    if b then 1 else 0
  }

  predicate BranchTaken(name: RV32I, a: Word, b: Word) {
    match name
    case BEQ => a == b
    case BNE => a != b
    case BLT => SignedLess(a, b)
    case BGE => !SignedLess(a, b)
    case BLTU => Below(a, b)
    case BGEU => !Below(a, b)
    case _ => false
  }

  /** An unsigned char or short converts to `int32_t` without a sign. */
  function Loaded(name: RV32I, b: Bytes, a: Word): Word {
    match name
    case LB => ZeroExtend8(GetByte(b, a))
    case LH => ZeroExtend16(GetHalf(b, a))
    case LBU => ZeroExtend8(GetByte(b, a))
    case LHU => ZeroExtend16(GetHalf(b, a))
    case _ => GetWord(b, a)
  }

  /** The half-word handler calls `SetByte` as well. */
  function Stored(name: RV32I, m: Mem, value: Word, a: Word): Mem {
    match name
    case SB => SetByte(m, ToByte(value), a)
    case SH => SetByte(m, ToByte(value), a)
    case _ => SetWord(m, value, a)
  }

  /** The arithmetic handlers; the second operand is the immediate for names that end in I. */
  function Computed(name: RV32I, a: Word, b: Word): Word {
    match name
    case ADDI | ADD => Add(a, b)
    case SUB => Sub(a, b)
    case SLTI | SLT => Bool(SignedLess(a, b))
    case SLTIU | SLTU => Bool(Below(a, b))
    case XORI | XOR => Xor(a, b)
    case ORI | OR => Or(a, b)
    case ANDI | AND => And(a, b)
    // for the shifts b < 32
    case SLLI | SLL => ShiftLeft(a, b & 0x1f)
    case SRLI | SRL => ShiftRight(a, b & 0x1f)
    case SRAI | SRA => ShiftRightArithmetic(a, b & 0x1f)
    case _ => 0
  }

  predicate IsShift(name: RV32I) {
    name == SLLI || name == SRLI || name == SRAI || name == SLL || name == SRL || name == SRA
  }

  /** The shift amount is the whole immediate or register. */
  function Arithmetic(name: RV32I, raw: Word, s: Arch, a: Word, b: Word): Result {
    if IsShift(name) && !(b < 32) then Undefined else Put(s, raw, Computed(name, a, b))
  }

  /** The handler of each instruction; s already has the instruction in its execution trace. */
  function Handle(name: RV32I, raw: Word, s: Arch): Result {
    var a := Read(s.regFile, GetRs1(raw));
    var b := Read(s.regFile, GetRs2(raw));
    match name
    case LUI => Put(s, raw, TypeUImm(raw))
    case AUIPC => Put(s, raw, Add(s.pc, TypeUImm(raw)))
    case JAL =>
      Goes(s.(pc := Add(s.pc, TypeJImm(raw)), regFile := WriteReg(s.regFile, Add(s.pc, 4), GetRd(raw))))
    case JALR =>
      // rd is written before rs1 is read
      var rf := WriteReg(s.regFile, Add(s.pc, 4), GetRd(raw));
      Goes(s.(pc := ClearBitZero(Add(Read(rf, GetRs1(raw)), TypeIImm(raw))), regFile := rf))
    case BEQ | BNE | BLT | BGE | BLTU | BGEU =>
      Goes(s.(pc := if BranchTaken(name, a, b) then Add(s.pc, TypeBImm(raw)) else Add(s.pc, 4)))
    case LB | LH | LW | LBU | LHU => Put(s, raw, Loaded(name, s.mem.bytes, Add(a, TypeIImm(raw))))
    case SB | SH | SW => Goes(s.(pc := Add(s.pc, 4), mem := Stored(name, s.mem, b, Add(a, TypeSImm(raw)))))
    case ADDI | SLTI | SLTIU | XORI | ORI | ANDI | SLLI | SRLI | SRAI => Arithmetic(name, raw, s, a, TypeIImm(raw))
    case ADD | SUB | SLL | SLT | SLTU | XOR | SRL | SRA | OR | AND => Arithmetic(name, raw, s, a, b)
    case FENCE => Goes(s.(pc := Add(s.pc, 4)))
    case ECALL => Returns(Ecall, s)
    case EBREAK => Returns(Ebreak, s)
    case UNKNOWN => Terminates
  }

  /** From one execution of the label DECODER to the next. */
  function Round(s: Arch): Result {
    var raw := Fetch(s);
    var traced := s.(execTrace := s.execTrace + [ExecEvent(raw, s.pc)]);
    match SwitchDecoder(raw)
    case None => Terminates
    case Some(name) => Handle(name, raw, traced)
  }

  /** n rounds. */
  function Rounds(s: Arch, n: nat): Result {
    if n == 0 then Goes(s)
    else
      match Rounds(s, n - 1)
      case Goes(r) => Round(r)
      case other => other
  }
}
