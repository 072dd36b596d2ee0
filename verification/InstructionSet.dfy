/** RV32I as the RISC-V Instruction Set Manual, Volume I, describes it (sections 2.2-2.8): formats,
    immediates, and the meaning of one instruction. Words, registers and memory are those of Words.dfy,
    RegisterFile.dfy and Memory.dfy, whose operations Integers.dfy, Immediates.dfy and InstructionMeaning.dfy
    tie to the integers that the manual speaks of. */
module InstructionSet {
  import opened Words
  import opened Memory
  import opened RegisterFile
  import opened ControlSignals
  import opened PipelineStep
  import opened Datapath

  datatype BranchOp = BEQ | BNE | BLT | BGE | BLTU | BGEU
  datatype LoadOp = LB | LH | LW | LBU | LHU
  datatype StoreOp = SB | SH | SW
  datatype ArithOp = ADD | SUB | SLL | SLT | SLTU | XOR | SRL | SRA | OR | AND

  datatype Instr =
    | Lui(rd: RegIdx, imm: Word)
    | Auipc(rd: RegIdx, imm: Word)
    | Jal(rd: RegIdx, imm: Word)
    | Jalr(rd: RegIdx, rs1: RegIdx, imm: Word)
    | Branch(branchOp: BranchOp, rs1: RegIdx, rs2: RegIdx, imm: Word)
    | Load(loadOp: LoadOp, rd: RegIdx, rs1: RegIdx, imm: Word)
    | Store(storeOp: StoreOp, rs1: RegIdx, rs2: RegIdx, imm: Word)
    | OpImm(op: ArithOp, rd: RegIdx, rs1: RegIdx, imm: Word)
    | Op(op: ArithOp, rd: RegIdx, rs1: RegIdx, rs2: RegIdx)
    | Fence
    | EnvironmentCall
    | EnvironmentBreak
    | Illegal

  // ----- section 2.2: base instruction formats -----

  function Opcode(w: Word): bv7 { ((w << 25) >> 25) as bv7 }

  function Rd(w: Word): RegIdx { ((w << 20) >> 27) as RegIdx }

  function Funct3(w: Word): bv3 { ((w << 17) >> 29) as bv3 }

  function Rs1(w: Word): RegIdx { ((w << 12) >> 27) as RegIdx }

  function Rs2(w: Word): RegIdx { ((w << 7) >> 27) as RegIdx }

  function Funct7(w: Word): bv7 { (w >> 25) as bv7 }

  // ----- section 2.3: immediate encoding variants, by the bits of the instruction -----

  /** inst[31] from bit 11 up, inst[30:20] */
  function ImmI(w: Word): Word {
    (if w & 0x8000_0000 != 0 then 0xffff_f800 else 0) | ((w >> 20) & 0x7ff)
  }

  /** inst[31] from bit 11 up, inst[30:25], inst[11:7] */
  function ImmS(w: Word): Word {
    (if w & 0x8000_0000 != 0 then 0xffff_f800 else 0) | ((w >> 20) & 0x7e0) | ((w >> 7) & 0x1f)
  }

  /** inst[31] from bit 12 up, inst[7], inst[30:25], inst[11:8], 0 */
  function ImmB(w: Word): Word {
    (if w & 0x8000_0000 != 0 then 0xffff_f000 else 0) | ((w << 4) & 0x800) | ((w >> 20) & 0x7e0) | ((w >> 7) & 0x1e)
  }

  /** inst[31:12], twelve zeros */
  function ImmU(w: Word): Word {
    w & 0xffff_f000
  }

  /** inst[31] from bit 20 up, inst[19:12], inst[20], inst[30:21], 0 */
  function ImmJ(w: Word): Word {
    (if w & 0x8000_0000 != 0 then 0xfff0_0000 else 0) | (w & 0xf_f000) | ((w >> 9) & 0x800) | ((w >> 20) & 0x7fe)
  }

  // ----- sections 2.4-2.8: which instruction a word is -----

  function DecodeBranch(funct3: bv3): Option<BranchOp> {
    if funct3 == 0 then Some(BEQ) else if funct3 == 1 then Some(BNE)
    else if funct3 == 4 then Some(BLT) else if funct3 == 5 then Some(BGE)
    else if funct3 == 6 then Some(BLTU) else if funct3 == 7 then Some(BGEU) else None
  }

  function DecodeLoad(funct3: bv3): Option<LoadOp> {
    if funct3 == 0 then Some(LB) else if funct3 == 1 then Some(LH) else if funct3 == 2 then Some(LW)
    else if funct3 == 4 then Some(LBU) else if funct3 == 5 then Some(LHU) else None
  }

  function DecodeStore(funct3: bv3): Option<StoreOp> {
    if funct3 == 0 then Some(SB) else if funct3 == 1 then Some(SH) else if funct3 == 2 then Some(SW) else None
  }

  function DecodeOpImm(funct3: bv3, funct7: bv7): Option<ArithOp> {
    if funct3 == 0 then Some(ADD) else if funct3 == 2 then Some(SLT) else if funct3 == 3 then Some(SLTU)
    else if funct3 == 4 then Some(XOR) else if funct3 == 6 then Some(OR) else if funct3 == 7 then Some(AND)
    else if funct3 == 1 && funct7 == 0 then Some(SLL)
    else if funct3 == 5 && funct7 == 0 then Some(SRL)
    else if funct3 == 5 && funct7 == 0x20 then Some(SRA)
    else None
  }

  function DecodeOp(funct3: bv3, funct7: bv7): Option<ArithOp> {
    if funct7 == 0 then
      Some(if funct3 == 0 then ADD else if funct3 == 1 then SLL else if funct3 == 2 then SLT
           else if funct3 == 3 then SLTU else if funct3 == 4 then XOR else if funct3 == 5 then SRL
           else if funct3 == 6 then OR else AND)
    else if funct7 == 0x20 && funct3 == 0 then Some(SUB)
    else if funct7 == 0x20 && funct3 == 5 then Some(SRA)
    else None
  }

  function Decode(w: Word): Instr {
    var opcode := Opcode(w);
    var funct3 := Funct3(w);
    if opcode == 0x37 then Lui(Rd(w), ImmU(w))
    else if opcode == 0x17 then Auipc(Rd(w), ImmU(w))
    else if opcode == 0x6f then Jal(Rd(w), ImmJ(w))
    else if opcode == 0x67 && funct3 == 0 then Jalr(Rd(w), Rs1(w), ImmI(w))
    else if opcode == 0x63 && DecodeBranch(funct3).Some? then
      Branch(DecodeBranch(funct3).value, Rs1(w), Rs2(w), ImmB(w))
    else if opcode == 0x3 && DecodeLoad(funct3).Some? then
      Load(DecodeLoad(funct3).value, Rd(w), Rs1(w), ImmI(w))
    else if opcode == 0x23 && DecodeStore(funct3).Some? then
      Store(DecodeStore(funct3).value, Rs1(w), Rs2(w), ImmS(w))
    else if opcode == 0x13 && DecodeOpImm(funct3, Funct7(w)).Some? then
      OpImm(DecodeOpImm(funct3, Funct7(w)).value, Rd(w), Rs1(w), ImmI(w))
    else if opcode == 0x33 && DecodeOp(funct3, Funct7(w)).Some? then
      Op(DecodeOp(funct3, Funct7(w)).value, Rd(w), Rs1(w), Rs2(w))
    else if opcode == 0xf && funct3 == 0 then Fence
    else if w == 0x0000_0073 then EnvironmentCall
    else if w == 0x0010_0073 then EnvironmentBreak
    else Illegal
  }

  // ----- the meaning of an instruction -----

  /** Register-register and register-immediate operations; shifts use the low five bits. */
  function Arith(op: ArithOp, a: Word, b: Word): Word {
    match op
    case ADD => Add(a, b)
    case SUB => Sub(a, b)
    case SLL => ShiftLeft(a, b & 0x1f)
    case SLT => if SignedLess(a, b) then 1 else 0
    case SLTU => if Below(a, b) then 1 else 0
    case XOR => Xor(a, b)
    case SRL => ShiftRight(a, b & 0x1f)
    case SRA => ShiftRightArithmetic(a, b & 0x1f)
    case OR => Or(a, b)
    case AND => And(a, b)
  }

  predicate Condition(op: BranchOp, a: Word, b: Word) {
    match op
    case BEQ => a == b
    case BNE => a != b
    case BLT => SignedLess(a, b)
    case BGE => !SignedLess(a, b)
    case BLTU => Below(a, b)
    case BGEU => !Below(a, b)
  }

  function SignExtend8(b: bv8): Word {
    ShiftRightArithmetic((b as Word) << 24, 24)
  }

  function SignExtend16(h: bv16): Word {
    ShiftRightArithmetic((h as Word) << 16, 16)
  }

  function LoadValue(op: LoadOp, b: Bytes, a: Word): Word {
    match op
    case LB => SignExtend8(GetByte(b, a))
    case LH => SignExtend16(GetHalf(b, a))
    case LW => GetWord(b, a)
    case LBU => ZeroExtend8(GetByte(b, a))
    case LHU => ZeroExtend16(GetHalf(b, a))
  }

  function StoreTo(op: StoreOp, m: Mem, value: Word, a: Word): Mem {
    match op
    case SB => SetByte(m, ToByte(value), a)
    case SH => SetHalf(m, LowHalf(value), a)
    case SW => SetWord(m, value, a)
  }

  /** Go on at next, unless the transfer there is misaligned. */
  function Continue(s: Arch, w: Word, next: Word, rf: RegFile, mem: Mem): StepResult {
    if !Aligned(next) then Trap(Misaligned) else Next(Arch(next, rf, mem, s.execTrace + [ExecEvent(w, s.pc)]))
  }

  function Execute(i: Instr, w: Word, s: Arch): StepResult {
    var pc4 := Add(s.pc, 4);
    match i
    case Lui(rd, imm) => Continue(s, w, pc4, Write(s.regFile, true, rd, imm), s.mem)
    case Auipc(rd, imm) => Continue(s, w, pc4, Write(s.regFile, true, rd, Add(s.pc, imm)), s.mem)
    case Jal(rd, imm) => Continue(s, w, Add(s.pc, imm), Write(s.regFile, true, rd, pc4), s.mem)
    case Jalr(rd, rs1, imm) =>
      Continue(s, w, ClearBitZero(Add(Read(s.regFile, rs1), imm)), Write(s.regFile, true, rd, pc4), s.mem)
    case Branch(op, rs1, rs2, imm) =>
      Continue(s, w, if Condition(op, Read(s.regFile, rs1), Read(s.regFile, rs2)) then Add(s.pc, imm) else pc4,
        s.regFile, s.mem)
    case Load(op, rd, rs1, imm) =>
      Continue(s, w, pc4, Write(s.regFile, true, rd, LoadValue(op, s.mem.bytes, Add(Read(s.regFile, rs1), imm))), s.mem)
    case Store(op, rs1, rs2, imm) =>
      Continue(s, w, pc4, s.regFile, StoreTo(op, s.mem, Read(s.regFile, rs2), Add(Read(s.regFile, rs1), imm)))
    case OpImm(op, rd, rs1, imm) =>
      Continue(s, w, pc4, Write(s.regFile, true, rd, Arith(op, Read(s.regFile, rs1), imm)), s.mem)
    case Op(op, rd, rs1, rs2) =>
      Continue(s, w, pc4, Write(s.regFile, true, rd, Arith(op, Read(s.regFile, rs1), Read(s.regFile, rs2))), s.mem)
    case Fence => Continue(s, w, pc4, s.regFile, s.mem)
    case EnvironmentCall => Trap(Ecall)
    case EnvironmentBreak => Trap(Ebreak)
    case Illegal => Trap(InvalidInstruction)
  }

  /** One instruction of RV32I. */
  function IsaStep(s: Arch): StepResult {
    Execute(Decode(Fetch(s)), Fetch(s), s)
  }

  predicate Legal(w: Word) {
    Decode(w) != Illegal
  }

  /** n instructions. */
  function IsaSteps(s: Arch, n: nat): StepResult {
    if n == 0 then Next(s)
    else
      match IsaSteps(s, n - 1)
      case Next(r) => IsaStep(r)
      case Trap(c) => Trap(c)
  }
}
