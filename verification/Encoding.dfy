/** The formats of section 2.2 and the immediates of section 2.3 of the RISC-V manual, the other way
    round: every instruction has a word that decodes to it, and the decoder produces no others. */
module Encoding {
  import opened Words
  import opened InstructionSet

  // ----- the six layouts -----

  function RWord(funct7: bv7, rs2: RegIdx, rs1: RegIdx, funct3: bv3, rd: RegIdx, opcode: bv7): Word {
    ((funct7 as Word) << 25) | ((rs2 as Word) << 20) | ((rs1 as Word) << 15) | ((funct3 as Word) << 12)
    | ((rd as Word) << 7) | (opcode as Word)
  }

  function IWord(imm: Word, rs1: RegIdx, funct3: bv3, rd: RegIdx, opcode: bv7): Word {
    (imm << 20) | ((rs1 as Word) << 15) | ((funct3 as Word) << 12) | ((rd as Word) << 7) | (opcode as Word)
  }

  function SWord(imm: Word, rs2: RegIdx, rs1: RegIdx, funct3: bv3, opcode: bv7): Word {
    ((imm & 0xfe0) << 20) | ((rs2 as Word) << 20) | ((rs1 as Word) << 15) | ((funct3 as Word) << 12)
    | ((imm & 0x1f) << 7) | (opcode as Word)
  }

  function BWord(imm: Word, rs2: RegIdx, rs1: RegIdx, funct3: bv3, opcode: bv7): Word {
    ((imm & 0x1000) << 19) | ((imm & 0x7e0) << 20) | ((rs2 as Word) << 20) | ((rs1 as Word) << 15) |
      ((funct3 as Word) << 12)
    | ((imm & 0x1e) << 7) | ((imm & 0x800) >> 4) | (opcode as Word)
  }

  function UWord(imm: Word, rd: RegIdx, opcode: bv7): Word {
    (imm & 0xffff_f000) | ((rd as Word) << 7) | (opcode as Word)
  }

  function JWord(imm: Word, rd: RegIdx, opcode: bv7): Word {
    ((imm & 0x10_0000) << 11) | ((imm & 0x7fe) << 20) | ((imm & 0x800) << 9) | (imm & 0xf_f000)
    | ((rd as Word) << 7) | (opcode as Word)
  }

  // ----- the ranges of the immediates -----

  /** -2048 to 2047 */
  predicate Fits12(imm: Word) {
    imm + 0x800 < 0x1000
  }

  /** the even numbers from -4096 to 4094 */
  predicate FitsBranch(imm: Word) {
    imm & 1 == 0 && imm + 0x1000 < 0x2000
  }

  /** the even numbers from -2^20 to 2^20 - 2 */
  predicate FitsJump(imm: Word) {
    imm & 1 == 0 && imm + 0x10_0000 < 0x20_0000
  }

  predicate FitsUpper(imm: Word) {
    imm & 0xfff == 0
  }

  // ----- fields of a layout -----

  lemma RFields(funct7: bv7, rs2: RegIdx, rs1: RegIdx, funct3: bv3, rd: RegIdx, opcode: bv7)
    ensures var w := RWord(funct7, rs2, rs1, funct3, rd, opcode);
      Funct7(w) == funct7 && Rs2(w) == rs2 && Rs1(w) == rs1 && Funct3(w) == funct3 && Rd(w) == rd && Opcode(w) == opcode
  {
  }

  lemma IFields(imm: Word, rs1: RegIdx, funct3: bv3, rd: RegIdx, opcode: bv7)
    requires Fits12(imm)
    ensures var w := IWord(imm, rs1, funct3, rd, opcode);
      ImmI(w) == imm && Rs1(w) == rs1 && Funct3(w) == funct3 && Rd(w) == rd && Opcode(w) == opcode
    ensures var w := IWord(imm, rs1, funct3, rd, opcode);
      (imm < 32 ==> Funct7(w) == 0) && (imm & 0xfe0 == 0x400 ==> Funct7(w) == 0x20)
  {
  }

  lemma SFields(imm: Word, rs2: RegIdx, rs1: RegIdx, funct3: bv3, opcode: bv7)
    requires Fits12(imm)
    ensures var w := SWord(imm, rs2, rs1, funct3, opcode);
      ImmS(w) == imm && Rs2(w) == rs2 && Rs1(w) == rs1 && Funct3(w) == funct3 && Opcode(w) == opcode
  {
  }

  lemma BFields(imm: Word, rs2: RegIdx, rs1: RegIdx, funct3: bv3, opcode: bv7)
    requires FitsBranch(imm)
    ensures var w := BWord(imm, rs2, rs1, funct3, opcode);
      ImmB(w) == imm && Rs2(w) == rs2 && Rs1(w) == rs1 && Funct3(w) == funct3 && Opcode(w) == opcode
  {
  }

  lemma UFields(imm: Word, rd: RegIdx, opcode: bv7)
    requires FitsUpper(imm)
    ensures var w := UWord(imm, rd, opcode); ImmU(w) == imm && Rd(w) == rd && Opcode(w) == opcode
  {
  }

  lemma JFields(imm: Word, rd: RegIdx, opcode: bv7)
    requires FitsJump(imm)
    ensures var w := JWord(imm, rd, opcode); ImmJ(w) == imm && Rd(w) == rd && Opcode(w) == opcode
  {
  }

  /** The immediates of any word are in range. */
  lemma ImmediatesInRange(w: Word)
    ensures Fits12(ImmI(w)) && Fits12(ImmS(w)) && FitsBranch(ImmB(w)) && FitsUpper(ImmU(w)) && FitsJump(ImmJ(w))
  {
  }

  /** The immediate of a shift with the given upper bits. */
  lemma ShiftImmediates(w: Word)
    ensures Funct7(w) == 0 ==> ImmI(w) < 32
    ensures Funct7(w) == 0x20 ==> ImmI(w) & 0xfe0 == 0x400
  {
  }

  // ----- instructions -----

  function BranchFunct3(op: BranchOp): bv3 {
    match op case BEQ => 0 case BNE => 1 case BLT => 4 case BGE => 5 case BLTU => 6 case BGEU => 7
  }

  function LoadFunct3(op: LoadOp): bv3 {
    match op case LB => 0 case LH => 1 case LW => 2 case LBU => 4 case LHU => 5
  }

  function StoreFunct3(op: StoreOp): bv3 {
    match op case SB => 0 case SH => 1 case SW => 2
  }

  function ArithFunct3(op: ArithOp): bv3 {
    match op
    case ADD => 0 case SUB => 0 case SLL => 1 case SLT => 2 case SLTU => 3 case XOR => 4 case SRL => 5 case SRA => 5
    case OR => 6 case AND => 7
  }

  function ArithFunct7(op: ArithOp): bv7 {
    if op == SUB || op == SRA then 0x20 else 0
  }

  /** The immediate operand of a register-immediate instruction; SRAI carries a flag in bit 10. */
  predicate FitsOperand(op: ArithOp, imm: Word) {
    if op == SLL || op == SRL then imm < 32
    else if op == SRA then imm & 0xfe0 == 0x400 && Fits12(imm)
    else op != SUB && Fits12(imm)
  }

  /** The instructions of RV32I. */
  predicate Encodable(i: Instr) {
    match i
    case Lui(_, imm) => FitsUpper(imm)
    case Auipc(_, imm) => FitsUpper(imm)
    case Jal(_, imm) => FitsJump(imm)
    case Jalr(_, _, imm) => Fits12(imm)
    case Branch(_, _, _, imm) => FitsBranch(imm)
    case Load(_, _, _, imm) => Fits12(imm)
    case Store(_, _, _, imm) => Fits12(imm)
    case OpImm(op, _, _, imm) => FitsOperand(op, imm)
    case Illegal => false
    case _ => true
  }

  function Encode(i: Instr): Word {
    match i
    case Lui(rd, imm) => UWord(imm, rd, 0x37)
    case Auipc(rd, imm) => UWord(imm, rd, 0x17)
    case Jal(rd, imm) => JWord(imm, rd, 0x6f)
    case Jalr(rd, rs1, imm) => IWord(imm, rs1, 0, rd, 0x67)
    case Branch(op, rs1, rs2, imm) => BWord(imm, rs2, rs1, BranchFunct3(op), 0x63)
    case Load(op, rd, rs1, imm) => IWord(imm, rs1, LoadFunct3(op), rd, 0x03)
    case Store(op, rs1, rs2, imm) => SWord(imm, rs2, rs1, StoreFunct3(op), 0x23)
    case OpImm(op, rd, rs1, imm) => IWord(imm, rs1, ArithFunct3(op), rd, 0x13)
    case Op(op, rd, rs1, rs2) => RWord(ArithFunct7(op), rs2, rs1, ArithFunct3(op), rd, 0x33)
    case Fence => 0x0000_000f
    case EnvironmentCall => 0x0000_0073
    case EnvironmentBreak => 0x0010_0073
    case Illegal => 0
  }

  lemma FunctsDecode()
    ensures forall op :: DecodeBranch(BranchFunct3(op)) == Some(op)
    ensures forall op :: DecodeLoad(LoadFunct3(op)) == Some(op)
    ensures forall op :: DecodeStore(StoreFunct3(op)) == Some(op)
    ensures forall op :: DecodeOp(ArithFunct3(op), ArithFunct7(op)) == Some(op)
    ensures forall op, funct7 :: op != SUB && (op == SLL || op == SRL || op == SRA ==> funct7 == ArithFunct7(op)) ==>
      DecodeOpImm(ArithFunct3(op), funct7) == Some(op)
  {
  }

  lemma SmallFits(imm: Word)
    ensures imm < 32 ==> Fits12(imm)
  {
  }

  lemma SystemRoundTrip()
    ensures Decode(0xf) == Fence && Decode(0x73) == EnvironmentCall && Decode(0x10_0073) == EnvironmentBreak
  {
  }

  lemma LongImmediateRoundTrip(i: Instr)
    requires Encodable(i) && (i.Lui? || i.Auipc? || i.Jal?)
    ensures Decode(Encode(i)) == i
  {
    FunctsDecode();
    hide RWord, IWord, SWord, BWord, UWord, JWord, Opcode, Rd, Rs1, Rs2, Funct3, Funct7, ImmI, ImmS, ImmB, ImmU, ImmJ,
         DecodeBranch, DecodeLoad, DecodeStore, DecodeOp, DecodeOpImm, Fits12, FitsBranch, FitsJump, FitsUpper,
         BranchFunct3, LoadFunct3, StoreFunct3, ArithFunct3, ArithFunct7;
    if i.Jal? {
      JFields(i.imm, i.rd, 0x6f);
    } else {
      UFields(i.imm, i.rd, if i.Lui? then 0x37 else 0x17);
    }
  }

  lemma ShortImmediateRoundTrip(i: Instr)
    requires Encodable(i) && (i.Jalr? || i.Load?)
    ensures Decode(Encode(i)) == i
  {
    FunctsDecode();
    hide RWord, IWord, SWord, BWord, UWord, JWord, Opcode, Rd, Rs1, Rs2, Funct3, Funct7, ImmI, ImmS, ImmB, ImmU, ImmJ,
         DecodeBranch, DecodeLoad, DecodeStore, DecodeOp, DecodeOpImm, Fits12, FitsBranch, FitsJump, FitsUpper,
         BranchFunct3, LoadFunct3, StoreFunct3, ArithFunct3, ArithFunct7;
    if i.Jalr? {
      IFields(i.imm, i.rs1, 0, i.rd, 0x67);
    } else {
      IFields(i.imm, i.rs1, LoadFunct3(i.loadOp), i.rd, 0x03);
    }
  }

  lemma OpImmRoundTrip(i: Instr)
    requires Encodable(i) && (i.OpImm?)
    ensures Decode(Encode(i)) == i
  {
    FunctsDecode();
    hide RWord, IWord, SWord, BWord, UWord, JWord, Opcode, Rd, Rs1, Rs2, Funct3, Funct7, ImmI, ImmS, ImmB, ImmU, ImmJ,
         DecodeBranch, DecodeLoad, DecodeStore, DecodeOp, DecodeOpImm, Fits12, FitsBranch, FitsJump, FitsUpper,
         BranchFunct3, LoadFunct3, StoreFunct3, ArithFunct3, ArithFunct7;
    SmallFits(i.imm);
    IFields(i.imm, i.rs1, ArithFunct3(i.op), i.rd, 0x13);
    ShiftFunct7(i.op);
  }

  lemma TwoSourcesRoundTrip(i: Instr)
    requires Encodable(i) && (i.Branch? || i.Store?)
    ensures Decode(Encode(i)) == i
  {
    FunctsDecode();
    hide RWord, IWord, SWord, BWord, UWord, JWord, Opcode, Rd, Rs1, Rs2, Funct3, Funct7, ImmI, ImmS, ImmB, ImmU, ImmJ,
         DecodeBranch, DecodeLoad, DecodeStore, DecodeOp, DecodeOpImm, Fits12, FitsBranch, FitsJump, FitsUpper,
         BranchFunct3, LoadFunct3, StoreFunct3, ArithFunct3, ArithFunct7;
    if i.Branch? {
      BFields(i.imm, i.rs2, i.rs1, BranchFunct3(i.branchOp), 0x63);
    } else {
      SFields(i.imm, i.rs2, i.rs1, StoreFunct3(i.storeOp), 0x23);
    }
  }

  lemma OpRoundTrip(i: Instr)
    requires Encodable(i) && (i.Op?)
    ensures Decode(Encode(i)) == i
  {
    FunctsDecode();
    hide RWord, IWord, SWord, BWord, UWord, JWord, Opcode, Rd, Rs1, Rs2, Funct3, Funct7, ImmI, ImmS, ImmB, ImmU, ImmJ,
         DecodeBranch, DecodeLoad, DecodeStore, DecodeOp, DecodeOpImm, Fits12, FitsBranch, FitsJump, FitsUpper,
         BranchFunct3, LoadFunct3, StoreFunct3, ArithFunct3, ArithFunct7;
    RFields(ArithFunct7(i.op), i.rs2, i.rs1, ArithFunct3(i.op), i.rd, 0x33);
  }

  lemma ShiftFunct7(op: ArithOp)
    ensures op == SLL || op == SRL ==> ArithFunct7(op) == 0
    ensures op == SRA ==> ArithFunct7(op) == 0x20
  {
  }

  /** Every instruction of RV32I is the meaning of its encoding. */
  lemma DecodeEncode(i: Instr)
    requires Encodable(i)
    ensures Decode(Encode(i)) == i
  {
    SystemRoundTrip();
    EncodeSystem();
    hide Decode, Encode;
    match i
    case Lui(_, _) => LongImmediateRoundTrip(i);
    case Auipc(_, _) => LongImmediateRoundTrip(i);
    case Jal(_, _) => LongImmediateRoundTrip(i);
    case Jalr(_, _, _) => ShortImmediateRoundTrip(i);
    case Load(_, _, _, _) => ShortImmediateRoundTrip(i);
    case Branch(_, _, _, _) => TwoSourcesRoundTrip(i);
    case Store(_, _, _, _) => TwoSourcesRoundTrip(i);
    case OpImm(_, _, _, _) => OpImmRoundTrip(i);
    case Op(_, _, _, _) => OpRoundTrip(i);
    case _ =>
  }

  lemma EncodeSystem()
    ensures Encode(Fence) == 0xf && Encode(EnvironmentCall) == 0x73 && Encode(EnvironmentBreak) == 0x10_0073
  {
  }

  lemma DecodedOperandFits(w: Word)
    ensures var op := DecodeOpImm(Funct3(w), Funct7(w)); op.Some? ==> FitsOperand(op.value, ImmI(w))
  {
    hide Funct3, Funct7, ImmI, Fits12;
    ImmediatesInRange(w);
    ShiftImmediates(w);
  }

  /** Every legal word decodes to an instruction of RV32I. */
  lemma DecodedIsEncodable(w: Word)
    requires Legal(w)
    ensures Encodable(Decode(w))
  {
    hide Opcode, Rd, Rs1, Rs2, Funct3, Funct7, ImmI, ImmS, ImmB, ImmU, ImmJ, DecodeBranch, DecodeLoad, DecodeStore,
         DecodeOp, DecodeOpImm, Fits12, FitsBranch, FitsJump, FitsUpper, FitsOperand;
    ImmediatesInRange(w);
    DecodedOperandFits(w);
  }
}
