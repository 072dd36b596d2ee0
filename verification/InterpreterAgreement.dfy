/** Exactly when the interpreter executes an instruction as the manual says. */
module InterpreterAgreement {
  import opened Words
  import opened Memory
  import opened RegisterFile
  import opened ControlSignals
  import opened PipelineStep
  import opened Datapath
  import opened InstructionSet
  import opened Interpreter
  import F = FunctionalInstruction

  /** A step of the manual in the interpreter's terms; it does not raise misaligned transfers. */
  function ResultOf(s: Arch): Result
    requires IsaStep(s) != Trap(Misaligned)
  {
    match IsaStep(s)
    case Next(r) => Goes(r)
    case Trap(cause) =>
      if cause == InvalidInstruction then Terminates
      else Returns(cause, s.(execTrace := s.execTrace + [ExecEvent(Fetch(s), s.pc)]))
  }

  /** The instructions that the interpreter gets right, by what they are about to do:
      LB and LH when the loaded value is not negative or dropped, never SH, JALR unless it overwrites
      its own base, never SRAI, shifts by a register that is below 32. */
  predicate Faithful(s: Arch) {
    match Decode(Fetch(s))
    case Load(op, rd, rs1, imm) =>
      var a := Add(Read(s.regFile, rs1), imm);
      (op == LB ==> rd == 0 || GetByte(s.mem.bytes, a) < 0x80) &&
      (op == LH ==> rd == 0 || GetHalf(s.mem.bytes, a) < 0x8000)
    case Store(op, _, _, _) => op != SH
    case Jalr(rd, rs1, imm) =>
      rd == 0 || rd != rs1 ||
      ClearBitZero(Add(Add(s.pc, 4), imm)) == ClearBitZero(Add(Read(s.regFile, rs1), imm))
    case OpImm(op, _, _, _) => op != SRA
    case Op(op, _, _, rs2) => op == SLL || op == SRL || op == SRA ==> Read(s.regFile, rs2) < 32
    case _ => true
  }

  lemma FieldsAgree(w: Word)
    ensures F.GetOpcode(w) == Opcode(w) && F.GetRd(w) == Rd(w) && F.GetFunct3(w) == Funct3(w)
    ensures F.GetRs1(w) == Rs1(w) && F.GetRs2(w) == Rs2(w)
  {
  }

  lemma TypeIAgrees(w: Word)
    ensures F.TypeIImm(w) == ImmI(w)
  {
  }

  lemma TypeSAgrees(w: Word)
    ensures F.TypeSImm(w) == ImmS(w)
  {
  }

  lemma TypeBAgrees(w: Word)
    ensures F.TypeBImm(w) == ImmB(w)
  {
  }

  lemma TypeUAgrees(w: Word)
    ensures F.TypeUImm(w) == ImmU(w)
  {
  }

  lemma TypeJAgrees(w: Word)
    ensures F.TypeJImm(w) == ImmJ(w)
  {
  }

  /** With x0 equal to zero, the two register files write alike. */
  lemma WriteRegAgrees(rf: RegFile, value: Word, idx: RegIdx)
    requires Read(rf, 0) == 0
    ensures WriteReg(rf, value, idx) == Write(rf, true, idx, value)
  {
    if idx == 0 {
      assert rf.regs[0 := 0] == rf.regs;
    }
  }

  lemma WritesDiffer(rf: RegFile, rd: RegIdx, v1: Word, v2: Word)
    ensures Write(rf, true, rd, v1) == Write(rf, true, rd, v2) <==> rd == 0 || v1 == v2
  {
    if rd != 0 && v1 != v2 {
      assert Write(rf, true, rd, v1).trace[|rf.trace|] != Write(rf, true, rd, v2).trace[|rf.trace|];
    }
  }

  lemma WriteKeeps(rf: RegFile, rd: RegIdx, v: Word, r: RegIdx)
    requires Read(rf, 0) == 0
    ensures Read(Write(rf, true, rd, v), r) == if rd == r && r != 0 then v else Read(rf, r)
  {
    ReadAfterWrite(rf, true, rd, v, r);
  }

  /** Bit 30 tells the two shifts, and the two sums, of a legal word apart. */
  lemma BitThirty(w: Word)
    ensures Funct7(w) == 0 ==> w & (1 << 30) == 0 && ImmI(w) < 32
    ensures Funct7(w) == 0x20 ==> w & (1 << 30) != 0 && ImmI(w) >= 32
  {
  }

  function BranchNameOf(op: BranchOp): F.RV32I {
    match op
    case BEQ => F.BEQ case BNE => F.BNE case BLT => F.BLT case BGE => F.BGE case BLTU => F.BLTU case BGEU => F.BGEU
  }

  function LoadNameOf(op: LoadOp): F.RV32I {
    match op
    case LB => F.LB case LH => F.LH case LW => F.LW case LBU => F.LBU case LHU => F.LHU
  }

  function StoreNameOf(op: StoreOp): F.RV32I {
    match op
    case SB => F.SB case SH => F.SH case SW => F.SW
  }

  function OpImmNameOf(op: ArithOp): F.RV32I {
    match op
    case ADD => F.ADDI case SUB => F.UNKNOWN case SLL => F.SLLI case SLT => F.SLTI case SLTU => F.SLTIU
    case XOR => F.XORI case SRL => F.SRLI case SRA => F.SRAI case OR => F.ORI case AND => F.ANDI
  }

  function OpNameOf(op: ArithOp): F.RV32I {
    match op
    case ADD => F.ADD case SUB => F.SUB case SLL => F.SLL case SLT => F.SLT case SLTU => F.SLTU
    case XOR => F.XOR case SRL => F.SRL case SRA => F.SRA case OR => F.OR case AND => F.AND
  }

  /** The interpreter's name of a decoded instruction. */
  function NameOf(i: Instr): F.RV32I {
    match i
    case Lui(_, _) => F.LUI
    case Auipc(_, _) => F.AUIPC
    case Jal(_, _) => F.JAL
    case Jalr(_, _, _) => F.JALR
    case Branch(op, _, _, _) => BranchNameOf(op)
    case Load(op, _, _, _) => LoadNameOf(op)
    case Store(op, _, _, _) => StoreNameOf(op)
    case OpImm(op, _, _, _) => OpImmNameOf(op)
    case Op(op, _, _, _) => OpNameOf(op)
    case Fence => F.FENCE
    case EnvironmentCall => F.ECALL
    case EnvironmentBreak => F.EBREAK
    case Illegal => F.UNKNOWN
  }

  /** Where the fields of a decoded instruction come from. */
  predicate FieldsOf(i: Instr, w: Word) {
    match i
    case Lui(rd, imm) => rd == Rd(w) && imm == ImmU(w)
    case Auipc(rd, imm) => rd == Rd(w) && imm == ImmU(w)
    case Jal(rd, imm) => rd == Rd(w) && imm == ImmJ(w)
    case Jalr(rd, rs1, imm) => rd == Rd(w) && rs1 == Rs1(w) && imm == ImmI(w)
    case Branch(_, rs1, rs2, imm) => rs1 == Rs1(w) && rs2 == Rs2(w) && imm == ImmB(w)
    case Load(_, rd, rs1, imm) => rd == Rd(w) && rs1 == Rs1(w) && imm == ImmI(w)
    case Store(_, rs1, rs2, imm) => rs1 == Rs1(w) && rs2 == Rs2(w) && imm == ImmS(w)
    case OpImm(op, rd, rs1, imm) =>
      rd == Rd(w) && rs1 == Rs1(w) && imm == ImmI(w) && op != SUB &&
      (op == SRA ==> ImmI(w) >= 32) && (op == SLL || op == SRL ==> ImmI(w) < 32)
    case Op(_, rd, rs1, rs2) => rd == Rd(w) && rs1 == Rs1(w) && rs2 == Rs2(w)
    case _ => true
  }

  lemma OpImmNames(w: Word)
    requires DecodeOpImm(Funct3(w), Funct7(w)).Some?
    ensures var op := DecodeOpImm(Funct3(w), Funct7(w)).value;
      F.OpImmName(w) == OpImmNameOf(op) && op != SUB &&
      (op == SRA ==> ImmI(w) >= 32) && (op == SLL || op == SRL ==> ImmI(w) < 32)
  {
    hide F.GetFunct3, Funct3, Funct7, ImmI;
    BitThirty(w);
    FieldsAgree(w);
  }

  lemma OpNames(w: Word)
    requires DecodeOp(Funct3(w), Funct7(w)).Some?
    ensures F.OpName(w) == OpNameOf(DecodeOp(Funct3(w), Funct7(w)).value)
  {
    hide F.GetFunct3, Funct3, Funct7, ImmI;
    BitThirty(w);
    FieldsAgree(w);
  }

  lemma DecodedImmediate(w: Word)
    requires Opcode(w) == 0x13
    ensures FieldsOf(Decode(w), w)
  {
    hide OpImmNameOf, DecodeOpImm, Opcode, Rd, Rs1, Rs2, Funct3, Funct7, ImmI, ImmS, ImmB, ImmU, ImmJ, F.OpImmName,
         DecodeBranch, DecodeLoad, DecodeStore, DecodeOp;
    if DecodeOpImm(Funct3(w), Funct7(w)).Some? {
      OpImmNames(w);
    }
  }

  lemma DecodedOthers(w: Word)
    requires Opcode(w) != 0x13
    ensures FieldsOf(Decode(w), w)
  {
    hide Opcode, Rd, Rs1, Rs2, Funct3, Funct7, ImmI, ImmS, ImmB, ImmU, ImmJ, DecodeBranch, DecodeLoad, DecodeStore,
         DecodeOp, DecodeOpImm;
  }

  lemma DecodedFields(w: Word)
    ensures FieldsOf(Decode(w), w)
  {
    hide Decode, FieldsOf, Opcode;
    if Opcode(w) == 0x13 {
      DecodedImmediate(w);
    } else {
      DecodedOthers(w);
    }
  }

  lemma SystemNames(w: Word)
    ensures w == 0x73 ==> Opcode(w) == 0x73 && F.SystemName(w) == F.ECALL
    ensures w == 0x10_0073 ==> Opcode(w) == 0x73 && F.SystemName(w) == F.EBREAK
  {
  }

  lemma MemoryAndBranchNames(funct3: bv3)
    ensures DecodeBranch(funct3).Some? ==> F.BranchName(funct3) == BranchNameOf(DecodeBranch(funct3).value)
    ensures DecodeLoad(funct3).Some? ==> F.LoadName(funct3) == LoadNameOf(DecodeLoad(funct3).value)
    ensures DecodeStore(funct3).Some? ==> F.StoreName(funct3) == StoreNameOf(DecodeStore(funct3).value)
  {
  }

  /** The decoder macro names every legal word as the manual does. */
  lemma SwitchDecoderAgrees(w: Word)
    requires Legal(w)
    ensures F.SwitchDecoder(w) == Some(NameOf(Decode(w)))
  {
    hide F.OpName, OpImmNameOf, DecodeOp, DecodeOpImm, F.GetOpcode, F.GetRd, LoadNameOf, StoreNameOf, DecodeBranch,
         DecodeStore, F.BranchName, F.LoadName, F.StoreName;
    MemoryAndBranchNames(Funct3(w));
    SystemNames(w);
    FieldsAgree(w);
    if DecodeOpImm(Funct3(w), Funct7(w)).Some? {
      OpImmNames(w);
    }
    if DecodeOp(Funct3(w), Funct7(w)).Some? {
      OpNames(w);
    }
  }

  /** The interpreter's view of the word at s. */
  lemma Decoded(s: Arch)
    requires Legal(Fetch(s))
    ensures var w := Fetch(s);
      F.SwitchDecoder(w) == Some(NameOf(Decode(w))) && FieldsOf(Decode(w), w) &&
      F.GetRd(w) == Rd(w) && F.GetRs1(w) == Rs1(w) && F.GetRs2(w) == Rs2(w) &&
      F.TypeIImm(w) == ImmI(w) && F.TypeSImm(w) == ImmS(w) && F.TypeBImm(w) == ImmB(w) &&
      F.TypeUImm(w) == ImmU(w) && F.TypeJImm(w) == ImmJ(w)
  {
    var w := Fetch(s);
    hide GetWord, Decode, F.SwitchDecoder, NameOf, FieldsOf, F.GetRd, F.GetRs1, F.GetRs2, Rd, Rs1, Rs2, ImmI, ImmS,
         ImmB, ImmU, ImmJ, F.TypeIImm, F.TypeSImm, F.TypeBImm, F.TypeUImm, F.TypeJImm;
    SwitchDecoderAgrees(w);
    DecodedFields(w);
    FieldsAgree(w);
    TypeIAgrees(w);
    TypeSAgrees(w);
    TypeBAgrees(w);
    TypeUAgrees(w);
    TypeJAgrees(w);
  }

  lemma ComputedOp(op: ArithOp, a: Word, b: Word)
    ensures Computed(OpNameOf(op), a, b) == Arith(op, a, b)
  {
    hide SignedLess, ShiftLeft, ShiftRight, ShiftRightArithmetic, Below, Add, Sub, And, Or, Xor, OpImmNameOf;
  }

  lemma ComputedOpImm(op: ArithOp, a: Word, b: Word)
    requires op != SUB
    ensures Computed(OpImmNameOf(op), a, b) == Arith(op, a, b)
  {
    hide SignedLess, ShiftLeft, ShiftRight, ShiftRightArithmetic, Below, Add, Sub, And, Or, Xor, OpNameOf;
  }

  lemma ShiftNames(op: ArithOp)
    ensures IsShift(OpNameOf(op)) <==> op == SLL || op == SRL || op == SRA
    ensures IsShift(OpImmNameOf(op)) <==> op == SLL || op == SRL || op == SRA
  {
  }

  lemma BranchesAgree(op: BranchOp, a: Word, b: Word)
    ensures BranchTaken(BranchNameOf(op), a, b) == Condition(op, a, b)
  {
    hide SignedLess, Below;
  }

  /** Signed loads are wrong exactly on negative values. */
  lemma LoadedAgrees(op: LoadOp, b: Bytes, a: Word)
    ensures Loaded(LoadNameOf(op), b, a) == LoadValue(op, b, a) <==>
            (op == LB ==> GetByte(b, a) < 0x80) && (op == LH ==> GetHalf(b, a) < 0x8000)
  {
    hide GetByte, GetHalf, GetWord, SignExtend8, SignExtend16, ZeroExtend8, ZeroExtend16;
    SignMatters(GetByte(b, a), GetHalf(b, a));
  }

  lemma StoredAgrees(op: StoreOp, m: Mem, value: Word, a: Word)
    ensures Stored(StoreNameOf(op), m, value, a) == StoreTo(op, m, value, a) <==> op != SH
  {
    hide SetByte, SetHalf, SetWord;
    StoresDiffer(m, value, a);
  }

  function Traced(s: Arch): Arch {
    s.(execTrace := s.execTrace + [ExecEvent(Fetch(s), s.pc)])
  }

  lemma RoundHandles(s: Arch)
    requires Legal(Fetch(s))
    ensures Round(s) == Handle(NameOf(Decode(Fetch(s))), Fetch(s), Traced(s))
  {
    hide Handle, Decode, NameOf, GetWord, F.SwitchDecoder;
    SwitchDecoderAgrees(Fetch(s));
  }

  lemma OpHandler(op: ArithOp, raw: Word, s: Arch)
    ensures Handle(OpNameOf(op), raw, s)
         == Arithmetic(OpNameOf(op), raw, s, Read(s.regFile, F.GetRs1(raw)), Read(s.regFile, F.GetRs2(raw)))
  {
    hide Put, Arithmetic, Loaded, Stored, BranchTaken, WriteReg, Read, Add, ClearBitZero, F.GetRs1, F.GetRs2, F.GetRd,
         F.TypeIImm, F.TypeSImm, F.TypeBImm, F.TypeUImm, F.TypeJImm;
  }

  lemma OpImmHandler(op: ArithOp, raw: Word, s: Arch)
    requires op != SUB
    ensures Handle(OpImmNameOf(op), raw, s)
         == Arithmetic(OpImmNameOf(op), raw, s, Read(s.regFile, F.GetRs1(raw)), F.TypeIImm(raw))
  {
    hide Put, Arithmetic, Loaded, Stored, BranchTaken, WriteReg, Read, Add, ClearBitZero, F.GetRs1, F.GetRs2, F.GetRd,
         F.TypeIImm, F.TypeSImm, F.TypeBImm, F.TypeUImm, F.TypeJImm;
  }

  lemma BranchHandler(op: BranchOp, raw: Word, s: Arch)
    ensures var taken := BranchTaken(BranchNameOf(op), Read(s.regFile, F.GetRs1(raw)), Read(s.regFile, F.GetRs2(raw)));
      Handle(BranchNameOf(op), raw, s) == Goes(s.(pc := if taken then Add(s.pc, F.TypeBImm(raw)) else Add(s.pc, 4)))
  {
    hide Put, Arithmetic, Loaded, Stored, BranchTaken, WriteReg, Read, Add, ClearBitZero, F.GetRs1, F.GetRs2, F.GetRd,
         F.TypeIImm, F.TypeSImm, F.TypeBImm, F.TypeUImm, F.TypeJImm;
  }

  lemma StoreHandler(op: StoreOp, raw: Word, s: Arch)
    ensures var a := Add(Read(s.regFile, F.GetRs1(raw)), F.TypeSImm(raw));
      Handle(StoreNameOf(op), raw, s)
      == Goes(s.(pc := Add(s.pc, 4), mem := Stored(StoreNameOf(op), s.mem, Read(s.regFile, F.GetRs2(raw)), a)))
  {
    hide Put, Arithmetic, Loaded, Stored, BranchTaken, WriteReg, Read, Add, ClearBitZero, F.GetRs1, F.GetRs2, F.GetRd,
         F.TypeIImm, F.TypeSImm, F.TypeBImm, F.TypeUImm, F.TypeJImm;
  }

  lemma UpperRound(s: Arch)
    requires Decode(Fetch(s)).Lui? || Decode(Fetch(s)).Auipc?
    ensures var w := Fetch(s);
      Round(s) == Put(Traced(s), w, if Decode(w).Lui? then ImmU(w) else Add(s.pc, ImmU(w)))
  {
    hide Decode, F.SwitchDecoder, Add, ImmI, ImmS, ImmB, ImmJ, Arithmetic, Loaded, Stored, BranchTaken, Put;
    Decoded(s);
  }

  lemma LoadRound(s: Arch)
    requires Decode(Fetch(s)).Load?
    ensures var w := Fetch(s); var a := Add(Read(s.regFile, Rs1(w)), ImmI(w));
      Round(s) == Put(Traced(s), w, Loaded(LoadNameOf(Decode(w).loadOp), s.mem.bytes, a))
  {
    hide Decode, F.SwitchDecoder, Add, ImmS, ImmB, ImmU, ImmJ, Arithmetic, Loaded, Stored, BranchTaken, Put;
    Decoded(s);
  }

  lemma JumpRound(s: Arch)
    requires Decode(Fetch(s)).Jal? || Decode(Fetch(s)).Jalr?
    ensures var w := Fetch(s); var rf := WriteReg(s.regFile, Add(s.pc, 4), Rd(w));
      Round(s) == Goes(Traced(s).(regFile := rf,
        pc := if Decode(w).Jal? then Add(s.pc, ImmJ(w)) else ClearBitZero(Add(Read(rf, Rs1(w)), ImmI(w)))))
  {
    hide Decode, F.SwitchDecoder, Add, ImmS, ImmB, ImmU, Arithmetic, Loaded, Stored, BranchTaken, Put, WriteReg,
         ClearBitZero;
    Decoded(s);
  }

  lemma BranchRound(s: Arch)
    requires Decode(Fetch(s)).Branch?
    ensures var w := Fetch(s);
      var taken := Condition(Decode(w).branchOp, Read(s.regFile, Rs1(w)), Read(s.regFile, Rs2(w)));
      Round(s) == Goes(Traced(s).(pc := Add(s.pc, if taken then ImmB(w) else 4)))
  {
    hide Round, Handle, Decode, GetWord, F.SwitchDecoder, Read, Add, Rd, Rs1, Rs2, ImmI, ImmS, ImmB, ImmU, ImmJ,
         F.GetRd, F.GetRs1, F.GetRs2, F.TypeIImm, F.TypeSImm, F.TypeBImm, F.TypeUImm, F.TypeJImm, BranchTaken,
         Condition, BranchNameOf;
    Decoded(s);
    RoundHandles(s);
    var w := Fetch(s);
    BranchHandler(Decode(w).branchOp, w, Traced(s));
    BranchesAgree(Decode(w).branchOp, Read(s.regFile, Rs1(w)), Read(s.regFile, Rs2(w)));
  }

  lemma OpRound(s: Arch)
    requires Decode(Fetch(s)).Op?
    ensures var w := Fetch(s);
      Round(s) == Arithmetic(NameOf(Decode(w)), w, Traced(s), Read(s.regFile, Rs1(w)), Read(s.regFile, Rs2(w)))
  {
    hide Round, Handle, Decode, GetWord, F.SwitchDecoder, Read, Add, Rd, Rs1, Rs2, ImmI, ImmS, ImmB, ImmU, ImmJ,
         F.GetRd, F.GetRs1, F.GetRs2, F.TypeIImm, F.TypeSImm, F.TypeBImm, F.TypeUImm, F.TypeJImm, Arithmetic,
         OpNameOf, OpImmNameOf;
    Decoded(s);
    RoundHandles(s);
    var w := Fetch(s);
    OpHandler(Decode(w).op, w, Traced(s));
  }

  lemma OpImmRound(s: Arch)
    requires Decode(Fetch(s)).OpImm?
    ensures var w := Fetch(s);
      Round(s) == Arithmetic(NameOf(Decode(w)), w, Traced(s), Read(s.regFile, Rs1(w)), ImmI(w))
  {
    hide Round, Handle, Decode, GetWord, F.SwitchDecoder, Read, Add, Rd, Rs1, Rs2, ImmI, ImmS, ImmB, ImmU, ImmJ,
         F.GetRd, F.GetRs1, F.GetRs2, F.TypeIImm, F.TypeSImm, F.TypeBImm, F.TypeUImm, F.TypeJImm, Arithmetic,
         OpNameOf, OpImmNameOf;
    Decoded(s);
    RoundHandles(s);
    var w := Fetch(s);
    OpImmHandler(Decode(w).op, w, Traced(s));
  }

  lemma OpRounds(s: Arch)
    requires Legal(Fetch(s)) && Read(s.regFile, 0) == 0 && IsaStep(s) != Trap(Misaligned)
    requires Decode(Fetch(s)).Op? || Decode(Fetch(s)).OpImm?
    ensures Round(s) == ResultOf(s) <==> Faithful(s)
  {
    hide GetWord, GetHalf, Read, Write, WriteReg, Add, ClearBitZero, Aligned, SetHalf, SetWord, F.GetRd, F.GetRs1,
         F.TypeJImm, Decode, F.SwitchDecoder, SignedLess, Computed, BranchTaken, Loaded, OpNameOf, OpImmNameOf;
    Decoded(s);
    var w := Fetch(s);
    if Decode(w).Op? {
      OpRound(s);
      ComputedOp(Decode(w).op, Read(s.regFile, Rs1(w)), Read(s.regFile, Rs2(w)));
      ShiftNames(Decode(w).op);
    } else {
      OpImmRound(s);
      ComputedOpImm(Decode(w).op, Read(s.regFile, Rs1(w)), ImmI(w));
      ShiftNames(Decode(w).op);
    }
    var b := if Decode(w).Op? then Read(s.regFile, Rs2(w)) else ImmI(w);
    WriteRegAgrees(s.regFile, Arith(Decode(w).op, Read(s.regFile, Rs1(w)), b), Rd(w));
  }

  lemma UpperRounds(s: Arch)
    requires Legal(Fetch(s)) && Read(s.regFile, 0) == 0 && IsaStep(s) != Trap(Misaligned)
    requires Decode(Fetch(s)).Lui? || Decode(Fetch(s)).Auipc?
    ensures Round(s) == ResultOf(s) <==> Faithful(s)
  {
    hide ImmS, ImmB, ImmU, F.TypeBImm, F.TypeUImm, Stored, StoreTo, Arithmetic;
    Decoded(s);
    var w := Fetch(s);
    WriteRegAgrees(s.regFile, ImmU(w), Rd(w));
    WriteRegAgrees(s.regFile, Add(s.pc, ImmU(w)), Rd(w));
  }

  lemma JalRounds(s: Arch)
    requires Legal(Fetch(s)) && Read(s.regFile, 0) == 0 && IsaStep(s) != Trap(Misaligned)
    requires Decode(Fetch(s)).Jal?
    ensures Round(s) == ResultOf(s) <==> Faithful(s)
  {
    hide Opcode, Arith, Condition, LoadValue, Arithmetic;
    Decoded(s);
    WriteRegAgrees(s.regFile, Add(s.pc, 4), Rd(Fetch(s)));
  }

  lemma JalrRounds(s: Arch)
    requires Legal(Fetch(s)) && Read(s.regFile, 0) == 0 && IsaStep(s) != Trap(Misaligned)
    requires Decode(Fetch(s)).Jalr?
    ensures Round(s) == ResultOf(s) <==> Faithful(s)
  {
    hide Rd, Rs1, Rs2, ImmI, F.TypeJImm, Decode, F.SwitchDecoder, Computed;
    Decoded(s);
    var w := Fetch(s);
    WriteRegAgrees(s.regFile, Add(s.pc, 4), Rd(w));
    WriteKeeps(s.regFile, Rd(w), Add(s.pc, 4), Rs1(w));
  }

  lemma BranchRounds(s: Arch)
    requires Legal(Fetch(s)) && Read(s.regFile, 0) == 0 && IsaStep(s) != Trap(Misaligned)
    requires Decode(Fetch(s)).Branch?
    ensures Round(s) == ResultOf(s) <==> Faithful(s)
  {
    hide Rd, Rs1, ImmI, ImmS, ImmB, ImmU, ImmJ, F.TypeIImm, F.TypeSImm, F.TypeBImm, F.TypeJImm, Decode,
         F.SwitchDecoder, ShiftRightArithmetic, Computed, BranchTaken, Loaded, Stored, Arith, Condition;
    Decoded(s);
    var w := Fetch(s);
    BranchesAgree(Decode(w).branchOp, Read(s.regFile, Rs1(w)), Read(s.regFile, Rs2(w)));
  }

  lemma LoadRounds(s: Arch)
    requires Legal(Fetch(s)) && Read(s.regFile, 0) == 0 && IsaStep(s) != Trap(Misaligned)
    requires Decode(Fetch(s)).Load?
    ensures Round(s) == ResultOf(s) <==> Faithful(s)
  {
    hide GetHalf, Add, Stored, Condition, LoadValue, StoreTo, Arithmetic;
    Decoded(s);
    var w := Fetch(s);
    var op := Decode(w).loadOp;
    var a := Add(Read(s.regFile, Rs1(w)), ImmI(w));
    var loaded := LoadValue(op, s.mem.bytes, a);
    var unsigned := Loaded(LoadNameOf(op), s.mem.bytes, a);
    WriteRegAgrees(s.regFile, unsigned, Rd(w));
    WritesDiffer(s.regFile, Rd(w), unsigned, loaded);
    LoadedAgrees(Decode(w).loadOp, s.mem.bytes, a);
  }

  /** Sign extension changes exactly the values with their top bit set. */
  lemma SignMatters(b: bv8, h: bv16)
    ensures SignExtend8(b) == ZeroExtend8(b) <==> b < 0x80
    ensures SignExtend16(h) == ZeroExtend16(h) <==> h < 0x8000
  {
  }

  lemma StoreRounds(s: Arch)
    requires Legal(Fetch(s)) && Read(s.regFile, 0) == 0 && IsaStep(s) != Trap(Misaligned)
    requires Decode(Fetch(s)).Store?
    ensures Round(s) == ResultOf(s) <==> Faithful(s)
  {
    hide Rs1, Rs2, ImmI, ImmS, F.TypeUImm, F.TypeJImm, Decode, F.SwitchDecoder;
    Decoded(s);
    var w := Fetch(s);
    StoredAgrees(Decode(w).storeOp, s.mem, Read(s.regFile, Rs2(w)), Add(Read(s.regFile, Rs1(w)), ImmS(w)));
  }

  lemma StoreRound(s: Arch)
    requires Decode(Fetch(s)).Store?
    ensures var i := Decode(Fetch(s));
      Round(s) == Goes(Traced(s).(
        pc := Add(s.pc, 4),
        mem := Stored(StoreNameOf(i.storeOp), s.mem, Read(s.regFile, i.rs2), Add(Read(s.regFile, i.rs1), i.imm))))
  {
    hide Round, Handle, Decode, GetWord, F.SwitchDecoder, Read, Add, Rd, Rs1, Rs2, ImmI, ImmS, ImmB, ImmU, ImmJ,
         F.GetRd, F.GetRs1, F.GetRs2, F.TypeIImm, F.TypeSImm, F.TypeBImm, F.TypeUImm, F.TypeJImm, Stored, StoreNameOf;
    Decoded(s);
    RoundHandles(s);
    var w := Fetch(s);
    StoreHandler(Decode(w).storeOp, w, Traced(s));
  }

  /** A half-word store leaves another record than a byte store. */
  lemma StoresDiffer(m: Mem, value: Word, a: Word)
    ensures SetByte(m, ToByte(value), a) != SetHalf(m, LowHalf(value), a)
  {
    hide PutByte, PutHalf;
    assert SetByte(m, ToByte(value), a).trace[|m.trace|].code == 0;
    assert SetHalf(m, LowHalf(value), a).trace[|m.trace|].code == 1;
  }

  lemma FenceRound(raw: Word, s: Arch)
    ensures Handle(F.FENCE, raw, s) == Goes(s.(pc := Add(s.pc, 4)))
  {
    hide Put, Arithmetic, Loaded, Stored, BranchTaken, WriteReg, Read, Add, ClearBitZero, F.GetRs1, F.GetRs2, F.GetRd,
         F.TypeIImm, F.TypeSImm, F.TypeBImm, F.TypeUImm, F.TypeJImm;
  }

  lemma FenceRounds(s: Arch)
    requires Legal(Fetch(s)) && Read(s.regFile, 0) == 0 && IsaStep(s) != Trap(Misaligned)
    requires Decode(Fetch(s)).Fence?
    ensures Round(s) == ResultOf(s) <==> Faithful(s)
  {
    hide Round, Handle, Decode, GetWord, Add, Aligned, Read;
    RoundHandles(s);
    FenceRound(Fetch(s), Traced(s));
  }

  lemma SystemRound(raw: Word, s: Arch)
    ensures Handle(F.ECALL, raw, s) == Returns(Ecall, s) && Handle(F.EBREAK, raw, s) == Returns(Ebreak, s)
  {
    hide Put, Arithmetic, Loaded, Stored, BranchTaken, WriteReg, Read, Add, ClearBitZero, F.GetRs1, F.GetRs2, F.GetRd,
         F.TypeIImm, F.TypeSImm, F.TypeBImm, F.TypeUImm, F.TypeJImm;
  }

  lemma SystemRounds(s: Arch)
    requires Legal(Fetch(s)) && Read(s.regFile, 0) == 0 && IsaStep(s) != Trap(Misaligned)
    requires Decode(Fetch(s)).EnvironmentCall? || Decode(Fetch(s)).EnvironmentBreak?
    ensures Round(s) == ResultOf(s) <==> Faithful(s)
  {
    hide GetHalf, Add, ClearBitZero, Arith, LoadValue, Continue, Handle;
    Decoded(s);
    SystemRound(Fetch(s), Traced(s));
  }

  lemma ArithmeticGoes(name: F.RV32I, raw: Word, s: Arch, a: Word, b: Word)
    ensures Put(s, raw, a).Goes?
    ensures var r := Arithmetic(name, raw, s, a, b); r.Goes? || (r.Undefined? && IsShift(name))
  {
    hide WriteReg, Add, F.GetRd, Computed;
  }

  /** Every handler but those of ECALL, EBREAK and unknown words goes on or meets an undefined shift. */
  lemma HandlerGoes(name: F.RV32I, raw: Word, s: Arch)
    requires name != F.ECALL && name != F.EBREAK && name != F.UNKNOWN
    ensures Handle(name, raw, s).Goes? || (Handle(name, raw, s).Undefined? && IsShift(name))
  {
    hide WriteReg, Read, Add, ClearBitZero, F.GetRs1, F.GetRs2, F.GetRd, Loaded, Stored, BranchTaken, F.TypeIImm,
         F.TypeSImm, F.TypeBImm, F.TypeUImm, F.TypeJImm, Arithmetic, Put, IsShift;
    forall a
      ensures Put(s, raw, a).Goes?
    {
      ArithmeticGoes(name, raw, s, a, a);
    }
    forall a, b
      ensures var r := Arithmetic(name, raw, s, a, b); r.Goes? || (r.Undefined? && IsShift(name))
    {
      ArithmeticGoes(name, raw, s, a, b);
    }
  }

  /** What the manual raises as misaligned is no ECALL or EBREAK, and with an aligned program counter a transfer. */
  lemma MisalignedIs(s: Arch)
    requires Legal(Fetch(s)) && IsaStep(s) == Trap(Misaligned)
    ensures var i := Decode(Fetch(s));
      !i.EnvironmentCall? && !i.EnvironmentBreak? && (Aligned(s.pc) ==> i.Jal? || i.Jalr? || i.Branch?)
  {
    hide Add, Aligned, Read, Write, GetWord, Decode, Arith, Condition, LoadValue, StoreTo, ClearBitZero;
    if Aligned(s.pc) {
      AlignedNext(s.pc);
    }
  }

  lemma SystemNamesOnly(i: Instr)
    requires i != Illegal && !i.EnvironmentCall? && !i.EnvironmentBreak? && (i.OpImm? ==> i.op != SUB)
    ensures NameOf(i) != F.ECALL && NameOf(i) != F.EBREAK && NameOf(i) != F.UNKNOWN
    ensures i.Jal? || i.Jalr? || i.Branch? ==> !IsShift(NameOf(i))
  {
  }

  /** Where the manual raises a misaligned transfer, the interpreter goes on; only at a misaligned instruction, which
      it does not notice either, may it be an undefined shift instead. */
  lemma MisalignedGoes(s: Arch)
    requires Legal(Fetch(s)) && IsaStep(s) == Trap(Misaligned)
    ensures Round(s).Goes? || (Round(s).Undefined? && !Aligned(s.pc))
  {
    var i := Decode(Fetch(s));
    RoundHandles(s);
    MisalignedIs(s);
    DecodedFields(Fetch(s));
    SystemNamesOnly(i);
    HandlerGoes(NameOf(i), Fetch(s), Traced(s));
    hide Round, Handle, IsaStep, Decode, GetWord, NameOf, IsShift, Aligned;
  }

  /** The interpreter executes a legal word as the manual says if and only if the word is Faithful; it goes on where
      the manual raises a misaligned transfer. */
  lemma InterpreterIsIsa(s: Arch)
    requires Legal(Fetch(s)) && Read(s.regFile, 0) == 0
    ensures if IsaStep(s) == Trap(Misaligned) then Round(s).Goes? || (Round(s).Undefined? && !Aligned(s.pc))
            else Round(s) == ResultOf(s) <==> Faithful(s)
  {
    hide Round, IsaStep, ResultOf, Faithful, Decode, GetWord, Read, Aligned;
    if IsaStep(s) == Trap(Misaligned) {
      MisalignedGoes(s);
      return;
    }
    match Decode(Fetch(s))
    case Op(_, _, _, _) => OpRounds(s);
    case OpImm(_, _, _, _) => OpRounds(s);
    case Lui(_, _) => UpperRounds(s);
    case Auipc(_, _) => UpperRounds(s);
    case Jal(_, _) => JalRounds(s);
    case Jalr(_, _, _) => JalrRounds(s);
    case Branch(_, _, _, _) => BranchRounds(s);
    case Load(_, _, _, _) => LoadRounds(s);
    case Store(_, _, _, _) => StoreRounds(s);
    case Fence => FenceRounds(s);
    case EnvironmentCall => SystemRounds(s);
    case EnvironmentBreak => SystemRounds(s);
  }
}
