/** The control signals of the pipeline denote the instructions of the manual. */
module DecoderAgreement {
  import opened Words
  import opened Memory
  import opened RegisterFile
  import opened ControlSignals
  import opened Stages
  import opened PipelineStep
  import opened Datapath
  import opened InstructionSet
  import P = PipelineInstruction
  import Alu

  lemma FieldsAgree(w: Word)
    ensures P.GetOpcode(w) == Opcode(w) && P.GetRd(w) == Rd(w) && P.GetFunct3(w) == Funct3(w)
    ensures P.GetRs1(w) == Rs1(w) && P.GetRs2(w) == Rs2(w) && P.GetFunct7(w) == Funct7(w)
  {
  }

  lemma ImmediateIAgrees(w: Word)
    ensures P.ImmediateI(w) == ImmI(w)
  {
  }

  lemma ImmediateSAgrees(w: Word)
    ensures P.ImmediateS(w) == ImmS(w)
  {
  }

  lemma ImmediateBAgrees(w: Word)
    ensures P.ImmediateB(w) == ImmB(w)
  {
  }

  lemma ImmediateUAgrees(w: Word)
    ensures P.ImmediateU(w) == ImmU(w)
  {
  }

  lemma ImmediateJAgrees(w: Word)
    ensures P.ImmediateJ(w) == ImmJ(w)
  {
  }

  /** The bit-field copies of `ImmediateExtensionBlock` are the immediates of section 2.3. */
  lemma ImmediatesAgree(w: Word)
    ensures var t := P.GetInstructionType(P.GetOpcode(w)); var imm := P.ImmediateExtensionBlock(w);
      (t == P.IType ==> imm == ImmI(w)) &&
      (t == P.SType ==> imm == ImmS(w)) &&
      (t == P.BType ==> imm == ImmB(w)) &&
      (t == P.UType ==> imm == ImmU(w)) &&
      (t == P.JType ==> imm == ImmJ(w))
  {
    hide P.GetInstructionType, P.GetOpcode, ImmI, ImmS, ImmB, ImmU, ImmJ, P.ImmediateI, P.ImmediateS, P.ImmediateB,
         P.ImmediateU, P.ImmediateJ;
    ImmediateIAgrees(w);
    ImmediateSAgrees(w);
    ImmediateBAgrees(w);
    ImmediateUAgrees(w);
    ImmediateJAgrees(w);
  }

  // ----- the shapes of a datapath step -----

  /** Operands and immediate of the word at s, as the datapath routes them. */
  function SrcA(s: Arch, w: Word): Word { SourceA(w, s.pc, Read(s.regFile, P.GetRs1(w))) }

  function SrcB(s: Arch, w: Word): Word { Read(s.regFile, P.GetRs2(w)) }

  lemma PlainStep(s: Arch, w: Word, g: Signals)
    requires w == Fetch(s) && ControlOf(w) == Accept(g)
    requires !g.memWe && !g.memToReg && !g.brnCond && !g.jmpCond && !g.isJalr && g.wbWe
    ensures var b := if g.aluSrc2 then P.ImmediateExtensionBlock(w) else SrcB(s, w);
      Step(s) == Continue(s, w, Add(s.pc, 4), Write(s.regFile, true, P.GetRd(w), Alu.ALU(g.aluOp, SrcA(s, w), b)),
        s.mem)
  {
    hide Aligned, Add, Read, Write, P.ImmediateExtensionBlock, ControlOf, Alu.ALU, Alu.Cmp, P.GetRd, P.GetRs1,
         P.GetRs2, P.GetFunct3, SourceA, GetWord, ClearBitZero;
  }

  lemma JumpStep(s: Arch, w: Word, g: Signals)
    requires w == Fetch(s) && ControlOf(w) == Accept(g)
    requires !g.memWe && !g.memToReg && !g.brnCond && g.jmpCond && g.wbWe
    ensures var imm := P.ImmediateExtensionBlock(w);
      var target := if g.isJalr then Add(0, ClearBitZero(Alu.ALU(g.aluOp, SrcA(s, w),
        if g.aluSrc2 then imm else SrcB(s, w))))
                    else Add(s.pc, imm);
      Step(s) == Continue(s, w, target, Write(s.regFile, true, P.GetRd(w), Add(s.pc, 4)), s.mem)
  {
    hide Aligned, Add, Read, Write, P.ImmediateExtensionBlock, ControlOf, Alu.ALU, Alu.Cmp, P.GetRd, P.GetRs1,
         P.GetRs2, P.GetFunct3, SourceA, GetWord, ClearBitZero;
  }

  lemma BranchStep(s: Arch, w: Word, g: Signals)
    requires w == Fetch(s) && ControlOf(w) == Accept(g)
    requires !g.memWe && !g.memToReg && g.brnCond && !g.jmpCond && !g.isJalr && !g.wbWe
    ensures var taken := Alu.Cmp(g.cmpControl, SrcA(s, w), SrcB(s, w));
      Step(s) == Continue(s, w, Add(s.pc, if taken then P.ImmediateExtensionBlock(w) else 4), s.regFile, s.mem)
  {
    hide Aligned, Add, Read, P.ImmediateExtensionBlock, ControlOf, Alu.ALU, Alu.Cmp, P.GetRd, P.GetRs1, P.GetRs2,
         P.GetFunct3, SourceA, GetWord, ClearBitZero;
  }

  lemma LoadStep(s: Arch, w: Word, g: Signals, value: Word)
    requires w == Fetch(s) && ControlOf(w) == Accept(g)
    requires !g.memWe && g.memToReg && !g.brnCond && !g.jmpCond && !g.isJalr && g.wbWe && g.aluSrc2
    requires GetData(s.mem.bytes, P.GetFunct3(w), Alu.ALU(g.aluOp, SrcA(s, w), P.ImmediateExtensionBlock(w)))
      == Some(value)
    ensures Step(s) == Continue(s, w, Add(s.pc, 4), Write(s.regFile, true, P.GetRd(w), value), s.mem)
  {
    hide Aligned, Add, Read, Write, P.ImmediateExtensionBlock, ControlOf, Alu.ALU, Alu.Cmp, P.GetRd, P.GetRs1,
         P.GetRs2, P.GetFunct3, SourceA, GetWord, GetData, ClearBitZero;
  }

  lemma StoreStep(s: Arch, w: Word, g: Signals, mem: Mem)
    requires w == Fetch(s) && ControlOf(w) == Accept(g)
    requires g.memWe && !g.memToReg && !g.brnCond && !g.jmpCond && !g.isJalr && !g.wbWe && g.aluSrc2
    requires StoreValue(s.mem, P.GetFunct3(w), SrcB(s, w), Alu.ALU(g.aluOp, SrcA(s, w), P.ImmediateExtensionBlock(w)))
          == Some(mem)
    ensures Step(s) == Continue(s, w, Add(s.pc, 4), s.regFile, mem)
  {
    hide Aligned, Add, Read, P.ImmediateExtensionBlock, ControlOf, Alu.ALU, Alu.Cmp, P.GetRd, P.GetRs1, P.GetRs2,
         P.GetFunct3, SourceA, GetWord, StoreValue, ClearBitZero;
  }

  // ----- instruction by instruction -----

  function ToAlu(op: ArithOp): Alu.ALUControl {
    match op
    case ADD => Alu.ALUControl.ADD
    case SUB => Alu.ALUControl.SUB
    case SLL => Alu.ALUControl.SLL
    case SLT => Alu.ALUControl.SLT
    case SLTU => Alu.ALUControl.SLTU
    case XOR => Alu.ALUControl.XOR
    case SRL => Alu.ALUControl.SRL
    case SRA => Alu.ALUControl.SRA
    case OR => Alu.ALUControl.OR
    case AND => Alu.ALUControl.AND
  }

  function ToCmp(op: BranchOp): Alu.CmpControl {
    match op
    case BEQ => Alu.CmpControl.EQ
    case BNE => Alu.CmpControl.NE
    case BLT => Alu.CmpControl.LT
    case BGE => Alu.CmpControl.GE
    case BLTU => Alu.CmpControl.LTU
    case BGEU => Alu.CmpControl.GEU
  }

  lemma ArithAgrees(op: ArithOp, a: Word, b: Word)
    ensures Alu.ALU(ToAlu(op), a, b) == Arith(op, a, b)
  {
    hide ShiftLeft, ShiftRight, ShiftRightArithmetic, SignedLess, Below, Add, Sub, And, Or, Xor;
  }

  lemma CompareAgrees(op: BranchOp, a: Word, b: Word)
    ensures Alu.Cmp(ToCmp(op), a, b) == Condition(op, a, b)
  {
    hide SignedLess, Below;
  }

  lemma OpSignals(w: Word)
    requires Decode(w).Op?
    ensures ControlOf(w)
         == Accept(Signals(false, true, false, false, false, false, Alu.CmpControl.NOP, false, ToAlu(Decode(w).op)))
    ensures P.GetInstructionType(P.GetOpcode(w)) == P.RType && Decode(w) == Op(Decode(w).op, Rd(w), Rs1(w), Rs2(w))
    ensures forall a, pc :: SourceA(w, pc, a) == a
  {
    hide P.GetRd, P.GetRs1, P.GetRs2, P.GetFunct3, P.GetFunct7, P.GetOpcode, Rd, Rs1, Rs2, Funct3, Funct7, Opcode,
         ImmI, ImmS, ImmB, ImmU, ImmJ;
    FieldsAgree(w);
  }

  lemma OpImmSignals(w: Word)
    requires Decode(w).OpImm?
    ensures ControlOf(w)
         == Accept(Signals(false, true, false, false, false, false, Alu.CmpControl.NOP, true, ToAlu(Decode(w).op)))
    ensures P.GetInstructionType(P.GetOpcode(w)) == P.IType && Decode(w) == OpImm(Decode(w).op, Rd(w), Rs1(w), ImmI(w))
    ensures forall a, pc :: SourceA(w, pc, a) == a
  {
    hide P.GetRd, P.GetRs1, P.GetRs2, P.GetFunct3, P.GetFunct7, P.GetOpcode, Rd, Rs1, Rs2, Funct3, Funct7, Opcode,
         ImmI, ImmS, ImmB, ImmU, ImmJ;
    FieldsAgree(w);
  }

  lemma UpperSignals(w: Word)
    requires Decode(w).Lui? || Decode(w).Auipc?
    ensures ControlOf(w)
         == Accept(Signals(false, true, false, false, false, false, Alu.CmpControl.NOP, true, Alu.ALUControl.ADD))
    ensures P.GetInstructionType(P.GetOpcode(w)) == P.UType
    ensures Decode(w) == if Decode(w).Lui? then Lui(Rd(w), ImmU(w)) else Auipc(Rd(w), ImmU(w))
    ensures forall a, pc :: SourceA(w, pc, a) == if Decode(w).Lui? then 0 else pc
  {
    hide P.GetRd, P.GetRs1, P.GetRs2, P.GetFunct3, P.GetFunct7, P.GetOpcode, Rd, Rs1, Rs2, Funct3, Funct7, Opcode,
         ImmI, ImmS, ImmB, ImmU, ImmJ;
    FieldsAgree(w);
  }

  lemma JalSignals(w: Word)
    requires Decode(w).Jal?
    ensures ControlOf(w)
         == Accept(Signals(false, true, false, false, false, true, Alu.CmpControl.NOP, false, Alu.ALUControl.NOP))
    ensures P.GetInstructionType(P.GetOpcode(w)) == P.JType && Decode(w) == Jal(Rd(w), ImmJ(w))
  {
    hide P.GetRd, P.GetRs1, P.GetRs2, P.GetFunct3, P.GetFunct7, P.GetOpcode, Rd, Rs1, Rs2, Funct3, Funct7, Opcode,
         ImmI, ImmS, ImmB, ImmU, ImmJ;
    FieldsAgree(w);
  }

  lemma JalrSignals(w: Word)
    requires Decode(w).Jalr?
    ensures ControlOf(w)
         == Accept(Signals(true, true, false, false, false, true, Alu.CmpControl.NOP, true, Alu.ALUControl.ADD))
    ensures P.GetInstructionType(P.GetOpcode(w)) == P.IType && Decode(w) == Jalr(Rd(w), Rs1(w), ImmI(w))
    ensures forall a, pc :: SourceA(w, pc, a) == a
  {
    hide P.GetRd, P.GetRs1, P.GetRs2, P.GetFunct3, P.GetFunct7, P.GetOpcode, Rd, Rs1, Rs2, Funct3, Funct7, Opcode,
         ImmI, ImmS, ImmB, ImmU, ImmJ;
    FieldsAgree(w);
  }

  lemma BranchSignals(w: Word)
    requires Decode(w).Branch?
    ensures ControlOf(w)
         == Accept(Signals(false, false, false, false, true, false, ToCmp(Decode(w).branchOp), false,
           Alu.ALUControl.NOP))
    ensures P.GetInstructionType(P.GetOpcode(w)) == P.BType
    ensures Decode(w) == Branch(Decode(w).branchOp, Rs1(w), Rs2(w), ImmB(w))
    ensures forall a, pc :: SourceA(w, pc, a) == a
  {
    hide P.GetRd, P.GetRs1, P.GetRs2, P.GetFunct3, P.GetFunct7, P.GetOpcode, Rd, Rs1, Rs2, Funct3, Funct7, Opcode,
         ImmI, ImmS, ImmB, ImmU, ImmJ;
    FieldsAgree(w);
  }

  lemma LoadSignals(w: Word)
    requires Decode(w).Load?
    ensures ControlOf(w)
         == Accept(Signals(false, true, false, true, false, false, Alu.CmpControl.NOP, true, Alu.ALUControl.ADD))
    ensures P.GetInstructionType(P.GetOpcode(w)) == P.IType && DecodeLoad(P.GetFunct3(w)).Some?
    ensures Decode(w) == Load(DecodeLoad(P.GetFunct3(w)).value, Rd(w), Rs1(w), ImmI(w))
    ensures forall a, pc :: SourceA(w, pc, a) == a
  {
    hide P.GetRd, P.GetRs1, P.GetRs2, P.GetFunct3, P.GetFunct7, P.GetOpcode, Rd, Rs1, Rs2, Funct3, Funct7, Opcode,
         ImmI, ImmS, ImmB, ImmU, ImmJ;
    FieldsAgree(w);
  }

  lemma StoreSignals(w: Word)
    requires Decode(w).Store?
    ensures ControlOf(w)
         == Accept(Signals(false, false, true, false, false, false, Alu.CmpControl.NOP, true, Alu.ALUControl.ADD))
    ensures P.GetInstructionType(P.GetOpcode(w)) == P.SType && DecodeStore(P.GetFunct3(w)).Some?
    ensures Decode(w) == Store(DecodeStore(P.GetFunct3(w)).value, Rs1(w), Rs2(w), ImmS(w))
    ensures forall a, pc :: SourceA(w, pc, a) == a
  {
    hide P.GetRd, P.GetRs1, P.GetRs2, P.GetFunct3, P.GetFunct7, P.GetOpcode, Rd, Rs1, Rs2, Funct3, Funct7, Opcode,
         ImmI, ImmS, ImmB, ImmU, ImmJ;
    FieldsAgree(w);
  }

  lemma FenceSignals(w: Word)
    requires Decode(w).Fence?
    ensures ControlOf(w)
         == Accept(Signals(false, true, false, false, false, false, Alu.CmpControl.NOP, false, Alu.ALUControl.NOP))
  {
    hide P.GetRd, P.GetRs1, P.GetRs2, P.GetFunct3, P.GetFunct7, P.GetOpcode, Rd, Rs1, Rs2, Funct3, Funct7, Opcode,
         ImmI, ImmS, ImmB, ImmU, ImmJ;
    FieldsAgree(w);
  }

  lemma AluAdds(a: Word, b: Word)
    ensures Alu.ALU(Alu.ALUControl.ADD, a, b) == Add(a, b) && Add(0, b) == b
  {
  }

  lemma OpAgrees(s: Arch)
    requires Decode(Fetch(s)).Op?
    ensures Step(s) == IsaStep(s)
  {
    hide Step, Continue;
    var w := Fetch(s);
    FieldsAgree(w);
    ImmediatesAgree(w);
    OpSignals(w);
    PlainStep(s, w, ControlOf(w).signals);
    ArithAgrees(Decode(w).op, Read(s.regFile, Rs1(w)), Read(s.regFile, Rs2(w)));
  }

  lemma OpImmAgrees(s: Arch)
    requires Decode(Fetch(s)).OpImm?
    ensures Step(s) == IsaStep(s)
  {
    hide Step, Continue, Decode;
    var w := Fetch(s);
    FieldsAgree(w);
    ImmediatesAgree(w);
    OpImmSignals(w);
    PlainStep(s, w, ControlOf(w).signals);
    ArithAgrees(Decode(w).op, Read(s.regFile, Rs1(w)), ImmI(w));
  }

  lemma UpperAgrees(s: Arch)
    requires Decode(Fetch(s)).Lui? || Decode(Fetch(s)).Auipc?
    ensures Step(s) == IsaStep(s)
  {
    var w := Fetch(s);
    FieldsAgree(w);
    ImmediatesAgree(w);
    UpperSignals(w);
    PlainStep(s, w, ControlOf(w).signals);
    AluAdds(SrcA(s, w), ImmU(w));
  }

  lemma JalAgrees(s: Arch)
    requires Decode(Fetch(s)).Jal?
    ensures Step(s) == IsaStep(s)
  {
    hide DecodeLoad, DecodeStore;
    var w := Fetch(s);
    FieldsAgree(w);
    ImmediatesAgree(w);
    JalSignals(w);
    JumpStep(s, w, ControlOf(w).signals);
  }

  lemma JalrAgrees(s: Arch)
    requires Decode(Fetch(s)).Jalr?
    ensures Step(s) == IsaStep(s)
  {
    hide Decode, ControlOf, SourceA;
    var w := Fetch(s);
    FieldsAgree(w);
    ImmediatesAgree(w);
    JalrSignals(w);
    JumpStep(s, w, ControlOf(w).signals);
    AluAdds(SrcA(s, w), ImmI(w));
    AluAdds(0, ClearBitZero(Add(SrcA(s, w), ImmI(w))));
  }

  lemma BranchAgrees(s: Arch)
    requires Decode(Fetch(s)).Branch?
    ensures Step(s) == IsaStep(s)
  {
    hide Step, ControlOf;
    var w := Fetch(s);
    FieldsAgree(w);
    ImmediatesAgree(w);
    BranchSignals(w);
    BranchStep(s, w, ControlOf(w).signals);
    CompareAgrees(Decode(w).branchOp, Read(s.regFile, Rs1(w)), Read(s.regFile, Rs2(w)));
  }

  lemma LoadValues(b: Bytes, mode: bv3, a: Word)
    requires DecodeLoad(mode).Some?
    ensures GetData(b, mode, a) == Some(LoadValue(DecodeLoad(mode).value, b, a))
  {
    hide GetByte, GetHalf, GetWord, SignExtendFromByte, SignExtendFromByte2, SignExtend8, SignExtend16, ZeroExtend8,
         ZeroExtend16;
    SignExtends(GetByte(b, a), GetHalf(b, a));
  }

  /** The or-masks of common.h are sign extension. */
  lemma SignExtends(b: bv8, h: bv16)
    ensures SignExtendFromByte(b) == SignExtend8(b) && SignExtendFromByte2(h) == SignExtend16(h)
  {
  }

  lemma LoadAgrees(s: Arch)
    requires Decode(Fetch(s)).Load?
    ensures Step(s) == IsaStep(s)
  {
    hide Arith, Condition, LoadValue, ControlOf, DecodeLoad;
    var w := Fetch(s);
    FieldsAgree(w);
    ImmediatesAgree(w);
    LoadSignals(w);
    AluAdds(SrcA(s, w), ImmI(w));
    LoadValues(s.mem.bytes, P.GetFunct3(w), Add(SrcA(s, w), ImmI(w)));
    LoadStep(s, w, ControlOf(w).signals, LoadValue(Decode(w).loadOp, s.mem.bytes, Add(SrcA(s, w), ImmI(w))));
  }

  lemma StoreValues(m: Mem, mode: bv3, value: Word, a: Word)
    requires DecodeStore(mode).Some?
    ensures StoreValue(m, mode, value, a) == Some(StoreTo(DecodeStore(mode).value, m, value, a))
  {
    hide SetByte, SetHalf, SetWord;
  }

  lemma StoreAgrees(s: Arch)
    requires Decode(Fetch(s)).Store?
    ensures Step(s) == IsaStep(s)
  {
    hide StoreTo, StoreValue, Decode, ControlOf, SourceA;
    var w := Fetch(s);
    FieldsAgree(w);
    ImmediatesAgree(w);
    StoreSignals(w);
    AluAdds(SrcA(s, w), ImmS(w));
    StoreValues(s.mem, P.GetFunct3(w), SrcB(s, w), Add(SrcA(s, w), ImmS(w)));
    StoreStep(s, w, ControlOf(w).signals, StoreTo(Decode(w).storeOp, s.mem, SrcB(s, w), Add(SrcA(s, w), ImmS(w))));
  }

  /** FENCE goes through the pipeline as an unknown opcode with its write-back enabled. */
  lemma FenceWritesZero(s: Arch)
    requires Decode(Fetch(s)).Fence?
    ensures Step(s) == Continue(s, Fetch(s), Add(s.pc, 4), Write(s.regFile, true, Rd(Fetch(s)), 0), s.mem)
    ensures IsaStep(s) == Continue(s, Fetch(s), Add(s.pc, 4), s.regFile, s.mem)
  {
    hide Aligned, Add, Read, Write, P.ImmediateExtensionBlock, Alu.Cmp, P.GetRd, P.GetRs1, P.GetRs2, P.GetFunct3,
         P.GetFunct7, P.GetOpcode, P.GetInstructionType, Rd, GetWord, Step, Continue, Decode, ControlOf, SourceA;
    var w := Fetch(s);
    FieldsAgree(w);
    FenceSignals(w);
    PlainStep(s, w, ControlOf(w).signals);
  }

  lemma SystemWords()
    ensures ControlOf(0x73) == Reject(Ecall) && ControlOf(0x10_0073) == Reject(Ebreak)
    ensures Decode(0x73) == EnvironmentCall && Decode(0x10_0073) == EnvironmentBreak
  {
  }

  lemma SystemDecode(w: Word)
    ensures Decode(w).EnvironmentCall? ==> w == 0x73
    ensures Decode(w).EnvironmentBreak? ==> w == 0x10_0073
  {
    hide Opcode, Rd, Rs1, Rs2, Funct3, Funct7, ImmI, ImmS, ImmB, ImmU, ImmJ, DecodeBranch, DecodeLoad, DecodeStore,
         DecodeOp, DecodeOpImm;
  }

  /** Registers, memory and traces after a write that happened, or did not. */
  lemma WriteShows(rf: RegFile, rd: RegIdx)
    ensures Write(rf, true, rd, 0) == rf <==> rd == 0
  {
    if rd != 0 {
      assert |Write(rf, true, rd, 0).trace| == |rf.trace| + 1;
    }
  }

  /** The unpipelined datapath is RV32I on every legal word, except that FENCE clears its rd field's
      register: the two agree exactly when the word is not a FENCE with rd other than x0. */
  lemma DatapathIsIsa(s: Arch)
    requires Legal(Fetch(s)) && Aligned(s.pc)
    ensures Step(s) == IsaStep(s) <==> !(Decode(Fetch(s)).Fence? && Rd(Fetch(s)) != 0)
  {
    AlignedNext(s.pc);
    hide Step, IsaStep, Decode, GetWord, Aligned, Add, Read, Write, Rd, ControlOf;
    var w := Fetch(s);
    match Decode(w)
    case Op(_, _, _, _) => OpAgrees(s);
    case OpImm(_, _, _, _) => OpImmAgrees(s);
    case Lui(_, _) => UpperAgrees(s);
    case Auipc(_, _) => UpperAgrees(s);
    case Jal(_, _) => JalAgrees(s);
    case Jalr(_, _, _) => JalrAgrees(s);
    case Branch(_, _, _, _) => BranchAgrees(s);
    case Load(_, _, _, _) => LoadAgrees(s);
    case Store(_, _, _, _) => StoreAgrees(s);
    case Fence =>
      FenceWritesZero(s);
      WriteShows(s.regFile, Rd(w));
    case EnvironmentCall => SystemAgrees(s);
    case EnvironmentBreak => SystemAgrees(s);
  }

  lemma SystemAgrees(s: Arch)
    requires Decode(Fetch(s)).EnvironmentCall? || Decode(Fetch(s)).EnvironmentBreak?
    ensures Step(s) == IsaStep(s)
  {
    hide Decode, GetWord, ControlOf;
    SystemDecode(Fetch(s));
    SystemWords();
  }
}
