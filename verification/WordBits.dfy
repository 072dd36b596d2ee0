/** What the bits of a word decide: the ticks that it costs, whether the pipeline rejects it, what it does with a word
    that is no instruction, and when the interpreter terminates. */
module WordBits {
  import opened Words
  import opened Memory
  import opened RegisterFile
  import opened ControlSignals
  import opened Datapath
  import opened Stages
  import opened InstructionSet
  import P = PipelineInstruction
  import DecoderAgreement
  import InstructionMeaning
  import opened Interpreter
  import F = FunctionalInstruction
  import PipelineStep
  import Alu

  /** Bits 6:0, 19:15, 24:20 and 11:7 of a word. */
  function OpcodeBits(w: Word): Word { w & 0x7f }

  function Rs1Bits(w: Word): Word { (w >> 15) & 0x1f }

  function Rs2Bits(w: Word): Word { (w >> 20) & 0x1f }

  function RdBits(w: Word): Word { (w >> 7) & 0x1f }

  function Funct3Bits(w: Word): Word { (w >> 12) & 0x7 }

  function Funct7Bits(w: Word): Word { w >> 25 }

  lemma RegisterBits(w: Word, rd: RegIdx)
    ensures P.GetRs1(w) == rd <==> Rs1Bits(w) == rd as Word
    ensures P.GetRs2(w) == rd <==> Rs2Bits(w) == rd as Word
    ensures P.GetRd(w) == rd <==> RdBits(w) == rd as Word
  {
  }

  lemma OpcodeIs(w: Word, opcode: bv7)
    ensures P.GetOpcode(w) == opcode <==> OpcodeBits(w) == opcode as Word
  {
  }

  /** The opcodes whose words have an rs1 field for the hazard unit: all but LUI, AUIPC and JAL. */
  lemma Rs1Opcodes(opcode: bv7)
    ensures P.HasRs1(P.GetInstructionType(opcode)) <==> opcode != 0x37 && opcode != 0x17 && opcode != 0x6f
  {
  }

  /** And an rs2 field: the register, branch and store opcodes, but also all those with an I-immediate there. */
  lemma Rs2Opcodes(opcode: bv7)
    ensures P.HasRs2(P.GetInstructionType(opcode)) <==>
            opcode == 0x33 || opcode == 0x03 || opcode == 0x13 || opcode == 0x73 || opcode == 0x67 ||
            opcode == 0x23 || opcode == 0x63
  {
  }

  /** The words that really take an operand from rs1, and from rs2: no immediate stands there. */
  lemma UsesMeans(w: Word)
    ensures var opcode := OpcodeBits(w);
      (UsesRs1(w) <==> opcode == 0x33 || opcode == 0x03 || opcode == 0x13 || opcode == 0x73 || opcode == 0x67 ||
                       opcode == 0x23 || opcode == 0x63) &&
      (UsesRs2(w) <==> opcode == 0x33 || opcode == 0x23 || opcode == 0x63)
  {
  }

  /** The dependence on a load into rd that makes the pipeline halt for a tick. */
  lemma LoadConflictMeans(w: Word, rd: RegIdx)
    ensures var opcode := OpcodeBits(w);
      LoadConflict(w, rd) <==>
        rd != 0 &&
        ((Rs1Bits(w) == rd as Word && opcode != 0x37 && opcode != 0x17 && opcode != 0x6f) ||
         (Rs2Bits(w) == rd as Word &&
          (opcode == 0x33 || opcode == 0x03 || opcode == 0x13 || opcode == 0x73 || opcode == 0x67 || opcode == 0x23 ||
           opcode == 0x63)))
  {
    hide P.GetRs1, P.GetRs2, P.GetOpcode, P.GetInstructionType, P.HasRs1, P.HasRs2, Rs1Bits, Rs2Bits, OpcodeBits;
    RegisterBits(w, rd);
    Rs1Opcodes(P.GetOpcode(w));
    Rs2Opcodes(P.GetOpcode(w));
    OpcodeIs(w, 0x37);
    OpcodeIs(w, 0x17);
    OpcodeIs(w, 0x6f);
    OpcodeIs(w, 0x33);
    OpcodeIs(w, 0x03);
    OpcodeIs(w, 0x13);
    OpcodeIs(w, 0x73);
    OpcodeIs(w, 0x67);
    OpcodeIs(w, 0x23);
    OpcodeIs(w, 0x63);
  }

  /** The next word depends on the load at s, which costs one more tick. An immediate in the rs2 field counts. */
  lemma StallsMeans(s: Arch)
    requires Step(s).Next?
    ensures var w, next := Fetch(s), Fetch(Step(s).arch); var opcode, rd := OpcodeBits(next), RdBits(w);
      Stalls(s) <==>
        OpcodeBits(w) == 0x03 && Accepted(next) && rd != 0 &&
        ((Rs1Bits(next) == rd && opcode != 0x37 && opcode != 0x17 && opcode != 0x6f) ||
         (Rs2Bits(next) == rd &&
          (opcode == 0x33 || opcode == 0x03 || opcode == 0x13 || opcode == 0x73 || opcode == 0x67 || opcode == 0x23 ||
           opcode == 0x63)))
  {
    hide Step, GetWord, ControlOf, LoadConflict, P.GetOpcode, P.GetRd, OpcodeBits, RdBits, Rs1Bits, Rs2Bits;
    var w := Fetch(s);
    LoadConflictMeans(Fetch(Step(s).arch), P.GetRd(w));
    OpcodeIs(w, 0x03);
    RegisterBits(w, P.GetRd(w));
    RegisterBits(w, 0);
  }

  /** What makes the execute stage redirect. */
  lemma RedirectMeans(s: Arch, g: Signals)
    requires ControlOf(Fetch(s)) == Accept(g)
    ensures Taken(s) <==> g.jmpCond || (g.brnCond && Alu.Cmp(g.cmpControl, DecoderAgreement.SrcA(s, Fetch(s)),
                                                             DecoderAgreement.SrcB(s, Fetch(s))))
  {
    hide ControlOf, GetWord, Read, SourceA, Alu.ALU, Alu.Cmp, P.ImmediateExtensionBlock, Add, ClearBitZero, P.GetRd,
         P.GetRs1, P.GetRs2, P.GetFunct3;
  }

  /** Every other legal word goes straight on. */
  lemma StraightOn(s: Arch)
    requires var i := Decode(Fetch(s)); i != Illegal && !i.Jal? && !i.Jalr? && !i.Branch?
    ensures !Taken(s)
  {
    hide ControlOf, Decode, GetWord, Read, SourceA, Alu.Cmp, ExecuteOf, DecoderAgreement.SrcA, DecoderAgreement.SrcB;
    var w := Fetch(s);
    if ControlOf(w).Accept? {
      RedirectMeans(s, ControlOf(w).signals);
    }
    match Decode(w)
    case Lui(_, _) => DecoderAgreement.UpperSignals(w);
    case Auipc(_, _) => DecoderAgreement.UpperSignals(w);
    case Load(_, _, _, _) => DecoderAgreement.LoadSignals(w);
    case Store(_, _, _, _) => DecoderAgreement.StoreSignals(w);
    case OpImm(_, _, _, _) => DecoderAgreement.OpImmSignals(w);
    case Op(_, _, _, _) => DecoderAgreement.OpSignals(w);
    case Fence => DecoderAgreement.FenceSignals(w);
    case _ =>
      DecoderAgreement.SystemDecode(w);
      DecoderAgreement.SystemWords();
  }

  /** An instruction costs two more ticks when it is a jump or a branch whose condition holds. */
  lemma TakenMeans(s: Arch)
    requires Legal(Fetch(s))
    ensures var i := Decode(Fetch(s));
      Taken(s) <==>
      i.Jal? || i.Jalr? ||
      (i.Branch? && InstructionMeaning.ConditionIs(i.branchOp, Read(s.regFile, i.rs1), Read(s.regFile, i.rs2)))
  {
    hide ControlOf, Decode, GetWord, Read, SourceA, Alu.Cmp, Taken, InstructionMeaning.ConditionIs, Rs1, Rs2,
         P.GetRs1, P.GetRs2;
    var w := Fetch(s);
    var i := Decode(w);
    if i.Jal? {
      DecoderAgreement.JalSignals(w);
      RedirectMeans(s, ControlOf(w).signals);
    } else if i.Jalr? {
      DecoderAgreement.JalrSignals(w);
      RedirectMeans(s, ControlOf(w).signals);
    } else if i.Branch? {
      DecoderAgreement.BranchSignals(w);
      DecoderAgreement.FieldsAgree(w);
      RedirectMeans(s, ControlOf(w).signals);
      InstructionMeaning.CmpMeans(i.branchOp, Read(s.regFile, i.rs1), Read(s.regFile, i.rs2));
    } else {
      StraightOn(s);
    }
  }

  /** The words that the decoder rejects, and why. */
  lemma RejectedMeans(w: Word)
    ensures var opcode, funct3, funct7 := OpcodeBits(w), Funct3Bits(w), Funct7Bits(w);
      ControlOf(w).Reject? <==>
        opcode == 0x73 ||
        (opcode == 0x33 && (funct3 == 0 || funct3 == 5) && funct7 != 0 && funct7 != 0x20) ||
        (opcode == 0x13 && ((funct3 == 1 && funct7 != 0) || (funct3 == 5 && funct7 != 0 && funct7 != 0x20))) ||
        (opcode == 0x63 && (funct3 == 2 || funct3 == 3))
    ensures ControlOf(w).Reject? ==>
      ControlOf(w).cause == if OpcodeBits(w) == 0x73 && Rs2Bits(w) == 0 then Ecall
                            else if OpcodeBits(w) == 0x73 && Rs2Bits(w) == 1 then Ebreak
                            else InvalidInstruction
  {
  }

  /** The opcodes that the control unit knows. */
  predicate Known(opcode: Word) {
    opcode == 0x33 || opcode == 0x23 || opcode == 0x63 || opcode == 0x03 || opcode == 0x13 || opcode == 0x73 ||
    opcode == 0x67 || opcode == 0x37 || opcode == 0x17 || opcode == 0x6f
  }

  lemma UnknownSignals(w: Word)
    requires !Known(OpcodeBits(w))
    ensures ControlOf(w)
         == Accept(Signals(false, true, false, false, false, false, Alu.CmpControl.NOP, false, Alu.ALUControl.NOP))
  {
    hide P.GetRs2, P.GetFunct3, P.GetFunct7, OpAlu, OpImmAlu, BranchCmp;
  }

  /** Any other word is accepted, writes 0 to the register in its rd field and goes on. */
  lemma UnknownWritesZero(s: Arch)
    requires !Known(OpcodeBits(Fetch(s)))
    ensures Step(s) == Continue(s, Fetch(s), Add(s.pc, 4), Write(s.regFile, true, Rd(Fetch(s)), 0), s.mem)
  {
    hide Aligned, Add, Read, Write, P.ImmediateExtensionBlock, Alu.Cmp, P.GetRd, P.GetRs1, P.GetRs2, P.GetFunct3,
         P.GetFunct7, P.GetOpcode, P.GetInstructionType, Rd, GetWord, Step, Continue, ControlOf, SourceA, Known;
    var w := Fetch(s);
    DecoderAgreement.FieldsAgree(w);
    UnknownSignals(w);
    DecoderAgreement.PlainStep(s, w, ControlOf(w).signals);
  }

  // ----- the reference -----

  /** The instructions of RV32I: the opcodes with their funct3 and funct7, and the two system words. */
  lemma LegalMeans(w: Word)
    ensures var opcode, funct3, funct7 := OpcodeBits(w), Funct3Bits(w), Funct7Bits(w);
      Legal(w) <==>
        opcode == 0x37 || opcode == 0x17 || opcode == 0x6f ||
        ((opcode == 0x67 || opcode == 0x0f) && funct3 == 0) ||
        (opcode == 0x63 && funct3 != 2 && funct3 != 3) ||
        (opcode == 0x03 && funct3 != 3 && funct3 < 6) ||
        (opcode == 0x23 && funct3 < 3) ||
        (opcode == 0x13 && (funct3 == 1 ==> funct7 == 0) && (funct3 == 5 ==> funct7 == 0 || funct7 == 0x20)) ||
        (opcode == 0x33 && (funct7 == 0 || (funct7 == 0x20 && (funct3 == 0 || funct3 == 5)))) ||
        w == 0x0000_0073 || w == 0x0010_0073
  {
    hide ImmI, ImmS, ImmB, ImmU, ImmJ, Rd, Rs1, Rs2;
  }

  // ----- the interpreter -----

  /** The words on which the interpreter terminates the process: an unknown opcode, or an unknown funct3 of a branch,
      load or store. */
  predicate Terminating(w: Word) {
    var opcode, funct3 := OpcodeBits(w), Funct3Bits(w);
    (!Known(opcode) && opcode != 0x0f) || (opcode == 0x63 && (funct3 == 2 || funct3 == 3)) ||
    (opcode == 0x03 && (funct3 == 3 || funct3 == 6 || funct3 == 7)) || (opcode == 0x23 && funct3 >= 3)
  }

  lemma DecoderTerminates(w: Word)
    ensures F.SwitchDecoder(w) == None || F.SwitchDecoder(w) == Some(F.UNKNOWN) <==> Terminating(w)
    ensures F.SwitchDecoder(w) == None <==> !Known(OpcodeBits(w)) && OpcodeBits(w) != 0x0f
  {
  }

  /** Beside the opcode, the decoder looks at funct3 of branches, loads, stores and arithmetic, at bit 30 of sums of
      registers and of right shifts, and at bit 20 of system words. */
  lemma NamesDependOn(v: Word, w: Word)
    requires OpcodeBits(v) == OpcodeBits(w)
    requires var opcode := OpcodeBits(w);
      opcode == 0x63 || opcode == 0x03 || opcode == 0x23 || opcode == 0x13 || opcode == 0x33 ==>
        Funct3Bits(v) == Funct3Bits(w)
    requires var opcode, funct3 := OpcodeBits(w), Funct3Bits(w);
      (opcode == 0x33 && funct3 == 0) || ((opcode == 0x33 || opcode == 0x13) && funct3 == 5) ==>
        v & 0x4000_0000 == w & 0x4000_0000
    requires OpcodeBits(w) == 0x73 ==> v & 0x10_0000 == w & 0x10_0000
    ensures F.SwitchDecoder(v) == F.SwitchDecoder(w)
  {
  }

  /** The legal word that the decoder takes w for. */
  function Twin(w: Word): Word {
    var opcode, funct3 := OpcodeBits(w), Funct3Bits(w);
    if (opcode == 0x33 && funct3 == 0) || ((opcode == 0x33 || opcode == 0x13) && funct3 == 5) then w & 0x41ff_ffff
    else if opcode == 0x33 || (opcode == 0x13 && funct3 == 1) then w & 0x01ff_ffff
    else if opcode == 0x67 || opcode == 0x0f then w & 0xffff_8fff
    else if opcode == 0x73 then w & 0x0010_007f
    else w
  }

  lemma TwinBits(w: Word)
    ensures OpcodeBits(Twin(w)) == OpcodeBits(w)
    ensures OpcodeBits(w) != 0x67 && OpcodeBits(w) != 0x0f && OpcodeBits(w) != 0x73 ==>
      Funct3Bits(Twin(w)) == Funct3Bits(w)
    ensures OpcodeBits(w) != 0x73 ==> RdBits(Twin(w)) == RdBits(w) && Rs1Bits(Twin(w)) == Rs1Bits(w)
    ensures OpcodeBits(w) == 0x33 ==> Rs2Bits(Twin(w)) == Rs2Bits(w)
  {
  }

  lemma TwinIsLegal(w: Word)
    requires !Terminating(w)
    ensures Legal(Twin(w))
  {
    hide ImmI, ImmS, ImmB, ImmU, ImmJ, Rd, Rs1, Rs2;
  }

  /** Every word that does not terminate the interpreter has the name of a legal word with the same registers. */
  lemma NamedAsTwin(w: Word)
    requires !Terminating(w)
    ensures Legal(Twin(w)) && F.SwitchDecoder(w) == F.SwitchDecoder(Twin(w))
  {
    TwinIsLegal(w);
    TwinBits(w);
    NamesDependOn(w, Twin(w));
    hide F.SwitchDecoder, Terminating, Decode;
  }

  lemma HandlerTerminates(name: F.RV32I, raw: Word, s: Arch)
    ensures Handle(name, raw, s) == Terminates <==> name == F.UNKNOWN
  {
    hide WriteReg, Read, Add, ClearBitZero, F.GetRs1, F.GetRs2, F.GetRd, Computed, Loaded, Stored, BranchTaken,
         F.TypeIImm, F.TypeSImm, F.TypeBImm, F.TypeUImm, F.TypeJImm;
  }

  /** The interpreter terminates exactly on these words. */
  lemma RoundTerminates(s: Arch)
    ensures Round(s) == Terminates <==> Terminating(Fetch(s))
  {
    hide Handle, F.SwitchDecoder, GetWord, Terminating;
    var w := Fetch(s);
    DecoderTerminates(w);
    if F.SwitchDecoder(w).Some? {
      HandlerTerminates(F.SwitchDecoder(w).value, w, s.(execTrace := s.execTrace + [PipelineStep.ExecEvent(w, s.pc)]));
    }
  }
}
