/** Concrete programs on which the code departs from RV32I, at least one for each condition of Benign and of
    Faithful. All start at 0x100 with every register zero unless stated otherwise. */
module Counterexamples {
  import opened Words
  import opened Memory
  import opened MemoryCoherence
  import opened RegisterFile
  import opened ControlSignals
  import opened PipelineStep
  import opened Datapath
  import opened Simulation
  import opened Runs
  import opened Limits
  import opened InstructionSet
  import P = PipelineInstruction
  import Refinement
  import CoSimulation
  import DecoderAgreement
  import InterpreterAgreement
  import Interpreter
  import TraceFormat
  import Alu
  import opened Stages
  import opened Integers
  import opened InstructionMeaning
  import StepMeaning

  /** Three words of code and nothing else. */
  function Code(w0: Word, w1: Word, w2: Word): Bytes {
    PutWord(PutWord(PutWord(map[], w2, 0x108), w1, 0x104), w0, 0x100)
  }

  function ProgramOf(w0: Word, w1: Word, w2: Word): Arch {
    Arch(0x100, CLEAR, Mem(Code(w0, w1, w2), []), [])
  }

  lemma FourAndEight()
    ensures Add(0x100, 4) == 0x104 && Add(0x104, 4) == 0x108 && Aligned(0x100) && Aligned(0x104) && Aligned(0x108)
    ensures Outside(0x104, 0x100) && Outside(Add(0x104, 1), 0x100)
    ensures Outside(Add(0x104, 2), 0x100) && Outside(Add(0x104, 3), 0x100)
    ensures Outside(0x108, 0x100) && Outside(Add(0x108, 1), 0x100)
    ensures Outside(Add(0x108, 2), 0x100) && Outside(Add(0x108, 3), 0x100)
    ensures Outside(0x108, 0x104) && Outside(Add(0x108, 1), 0x104)
    ensures Outside(Add(0x108, 2), 0x104) && Outside(Add(0x108, 3), 0x104)
  {
  }

  lemma CodeAt(w0: Word, w1: Word, w2: Word)
    ensures var b := Code(w0, w1, w2); GetWord(b, 0x100) == w0 && GetWord(b, 0x104) == w1 && GetWord(b, 0x108) == w2
  {
    FourAndEight();
    hide GetWord, PutWord, Add, Outside, Aligned;
    var b2 := PutWord(map[], w2, 0x108);
    var b1 := PutWord(b2, w1, 0x104);
    WordRoundTrip(map[], w2, 0x108);
    WordRoundTrip(b2, w1, 0x104);
    WordRoundTrip(b1, w0, 0x100);
    WordKeeps(b2, w1, 0x104, 0x108);
    WordKeeps(b1, w0, 0x100, 0x108);
    WordKeeps(b1, w0, 0x100, 0x104);
  }

  lemma Zeros(r: RegIdx)
    ensures Read(CLEAR, r) == 0
  {
  }

  // ----- the pipeline -----

  lemma JumpWord()
    ensures Decode(0x0080_006f) == Jal(0, 8) && ControlOf(0x0080_006f).Accept? && Add(0x100, 8) == 0x108
  {
  }

  /** jal x0,8; ecall; nop: the program jumps over the ECALL, the pipeline stops at it. */
  lemma JumpOverEcall() returns (s: Arch)
    ensures s == ProgramOf(0x0080_006f, 0x73, 0x13)
    ensures Ready(s) && Step(s).Next? && Step(s).arch.pc == 0x108 && Fetch(Step(s).arch) == 0x13
    ensures Ticks(StartOf(s), 3).Stopped? && Ticks(StartOf(s), 3).cause == Ecall
    ensures !StopsAt(Ticks(StartOf(s), 3), Step(s).arch, 2)
  {
    hide Add, Aligned, Read, GetWord, Code, CLEAR, Step, Decode, ControlOf, StopsAt, Ticks, StartOf;
    s := ProgramOf(0x0080_006f, 0x73, 0x13);
    CodeAt(0x0080_006f, 0x73, 0x13);
    FourAndEight();
    Zeros(0);
    JumpWord();
    JumpStep(s);
    DecoderAgreement.SystemWords();
    RejectedInShadow(s);
  }

  lemma DataWord()
    ensures ControlOf(0x0200_0033) == Reject(InvalidInstruction)
  {
  }

  /** jal x0,8; 0x02000033; nop: the program jumps over data, the pipeline raises on them. */
  lemma JumpOverData() returns (s: Arch)
    ensures s == ProgramOf(0x0080_006f, 0x0200_0033, 0x13)
    ensures IsaSteps(s, 2).Next? && IsaSteps(s, 2).arch.pc == Add(0x108, 4)
    ensures Ticks(StartOf(s), 3).Stopped? && Ticks(StartOf(s), 3).cause == InvalidInstruction
    ensures Step(s).Next? && !StopsAt(Ticks(StartOf(s), 3), Step(s).arch, 2)
  {
    hide Add, Aligned, Read, Write, GetWord, Code, CLEAR, Step, IsaStep, Decode, ControlOf, StopsAt, Ticks, StartOf;
    s := ProgramOf(0x0080_006f, 0x0200_0033, 0x13);
    CodeAt(0x0080_006f, 0x0200_0033, 0x13);
    FourAndEight();
    Zeros(0);
    JumpWord();
    DataWord();
    JumpStep(s);
    RejectedInShadow(s);
    NopGoes(Step(s).arch);
    assert IsaSteps(s, 1) == Step(s);
  }

  lemma JumpStep(s: Arch)
    requires Fetch(s) == 0x0080_006f && s.pc == 0x100
    ensures Step(s) == IsaStep(s) == Next(Arch(0x108, s.regFile, s.mem, s.execTrace + [ExecEvent(0x0080_006f, 0x100)]))
  {
    hide Add, Aligned, Read, Write, GetWord, Step, Decode, ControlOf;
    FourAndEight();
    JumpWord();
    DecoderAgreement.DatapathIsIsa(s);
    WriteZero(s.regFile, true, Add(0x100, 4));
  }

  /** nop goes on to the next word and is recorded. */
  lemma NopGoes(s: Arch)
    requires Fetch(s) == 0x13 && Aligned(s.pc)
    ensures Step(s) == IsaStep(s) == Next(Arch(Add(s.pc, 4), s.regFile, s.mem, s.execTrace + [ExecEvent(0x13, s.pc)]))
  {
    hide Add, Aligned, Read, Write, GetWord, Step, Decode, Arith;
    NopWord();
    DecoderAgreement.DatapathIsIsa(s);
    AlignedNext(s.pc);
    WriteZero(s.regFile, true, Arith(ADD, Read(s.regFile, 0), 0));
  }

  /** A nop at address zero executes without being recorded. */
  lemma NopAtZero() returns (s: Arch)
    ensures s == Arch(0, CLEAR, Mem(PutWord(map[], 0x13, 0), []), [])
    ensures IsaStep(s).Next? && IsaStep(s).arch.execTrace == [ExecEvent(0x13, 0)]
    ensures !Recorded(TraceOf(Ticks(StartOf(s), 3)), s)
  {
    hide Add, Aligned, Read, GetWord, PutWord, CLEAR, Step, IsaStep, ControlOf, Decode, Ticks, StartOf, Recorded;
    s := Arch(0, CLEAR, Mem(PutWord(map[], 0x13, 0), []), []);
    WordRoundTrip(map[], 0x13, 0);
    ZeroIsAligned();
    Zeros(0);
    NopWord();
    NopGoes(s);
    FirstFromReset(s);
  }

  lemma ZeroIsAligned()
    ensures Aligned(0) && Legal(0x13) && Decode(0) == Illegal
  {
  }

  /** A zero word, which the manual rejects, passes through the execute stage without being recorded. */
  lemma ZeroWordPasses() returns (s: Arch)
    ensures s == ProgramOf(0, 0x73, 0x13) && IsaStep(s) == Trap(InvalidInstruction)
    ensures !Recorded(TraceOf(Ticks(StartOf(s), 3)), s)
  {
    hide Add, Aligned, Read, GetWord, Code, CLEAR, Step, ControlOf, Decode, Ticks, StartOf, Recorded;
    s := ProgramOf(0, 0x73, 0x13);
    CodeAt(0, 0x73, 0x13);
    FourAndEight();
    Zeros(0);
    ZeroIsAligned();
    ZeroWord();
    FirstFromReset(s);
  }

  lemma LoadWords()
    ensures Decode(0x1000_2283) == Load(LW, 5, 0, 0x100) && ControlOf(0x1000_2283).Accept? && IsLoad(0x1000_2283)
    ensures P.GetRd(0x1000_2283) == 5 && Add(0, 0x100) == 0x100
    ensures ControlOf(0x0002_8313).Accept? && LoadConflict(0x0002_8313, 5)
    ensures var g := ControlOf(0x0002_8313).signals; !g.jmpCond && !g.brnCond && !g.isJalr
    ensures ControlOf(0x0000_03b7).Accept? && !Covered(0x0002_8313, 5, 0x0000_03b7)
  {
  }

  /** The word that lw x5,0x100(x0) at 0x100 loads is the instruction itself. */
  lemma LoadsItself(w1: Word, w2: Word) returns (s: Arch)
    ensures s == ProgramOf(0x1000_2283, w1, w2)
    ensures Ready(s) && Step(s).Next? && IsLoad(Fetch(s)) && P.GetRd(Fetch(s)) == 5
    ensures GetWord(s.mem.bytes, Add(s.pc, 4)) == w1 && GetWord(s.mem.bytes, Add(Add(s.pc, 4), 4)) == w2
    ensures Read(s.regFile, 5) == 0 && Read(Step(s).arch.regFile, 5) == 0x1000_2283
  {
    hide Add, Aligned, Read, Write, GetWord, Code, CLEAR, Step, Decode, ControlOf, P.GetRd, IsLoad;
    s := ProgramOf(0x1000_2283, w1, w2);
    CodeAt(0x1000_2283, w1, w2);
    FourAndEight();
    Zeros(0);
    Zeros(5);
    LoadWords();
    DecoderAgreement.DatapathIsIsa(s);
    ReadAfterWrite(CLEAR, true, 5, 0x1000_2283, 5);
  }

  lemma PlainTarget(r: Arch, g: Signals, w: Word)
    requires !g.jmpCond && !g.brnCond && !g.isJalr
    ensures TargetOf(r, g, w) == Add(r.pc, 4)
  {
    hide Read, Add, ClearBitZero, SourceA, P.ImmediateExtensionBlock, P.GetRs1, P.GetRs2, P.GetRd, P.GetFunct3,
         Alu.ALU, Alu.Cmp;
  }

  /** lw x5,0x100(x0); addi x6,x5,0; lui x7,0: the load never reaches the addition. The manual moves the loaded
      word to x6; in the pipeline x6 is 0 once the results under way after tick five are written. */
  lemma UpperHidesLoad() returns (s: Arch, u: Pipeline)
    ensures s == ProgramOf(0x1000_2283, 0x0002_8313, 0x0000_03b7) && LoadUse(s)
    ensures IsaSteps(s, 2).Next? && Read(IsaSteps(s, 2).arch.regFile, 6) == 0x1000_2283
    ensures Ticks(StartOf(s), 5) == Running(u) && Refinement.MemoryStageOk(u) && Read(Refinement.AbsRegs(u), 6) == 0
  {
    hide Add, Aligned, Read, Write, GetWord, Code, CLEAR, Step, IsaStep, Decode, ControlOf, P.GetRd, IsLoad, Ready,
         LoadConflict, Covered, Ticks, StartOf, Refinement.OperandsReady, Refinement.MemoryStageOk, TargetOf,
         ExecuteOf, Poke, Refinement.AbsRegs, Refinement.Shape, OperandA, OperandB, Tick, Prepare, ProvisionalTarget;
    s := LoadsItself(0x0002_8313, 0x0000_03b7);
    FourAndEight();
    LoadWords();
    LoadRuns(s);
    ProvisionalOfPlain(s);
    var q, r := HaltFromReset(s);
    OneIteration(StartOf(s), 4, r);
    LatePrepare(r);
    AdditionWord();
    u := HiddenAddition(r);
    CodeAt(0x1000_2283, 0x0002_8313, 0x0000_03b7);
    DecoderAgreement.DatapathIsIsa(s);
    MovesOn(Step(s).arch);
    assert IsaSteps(s, 1) == Step(s);
  }

  lemma AdditionWord()
    ensures Decode(0x0002_8313) == OpImm(ADD, 6, 5, 0)
    ensures ControlOf(0x0002_8313)
         == Accept(Signals(false, true, false, false, false, false, Alu.CmpControl.NOP, true, Alu.ALUControl.ADD))
    ensures P.GetRd(0x0002_8313) == 6 && P.GetRs1(0x0002_8313) == 5 && P.ImmediateExtensionBlock(0x0002_8313) == 0
    ensures P.GetInstructionType(P.GetOpcode(0x0002_8313)) == P.IType
    ensures P.GetInstructionType(P.GetOpcode(0x0000_03b7)) == P.UType && Add(0, 0) == 0
  {
  }

  /** The manual moves x5 to x6. */
  lemma MovesOn(s: Arch)
    requires Fetch(s) == 0x0002_8313 && Aligned(s.pc)
    ensures IsaStep(s).Next? && Read(IsaStep(s).arch.regFile, 6) == Read(s.regFile, 5)
  {
    hide Add, Aligned, Read, Write, GetWord, Decode;
    AdditionWord();
    AlignedNext(s.pc);
    AddZero(Read(s.regFile, 5));
    ReadAfterWrite(s.regFile, true, 6, Read(s.regFile, 5), 6);
  }

  lemma AddZero(a: Word)
    ensures Add(a, 0) == a
  {
  }

  /** The addition with 0 as its operand. */
  lemma HiddenAddition(r: Pipeline) returns (u: Pipeline)
    requires Refinement.Shape(r) && !Refinement.Halted(r) && OperandA(r) == 0
    requires ExecutesWord(r, 0x0002_8313) && r.decode.instr == 0x0000_03b7
    ensures Tick(r) == Running(u) && Refinement.MemoryStageOk(u) && Read(Refinement.AbsRegs(u), 6) == 0
  {
    hide Add, Aligned, Read, Write, ControlOf, OperandA, OperandB, Tick, Ticked, Refinement.AbsRegs,
         Refinement.AbsMem, Refinement.MemoryStageOk, P.GetRd, P.ImmediateExtensionBlock, Alu.Cmp, ClearBitZero,
         Refinement.ValidLoadMode;
    LoadWords();
    AdditionWord();
    AlignedNext(r.programCounter);
    TickAccepted(r);
    u := Ticked(r);
    AbsAfterRun(r, u);
    ReadAfterWrite(Refinement.AbsRegs(r), true, 6, 0, 6);
  }

  lemma ProvisionalOfPlain(s: Arch)
    requires IsLoad(Fetch(s)) && Step(s).Next? && Aligned(s.pc)
    requires Accepted(GetWord(s.mem.bytes, Add(s.pc, 4)))
    requires var g := ControlOf(GetWord(s.mem.bytes, Add(s.pc, 4))).signals; !g.jmpCond && !g.brnCond && !g.isJalr
    ensures Accepted(Fetch(s)) && Aligned(ProvisionalTarget(s))
  {
    hide Add, Aligned, Read, GetWord, Step, ControlOf, P.GetRd, IsLoad, TargetOf, ExecuteOf, Poke;
    LoadRuns(s);
    var w := GetWord(s.mem.bytes, Add(s.pc, 4));
    var address := ExecuteOf(s, ControlOf(Fetch(s)).signals, Fetch(s)).memory.aluRes;
    PlainTarget(Provisional(Step(s).arch, P.GetRd(Fetch(s)), address), ControlOf(w).signals, w);
    AlignedNext(s.pc);
    AlignedNext(Add(s.pc, 4));
  }

  lemma JumpWords()
    ensures ControlOf(0x0022_8067)
         == Accept(Signals(true, true, false, false, false, true, Alu.CmpControl.NOP, true, Alu.ALUControl.ADD))
    ensures LoadConflict(0x0022_8067, 5) && P.GetRs1(0x0022_8067) == 5 && P.ImmediateExtensionBlock(0x0022_8067) == 2
    ensures forall pc, value :: SourceA(0x0022_8067, pc, value) == value
    ensures ControlOf(0x13).Accept? && Decode(0x0022_8067) == Jalr(0, 5, 2)
  {
  }

  lemma JumpTargets()
    ensures Add(0, ClearBitZero(Add(0x100, 2))) == 0x102 && !Aligned(0x102)
    ensures ClearBitZero(Add(0x1000_2283, 2)) == 0x1000_2284 && Aligned(0x1000_2284)
  {
  }

  lemma LoadAddress(s: Arch)
    requires Fetch(s) == 0x1000_2283 && Read(s.regFile, 0) == 0
    ensures ExecuteOf(s, ControlOf(0x1000_2283).signals, 0x1000_2283).memory.aluRes == 0x100
  {
    hide Read, GetWord, Add;
    LoadWords();
    LoadSignals();
  }

  lemma LoadSignals()
    ensures var g := ControlOf(0x1000_2283).signals; g.aluOp == Alu.ALUControl.ADD && g.aluSrc2 && !g.jmpCond
    ensures P.ImmediateExtensionBlock(0x1000_2283) == 0x100 && P.GetRs1(0x1000_2283) == 0
    ensures forall pc, value :: SourceA(0x1000_2283, pc, value) == value
  {
  }

  lemma JumpTarget(r: Arch, g: Signals)
    requires ControlOf(0x0022_8067) == Accept(g) && Read(r.regFile, 5) == 0x100
    ensures TargetOf(r, g, 0x0022_8067) == 0x102
  {
    hide Read, Add, ClearBitZero, SourceA, P.ImmediateExtensionBlock, ControlOf, P.GetRs1, P.GetRs2, P.GetRd,
         P.GetFunct3;
    JumpWords();
    JumpTargets();
  }

  /** lw x5,0x100(x0); jalr x0,2(x5): the jump target 0x10002284 is aligned, but the pipeline raises, because it
      checks the target that it computes from the address 0x100. */
  lemma HaltedJumpRaises() returns (s: Arch)
    ensures s == ProgramOf(0x1000_2283, 0x0022_8067, 0x13) && Step(s).Next? && IsaStep(Step(s).arch).Next?
    ensures Ticks(StartOf(s), 4).Stopped? && Ticks(StartOf(s), 4).cause == Misaligned
  {
    hide Add, Aligned, Read, Write, GetWord, Code, CLEAR, Step, Decode, ControlOf, P.GetRd, IsLoad, Ready,
         LoadConflict, Covered, Ticks, StartOf, Refinement.OperandsReady, Refinement.MemoryStageOk, Refinement.Halted,
         ClearBitZero, TargetOf, ExecuteOf, Poke;
    s := LoadsItself(0x0022_8067, 0x13);
    CodeAt(0x1000_2283, 0x0022_8067, 0x13);
    FourAndEight();
    Zeros(0);
    JumpWords();
    JumpTargets();
    LoadRuns(s);
    LoadAddress(s);
    ReadAfterPoke(Step(s).arch.regFile, 5, 0x100, 5);
    JumpTarget(Provisional(Step(s).arch, 5, 0x100), ControlOf(0x0022_8067).signals);
    var q, r := HaltFromReset(s);
  }

  /** lw x5,0x100(x0); addi x6,x5,0; ecall: the addition is missing from the execution trace. */
  lemma EcallDuringHalt() returns (s: Arch)
    ensures s == ProgramOf(0x1000_2283, 0x0002_8313, 0x73)
    ensures Ticks(StartOf(s), 4).Stopped?
    ensures ExecEvent(0x0002_8313, 0x104) !in Ticks(StartOf(s), 4).final.execTrace
  {
    hide Add, Aligned, Read, Write, GetWord, Code, CLEAR, Step, Decode, ControlOf, P.GetRd, IsLoad, Ready,
         LoadConflict, Ticks, StartOf;
    s := LoadsItself(0x0002_8313, 0x73);
    FourAndEight();
    LoadWords();
    DecoderAgreement.SystemWords();
    CodeAt(0x1000_2283, 0x0002_8313, 0x73);
    StopDuringHalt(s);
  }

  // stores into the code

  /** Three words of code, and 0x13, a nop, in x1. */
  function Storing(w0: Word, w1: Word, w2: Word): Arch {
    ProgramOf(w0, w1, w2).(regFile := Poke(CLEAR, 1, 0x13))
  }

  lemma StoreWords()
    ensures Decode(0x1010_2223) == Instr.Store(SW, 0, 1, 0x104) && Decode(0x1010_2423) == Instr.Store(SW, 0, 1, 0x108)
    ensures Add(0, 0x104) == 0x104 && Add(0, 0x108) == 0x108
    ensures ControlOf(0x0050_0313).Accept? && !IsLoad(0x1010_2223) && !IsLoad(0x1010_2423)
  {
  }

  lemma StoreSignals()
    ensures var g := ControlOf(0x1010_2223); g.Accept? && !g.signals.jmpCond && !g.signals.brnCond
    ensures var g := ControlOf(0x1010_2423); g.Accept? && !g.signals.jmpCond && !g.signals.brnCond
  {
  }

  lemma PlainNotTaken(s: Arch)
    requires var g := ControlOf(Fetch(s)); g.Accept? && !g.signals.jmpCond && !g.signals.brnCond
    ensures !Taken(s)
  {
    hide ControlOf, GetWord, ExecuteStage, Read, P.GetRs1, P.GetRs2, P.GetFunct3, SourceA;
    NoRedirect(RecordOf(s, ControlOf(Fetch(s)).signals, Fetch(s)));
  }

  /** sw x1,a(x0) stores the nop at a. */
  lemma StoreGoes(s: Arch, a: Word)
    requires Decode(Fetch(s)) == Instr.Store(SW, 0, 1, a) && Add(0, a) == a
    requires Aligned(s.pc) && Read(s.regFile, 0) == 0 && Read(s.regFile, 1) == 0x13
    ensures Step(s) == IsaStep(s) == Next(Arch(Add(s.pc, 4), s.regFile, SetWord(s.mem, 0x13, a),
                                               s.execTrace + [ExecEvent(Fetch(s), s.pc)]))
  {
    hide Add, Aligned, Read, Write, GetWord, Step, Decode, SetWord;
    DecoderAgreement.DatapathIsIsa(s);
    AlignedNext(s.pc);
  }

  lemma StoringRegisters()
    ensures Read(Poke(CLEAR, 1, 0x13), 0) == 0 && Read(Poke(CLEAR, 1, 0x13), 1) == 0x13
  {
    hide Read, Poke, CLEAR;
    Zeros(0);
    ReadAfterPoke(CLEAR, 1, 0x13, 0);
    ReadAfterPoke(CLEAR, 1, 0x13, 1);
  }

  /** sw x1,0x104(x0); addi x6,x0,5: the program replaces the addition by a nop and executes that; the pipeline
      never records it, since it executes the addition. */
  lemma StoreIntoNext() returns (s: Arch)
    ensures s == Storing(0x1010_2223, 0x0050_0313, 0x13) && IsaSteps(s, 2).Next?
    ensures IsaSteps(s, 2).arch.execTrace == [ExecEvent(0x1010_2223, 0x100), ExecEvent(0x13, 0x104)]
    ensures forall u: nat :: u >= 4 ==> !Recorded(TraceOf(Ticks(StartOf(s), u)), IsaSteps(s, 1).arch)
  {
    hide Add, Aligned, Read, GetWord, PutWord, Code, CLEAR, Poke, Step, IsaStep, ControlOf, Decode, Ticks, StartOf,
         Recorded, Taken, IsLoad;
    s := Storing(0x1010_2223, 0x0050_0313, 0x13);
    CodeAt(0x1010_2223, 0x0050_0313, 0x13);
    FourAndEight();
    StoringRegisters();
    StoreWords();
    StoreSignals();
    StoreGoes(s, 0x104);
    PlainNotTaken(s);
    WordRoundTrip(s.mem.bytes, 0x13, 0x104);
    NopGoes(Step(s).arch);
    assert IsaSteps(s, 1) == Step(s);
    forall u: nat | u >= 4
      ensures !Recorded(TraceOf(Ticks(StartOf(s), u)), Step(s).arch)
    {
      StoreOneBehind(s, u);
    }
  }

  lemma OutsideBefore()
    ensures Outside(0x104, 0x108) && Outside(Add(0x104, 1), 0x108)
    ensures Outside(Add(0x104, 2), 0x108) && Outside(Add(0x104, 3), 0x108)
  {
  }

  /** sw x1,0x108(x0); nop; addi x6,x0,5: the same two words ahead. */
  lemma StoreTwoAhead() returns (s: Arch)
    ensures s == Storing(0x1010_2423, 0x13, 0x0050_0313) && IsaSteps(s, 3).Next?
    ensures IsaSteps(s, 3).arch.execTrace
         == [ExecEvent(0x1010_2423, 0x100), ExecEvent(0x13, 0x104), ExecEvent(0x13, 0x108)]
    ensures forall u: nat :: u >= 7 ==> !Recorded(TraceOf(Ticks(StartOf(s), u)), IsaSteps(s, 2).arch)
  {
    hide Add, Aligned, Read, GetWord, PutWord, Code, CLEAR, Poke, Step, IsaStep, ControlOf, Decode, Ticks, StartOf,
         Recorded, Taken, IsLoad, Outside;
    s := Storing(0x1010_2423, 0x13, 0x0050_0313);
    CodeAt(0x1010_2423, 0x13, 0x0050_0313);
    FourAndEight();
    OutsideBefore();
    StoringRegisters();
    StoreWords();
    StoreSignals();
    StoreGoes(s, 0x108);
    PlainNotTaken(s);
    WordRoundTrip(s.mem.bytes, 0x13, 0x108);
    WordKeeps(s.mem.bytes, 0x13, 0x108, 0x104);
    var r := Step(s).arch;
    NopWord();
    NopGoes(r);
    NopNotTaken(r);
    NopGoes(Step(r).arch);
    assert IsaSteps(s, 1) == Step(s) && IsaSteps(s, 2) == Step(r);
    forall u: nat | u >= 7
      ensures !Recorded(TraceOf(Ticks(StartOf(s), u)), Step(r).arch)
    {
      StoreTwoBehind(s, u);
    }
  }

  /** fence with rd = x1, which the manual ignores, with x1 = 7: the pipeline writes 0 to x1 and records it. */
  lemma FenceWrites() returns (s: Arch)
    ensures s == ProgramOf(0x0000_008f, 0x73, 0x13).(regFile := Poke(CLEAR, 1, 7))
    ensures IsaStep(s).Next? && IsaStep(s).arch.regFile == s.regFile && Read(s.regFile, 1) == 7
    ensures Step(s).Next? && Read(Step(s).arch.regFile, 1) == 0
    ensures Step(s).arch.regFile.trace == [RegEvent(1, 0)]
  {
    hide Add, Aligned, Read, GetWord, Code, CLEAR, Step, IsaStep, Decode, Rd, Poke;
    s := ProgramOf(0x0000_008f, 0x73, 0x13).(regFile := Poke(CLEAR, 1, 7));
    CodeAt(0x0000_008f, 0x73, 0x13);
    FourAndEight();
    FenceWord();
    ReadAfterPoke(CLEAR, 1, 7, 1);
    NothingRecorded(1, 7);
    ReadAfterWrite(s.regFile, true, 1, 0, 1);
    DecoderAgreement.FenceWritesZero(s);
  }

  lemma NothingRecorded(r: RegIdx, value: Word)
    ensures Poke(CLEAR, r, value).trace == []
  {
  }

  lemma FenceWord()
    ensures Decode(0x0000_008f).Fence? && Rd(0x0000_008f) == 1
  {
  }

  // ----- the interpreter -----

  /** The interpreter does something else with the instruction at s than the manual. */
  predicate Departs(s: Arch) {
    IsaStep(s) != Trap(Misaligned) && Interpreter.Round(s) != InterpreterAgreement.ResultOf(s)
  }

  lemma UnfaithfulDeparts(s: Arch)
    requires Legal(Fetch(s)) && Aligned(s.pc) && Read(s.regFile, 0) == 0 && !InterpreterAgreement.Faithful(s)
    requires !Decode(Fetch(s)).Jal? && !Decode(Fetch(s)).Jalr? && !Decode(Fetch(s)).Branch?
    ensures Departs(s)
  {
    hide Add, Aligned, Read, Write, GetWord, Decode, Interpreter.Round, InterpreterAgreement.Faithful, Arith,
         LoadValue, StoreTo, InterpreterAgreement.ResultOf;
    AlignedNext(s.pc);
    NotMisaligned(s);
    InterpreterAgreement.InterpreterIsIsa(s);
  }

  lemma NotMisaligned(s: Arch)
    requires Aligned(Add(s.pc, 4)) && !Decode(Fetch(s)).Jal? && !Decode(Fetch(s)).Jalr? && !Decode(Fetch(s)).Branch?
    ensures IsaStep(s) != Trap(Misaligned)
  {
    hide Add, Aligned, Read, Write, GetWord, Decode, Arith, LoadValue, StoreTo;
  }

  lemma UnfaithfulWords()
    ensures Decode(0x1000_0283) == Load(LB, 5, 0, 0x100) && Decode(0x1000_9283) == Load(LH, 5, 1, 0x100)
    ensures Decode(0x0010_1023) == Instr.Store(SH, 0, 1, 0) && Decode(0x4012_d293) == OpImm(SRA, 5, 5, 0x401)
    ensures Decode(0x0020_92b3) == Op(SLL, 5, 1, 2)
    ensures Add(0, 0x100) == 0x100
  {
  }

  lemma NegativeParts(b: Bytes)
    ensures GetWord(b, 0x100) == 0x1000_0283 ==> GetByte(b, 0x100) == 0x83
    ensures GetWord(b, 0x100) == 0x1000_9283 ==> GetHalf(b, 0x100) == 0x9283
  {
    hide GetByte, Add;
  }

  /** What a load of the bytes at 0x100 leaves in x5: the manual, and the interpreter. */
  lemma LoadsSelf(s: Arch, op: LoadOp, rs1: RegIdx)
    requires Decode(Fetch(s)) == Load(op, 5, rs1, 0x100) && Read(s.regFile, 0) == 0 && Read(s.regFile, rs1) == 0
    requires Aligned(s.pc) && Add(0, 0x100) == 0x100
    ensures IsaStep(s).Next? && Interpreter.Round(s).Goes?
    ensures var bytes := BytesAt(s.mem.bytes, 0x100, LoadWidth(op));
      LoadIs(op, bytes, Read(IsaStep(s).arch.regFile, 5)) &&
      Unsigned(Read(Interpreter.Round(s).arch.regFile, 5)) == LittleEndian(bytes)
  {
    hide Add, Aligned, Read, Write, GetWord, GetByte, GetHalf, Decode, Interpreter.Round, IsaStep, BytesAt, LoadIs,
         LittleEndian, Unsigned, StepMeaning.WroteOnly, StepMeaning.Sum;
    StepMeaning.StepMeans(s);
    StepMeaning.RoundMeans(s);
    AlignedNext(s.pc);
    AlignedMeans(Add(s.pc, 4));
    StepMeaning.PcPlus(s.pc, 0);
  }

  /** The little-endian number of the two words' own first bytes. */
  lemma OwnBytes(b: Bytes)
    ensures GetWord(b, 0x100) == 0x1000_0283 ==> LittleEndian(BytesAt(b, 0x100, 1)) == 0x83
    ensures GetWord(b, 0x100) == 0x1000_9283 ==> LittleEndian(BytesAt(b, 0x100, 2)) == 0x9283
  {
    hide GetByte, GetHalf, GetWord, Add, LittleEndian, Unsigned8, Unsigned16;
    NegativeParts(b);
    HalfValue(b, 0x100);
    LittleEndianOf(GetByte(b, 0x100), GetByte(b, Add(0x100, 1)), 0, 0);
    OwnValues();
  }

  lemma OwnValues()
    ensures Unsigned8(0x83) == 0x83 && Unsigned16(0x9283) == 0x9283
  {
  }

  /** lb x5,0x100(x0) loads 0x83, its own lowest byte: -125 for the manual, 131 in the interpreter. */
  lemma ByteLosesSign() returns (s: Arch)
    ensures s == ProgramOf(0x1000_0283, 0x73, 0x13) && Departs(s)
    ensures IsaStep(s).Next? && Signed(Read(IsaStep(s).arch.regFile, 5)) == -125
    ensures Interpreter.Round(s).Goes? && Unsigned(Read(Interpreter.Round(s).arch.regFile, 5)) == 131
  {
    hide Add, Aligned, Read, Write, GetWord, GetByte, GetHalf, Code, CLEAR, Decode, Departs, IsaStep,
         Interpreter.Round, BytesAt, LittleEndian, Signed, Unsigned;
    s := ProgramOf(0x1000_0283, 0x73, 0x13);
    CodeAt(0x1000_0283, 0x73, 0x13);
    FourAndEight();
    Zeros(0);
    UnfaithfulWords();
    NegativeParts(s.mem.bytes);
    UnfaithfulDeparts(s);
    LoadsSelf(s, LB, 0);
    OwnBytes(s.mem.bytes);
  }

  /** lh x5,0x100(x1) loads 0x9283, its own lower half: -28029 for the manual, 37507 in the interpreter. */
  lemma HalfLosesSign() returns (s: Arch)
    ensures s == ProgramOf(0x1000_9283, 0x73, 0x13) && Departs(s)
    ensures IsaStep(s).Next? && Signed(Read(IsaStep(s).arch.regFile, 5)) == -28029
    ensures Interpreter.Round(s).Goes? && Unsigned(Read(Interpreter.Round(s).arch.regFile, 5)) == 37507
  {
    hide Add, Aligned, Read, Write, GetWord, GetByte, GetHalf, Code, CLEAR, Decode, Departs, IsaStep,
         Interpreter.Round, BytesAt, LittleEndian, Signed, Unsigned;
    s := ProgramOf(0x1000_9283, 0x73, 0x13);
    CodeAt(0x1000_9283, 0x73, 0x13);
    FourAndEight();
    Zeros(0);
    Zeros(1);
    UnfaithfulWords();
    NegativeParts(s.mem.bytes);
    UnfaithfulDeparts(s);
    LoadsSelf(s, LH, 1);
    OwnBytes(s.mem.bytes);
  }

  /** sh x1,0(x0) with x1 = 0x1234 stores one byte only: the manual puts 0x12 at address 1, the interpreter keeps
      the 0 there. */
  lemma HalfStoresByte() returns (s: Arch)
    ensures s == ProgramOf(0x0010_1023, 0x73, 0x13).(regFile := Poke(CLEAR, 1, 0x1234)) && Departs(s)
    ensures IsaStep(s).Next? && GetByte(IsaStep(s).arch.mem.bytes, 1) == 0x12
    ensures Interpreter.Round(s).Goes? && GetByte(Interpreter.Round(s).arch.mem.bytes, 1) == 0
  {
    hide Add, Aligned, Read, Write, GetWord, GetByte, GetHalf, Code, CLEAR, Decode, Departs, Poke, Interpreter.Round,
         PutHalf, PutByte, IsaStep;
    s := ProgramOf(0x0010_1023, 0x73, 0x13).(regFile := Poke(CLEAR, 1, 0x1234));
    CodeAt(0x0010_1023, 0x73, 0x13);
    FourAndEight();
    Zeros(0);
    ReadAfterPoke(CLEAR, 1, 0x1234, 0);
    ReadAfterPoke(CLEAR, 1, 0x1234, 1);
    UnfaithfulWords();
    UnfaithfulDeparts(s);
    HalfStored(s);
    NothingAtOne(0x0010_1023, 0x73, 0x13);
    HalfWrites(s.mem.bytes, 0x1234, 0, 1);
    ByteWrites(s.mem.bytes, 0x34, 0, 1);
    PartsOfHalf();
  }

  lemma HalfStored(s: Arch)
    requires Decode(Fetch(s)) == Instr.Store(SH, 0, 1, 0) && Aligned(s.pc) && Read(s.regFile, 0) == 0
    ensures IsaStep(s).Next? && IsaStep(s).arch.mem.bytes == PutHalf(s.mem.bytes, LowHalf(Read(s.regFile, 1)), 0)
    ensures Interpreter.Round(s).Goes? &&
      Interpreter.Round(s).arch.mem.bytes == PutByte(s.mem.bytes, ToByte(Read(s.regFile, 1)), 0)
  {
    hide Add, Aligned, Read, Write, GetWord, Decode, PutHalf, PutByte, LowHalf, ToByte, Interpreter.Round;
    AlignedNext(s.pc);
    AddZero(0);
    InterpreterAgreement.StoreRound(s);
  }

  lemma PartsOfHalf()
    ensures ToByte(0x1234) == 0x34 && LowHalf(0x1234) == 0x1234 && HighByte(0x1234) == 0x12 && Add(0, 1) == 1
  {
  }

  /** Nothing is stored below the code. */
  lemma NothingAtOne(w0: Word, w1: Word, w2: Word)
    ensures GetByte(Code(w0, w1, w2), 1) == 0
  {
    OneIsBelow();
    hide PutWord, Add, LowByte, HighByte, LowHalf, HighHalf;
    var b2 := PutWord(map[], w2, 0x108);
    var b1 := PutWord(b2, w1, 0x104);
    WordWrites(map[], w2, 0x108, 1);
    WordWrites(b2, w1, 0x104, 1);
    WordWrites(b1, w0, 0x100, 1);
  }

  lemma OneIsBelow()
    ensures Outside(1, 0x100) && Outside(1, 0x104) && Outside(1, 0x108)
  {
  }

  /** sll x5,x1,x2 with x2 = 32, by which the manual does not shift at all, is undefined. */
  lemma ShiftByRegister() returns (s: Arch)
    ensures s == ProgramOf(0x0020_92b3, 0x73, 0x13).(regFile := Poke(CLEAR, 2, 32)) && Departs(s)
    ensures IsaStep(s).Next? && Interpreter.Round(s).Undefined?
  {
    hide Add, Aligned, Read, Write, GetWord, GetByte, GetHalf, Code, CLEAR, Decode, Departs, Poke, Interpreter.Round,
         IsaStep;
    s := ProgramOf(0x0020_92b3, 0x73, 0x13).(regFile := Poke(CLEAR, 2, 32));
    CodeAt(0x0020_92b3, 0x73, 0x13);
    FourAndEight();
    Zeros(0);
    ReadAfterPoke(CLEAR, 2, 32, 0);
    ReadAfterPoke(CLEAR, 2, 32, 2);
    UnfaithfulWords();
    UnfaithfulDeparts(s);
    ShiftUndefined(s);
  }

  lemma ShiftUndefined(s: Arch)
    requires Decode(Fetch(s)) == Op(SLL, 5, 1, 2) && Aligned(s.pc) && Read(s.regFile, 2) == 32
    ensures IsaStep(s).Next? && Interpreter.Round(s).Undefined?
  {
    hide Add, Aligned, Read, Write, GetWord, Decode, Interpreter.Round, Interpreter.Put, Arith;
    AlignedNext(s.pc);
    InterpreterAgreement.OpRound(s);
    InterpreterAgreement.Decoded(s);
  }

  /** srai x5,x5,1 shifts by 0x401. */
  lemma ShiftTooFar() returns (s: Arch)
    ensures s == ProgramOf(0x4012_d293, 0x73, 0x13) && Departs(s)
    ensures IsaStep(s).Next? && Interpreter.Round(s).Undefined?
  {
    hide Add, Aligned, Read, Write, GetWord, GetByte, GetHalf, Code, CLEAR, Decode, Departs, IsaStep,
         Interpreter.Round;
    s := ProgramOf(0x4012_d293, 0x73, 0x13);
    CodeAt(0x4012_d293, 0x73, 0x13);
    FourAndEight();
    Zeros(0);
    UnfaithfulWords();
    UnfaithfulDeparts(s);
    ShiftRaises(s);
  }

  lemma ShiftRaises(s: Arch)
    requires Decode(Fetch(s)) == OpImm(SRA, 5, 5, 0x401) && Aligned(s.pc) && Read(s.regFile, 0) == 0
    ensures IsaStep(s).Next? && Interpreter.Round(s).Undefined?
  {
    hide Add, Aligned, Read, Write, GetWord, Decode, Interpreter.Round, Arith;
    AlignedNext(s.pc);
    assert Unsigned(0x401) == 0x401;
    StepMeaning.RoundMeans(s);
  }

  /** jalr x1,0(x1) with x1 = 0 jumps to the link address instead of 0. */
  lemma LinkOverwritesBase() returns (s: Arch)
    ensures s == ProgramOf(0x0000_80e7, 0x73, 0x13) && Departs(s)
    ensures IsaStep(s).Next? && IsaStep(s).arch.pc == 0
    ensures Interpreter.Round(s).Goes? && Interpreter.Round(s).arch.pc == 0x104
  {
    hide Add, Aligned, Read, Write, GetWord, GetByte, GetHalf, Code, CLEAR, Decode, ClearBitZero, Interpreter.Round,
         InterpreterAgreement.ResultOf;
    s := ProgramOf(0x0000_80e7, 0x73, 0x13);
    CodeAt(0x0000_80e7, 0x73, 0x13);
    FourAndEight();
    Zeros(0);
    Zeros(1);
    LinkWord();
    InterpreterAgreement.InterpreterIsIsa(s);
    LinkedTarget(s);
  }

  lemma LinkedTarget(s: Arch)
    requires Decode(Fetch(s)) == Jalr(1, 1, 0) && s.pc == 0x100 && Read(s.regFile, 0) == 0
    ensures Interpreter.Round(s).Goes? && Interpreter.Round(s).arch.pc == 0x104
  {
    hide Add, Read, Write, GetWord, Decode, Interpreter.Round, Interpreter.WriteReg, ClearBitZero, Rd, Rs1, ImmI;
    FourAndEight();
    LinkWord();
    InterpreterAgreement.DecodedFields(Fetch(s));
    InterpreterAgreement.JumpRound(s);
    InterpreterAgreement.WriteRegAgrees(s.regFile, 0x104, 1);
    ReadAfterWrite(s.regFile, true, 1, 0x104, 1);
  }

  lemma LinkWord()
    ensures Decode(0x0000_80e7) == Jalr(1, 1, 0) && Add(0, 0) == 0 && ClearBitZero(0) == 0 && Aligned(0)
    ensures ClearBitZero(Add(0x104, 0)) == 0x104
  {
  }

  // ----- the comparison of traces -----

  /** Two register traces with different values that compare equal as files. */
  lemma DifferentTracesCompareEqual() returns (a: seq<RegEvent>, b: seq<RegEvent>)
    ensures a != b && TraceFormat.FilesCompareEqual(TraceFormat.RegStream(a), TraceFormat.RegStream(b))
  {
    a, b := [RegEvent(1, 5)], [RegEvent(1, 6)];
    assert a[0] != b[0];
    hide TraceFormat.RegStream, TraceFormat.FilesCompareEqual;
    TraceFormat.RegTracesCompare(a, b);
  }

  // ----- a program inside the fragment -----

  lemma NopWord()
    ensures Decode(0x13) == OpImm(ADD, 0, 0, 0) && ControlOf(0x13).Accept? && !IsLoad(0x13)
    ensures var g := ControlOf(0x13).signals; !g.jmpCond && !g.brnCond
  {
  }

  lemma NopNotTaken(s: Arch)
    requires Fetch(s) == 0x13
    ensures !Taken(s) && !IsLoad(Fetch(s))
  {
    hide ControlOf, GetWord, Taken, IsLoad;
    NopWord();
    PlainNotTaken(s);
  }

  lemma NoRedirect(e: ExecuteState)
    requires !e.signals.jmpCond && !e.signals.brnCond
    ensures forall a, b :: !ExecuteStage(e, a, b).pcR
  {
    hide Alu.ALU, Alu.Cmp, P.ImmediateExtensionBlock, Add, ClearBitZero, P.GetRd;
  }

  lemma NopStep(s: Arch)
    requires s == ProgramOf(0x13, 0x73, 0x13)
    ensures Step(s) == Next(Arch(0x104, CLEAR, s.mem, [ExecEvent(0x13, 0x100)])) && IsaStep(s) == Step(s)
    ensures Fetch(s) == 0x13 && Aligned(s.pc) && Read(s.regFile, 0) == 0
  {
    hide Add, Aligned, Read, GetWord, Code, CLEAR, Step, IsaStep;
    CodeAt(0x13, 0x73, 0x13);
    FourAndEight();
    Zeros(0);
    NopGoes(s);
  }

  lemma EcallStep(s: Arch)
    requires Fetch(s) == 0x73
    ensures Step(s) == Trap(Ecall) && CoSimulation.Agreed(s) && Benign(s)
  {
    hide GetWord, ControlOf, Decode, Step, WellPlaced, StoreSpares;
    DecoderAgreement.SystemWords();
    StepTraps(s);
  }

  lemma StepTraps(s: Arch)
    requires ControlOf(Fetch(s)) == Reject(Ecall)
    ensures Step(s) == Trap(Ecall)
  {
    hide GetWord, ControlOf;
  }

  lemma OnlyTwoSteps(s: Arch, n: nat)
    requires Steps(s, 1).Next? && Step(Steps(s, 1).arch).Trap? && Steps(s, n).Next?
    ensures n == 0 || n == 1
  {
    hide Step, Steps;
    EndIsLast(s, 1, n);
  }

  /** nop; ecall is a program on which both models agree. */
  lemma NopThenEcall() returns (s: Arch)
    ensures s == ProgramOf(0x13, 0x73, 0x13) && CoSimulation.AgreedRun(s)
    ensures Steps(s, 1).Next? && Step(Steps(s, 1).arch) == Trap(Ecall)
  {
    hide Add, Aligned, Read, Write, GetWord, Code, CLEAR, Step, IsaStep, Decode, ControlOf, LoadUseSafe, Taken,
         IsLoad, CoSimulation.Agreed;
    s := ProgramOf(0x13, 0x73, 0x13);
    NopStep(s);
    NopNotTaken(s);
    CodeAt(0x13, 0x73, 0x13);
    NopAgreed(s);
    var next := Step(s).arch;
    assert Steps(s, 0) == Next(s) && Steps(s, 1) == Next(next);
    EcallStep(next);
    assert Benign(s);
    forall n: nat | Steps(s, n).Next?
      ensures Benign(Steps(s, n).arch) && CoSimulation.Agreed(Steps(s, n).arch)
    {
      OnlyTwoSteps(s, n);
    }
  }

  lemma NopAgreed(s: Arch)
    requires Fetch(s) == 0x13
    ensures CoSimulation.Agreed(s)
  {
    hide GetWord, Decode, Read, Rd;
    NopWord();
  }

  // ----- a dependence that is none -----

  lemma FourWords()
    ensures Add(0x108, 4) == 0x10c && Aligned(0x10c)
    ensures Outside(0x10c, 0x100) && Outside(Add(0x10c, 1), 0x100) && Outside(Add(0x10c, 2), 0x100)
    ensures Outside(Add(0x10c, 3), 0x100) && Outside(0x10c, 0x104) && Outside(Add(0x10c, 1), 0x104)
    ensures Outside(Add(0x10c, 2), 0x104) && Outside(Add(0x10c, 3), 0x104) && Outside(0x10c, 0x108)
    ensures Outside(Add(0x10c, 1), 0x108) && Outside(Add(0x10c, 2), 0x108) && Outside(Add(0x10c, 3), 0x108)
  {
  }

  function LongCode(w0: Word, w1: Word, w2: Word, w3: Word): Bytes {
    PutWord(PutWord(PutWord(PutWord(map[], w3, 0x10c), w2, 0x108), w1, 0x104), w0, 0x100)
  }

  lemma LongCodeAt(w0: Word, w1: Word, w2: Word, w3: Word)
    ensures var b := LongCode(w0, w1, w2, w3);
      GetWord(b, 0x100) == w0 && GetWord(b, 0x104) == w1 && GetWord(b, 0x108) == w2 && GetWord(b, 0x10c) == w3
  {
    FourAndEight();
    FourWords();
    hide GetWord, PutWord, Add, Outside, Aligned;
    var b3 := PutWord(map[], w3, 0x10c);
    var b2 := PutWord(b3, w2, 0x108);
    var b1 := PutWord(b2, w1, 0x104);
    WordRoundTrip(map[], w3, 0x10c);
    WordRoundTrip(b3, w2, 0x108);
    WordRoundTrip(b2, w1, 0x104);
    WordRoundTrip(b1, w0, 0x100);
    WordKeeps(b3, w2, 0x108, 0x10c);
    WordKeeps(b2, w1, 0x104, 0x10c);
    WordKeeps(b2, w1, 0x104, 0x108);
    WordKeeps(b1, w0, 0x100, 0x10c);
    WordKeeps(b1, w0, 0x100, 0x108);
    WordKeeps(b1, w0, 0x100, 0x104);
  }

  lemma FalseMatchWord()
    ensures Decode(0x0053_8313) == OpImm(ADD, 6, 7, 5) && LoadConflict(0x0053_8313, 5)
    ensures ControlOf(0x0053_8313).Accept? && !IsLoad(0x0053_8313) && Covered(0x0053_8313, 5, 0x13)
    ensures var g := ControlOf(0x0053_8313).signals; !g.jmpCond && !g.brnCond && !g.isJalr
  {
  }

  lemma ImmediateGoes(s: Arch)
    requires Decode(Fetch(s)).OpImm? && Aligned(s.pc)
    ensures Step(s).Next? && Step(s).arch.pc == Add(s.pc, 4) && Step(s).arch.mem == s.mem
  {
    hide Add, Aligned, Read, Write, GetWord, Step, Decode, Arith, Rd;
    DecoderAgreement.DatapathIsIsa(s);
    AlignedNext(s.pc);
  }

  /** The state of a run in which nobody stores or branches. */
  lemma QuietIsBenign(s: Arch)
    requires Step(s).Next? && Step(s).arch.mem == s.mem && WellPlaced(Step(s).arch) && !Taken(s) && !IsLoad(Fetch(s))
    ensures Benign(s) && !Stalls(s)
  {
    hide Step, GetWord, Add, Taken, WellPlaced, IsLoad, ControlOf, LoadUseSafe, LoadConflict;
  }

  /** The load in front of a word with its number in the rs2 field, which is an immediate there. */
  lemma FalseMatchIsBenign(s: Arch)
    requires Fetch(s) == 0x1000_2283 && Step(s).Next? && Aligned(s.pc)
    requires GetWord(s.mem.bytes, Add(s.pc, 4)) == 0x0053_8313 && GetWord(s.mem.bytes, Add(Add(s.pc, 4), 4)) == 0x13
    requires Add(s.pc, 4) != 0
    ensures Benign(s) && Stalls(s) && !Taken(s)
  {
    hide Step, GetWord, Add, Taken, IsLoad, ControlOf, LoadConflict, Covered, Aligned, ExecuteOf, TargetOf, Poke,
         P.GetRd;
    LoadWords();
    FalseMatchWord();
    NopWord();
    LoadRuns(s);
    LoadNotTaken(s);
    ProvisionalOfPlain(s);
  }

  lemma ThreeSteps(s: Arch, n: nat)
    requires Steps(s, 3).Next? && Step(Steps(s, 3).arch).Trap? && Steps(s, n).Next?
    ensures n <= 3
  {
    hide Step, Steps;
    EndIsLast(s, 3, n);
  }

  function FalseMatch(): Arch {
    Arch(0x100, CLEAR, Mem(LongCode(0x1000_2283, 0x0053_8313, 0x13, 0x73), []), [])
  }

  /** The load and the addition of this program. */
  lemma FalseMatchStarts(s: Arch) returns (s1: Arch, s2: Arch)
    requires s == FalseMatch()
    ensures Step(s) == Next(s1) && Benign(s) && Stalls(s) && !Taken(s)
    ensures Step(s1) == Next(s2) && Benign(s1) && !Stalls(s1) && !Taken(s1)
    ensures s2.pc == 0x108 && s2.mem == s.mem
  {
    hide Add, Aligned, Read, GetWord, LongCode, CLEAR, Step, Decode, ControlOf, IsLoad, Taken, Benign, Stalls;
    LongCodeAt(0x1000_2283, 0x0053_8313, 0x13, 0x73);
    FourAndEight();
    FalseMatchWord();
    LoadGoes(s);
    FalseMatchIsBenign(s);
    s1 := Step(s).arch;
    ImmediateGoes(s1);
    PlainNotTaken(s1);
    s2 := Step(s1).arch;
    QuietIsBenign(s1);
  }

  /** Its nop and its ECALL. */
  lemma FalseMatchEnds(s: Arch, s2: Arch) returns (s3: Arch)
    requires s == FalseMatch() && s2.pc == 0x108 && s2.mem == s.mem
    ensures Step(s2) == Next(s3) && Benign(s2) && !Stalls(s2) && !Taken(s2)
    ensures Step(s3) == Trap(Ecall) && Benign(s3)
  {
    hide Add, Aligned, Read, GetWord, LongCode, CLEAR, Step, Decode, ControlOf, IsLoad, Taken, Benign, Stalls;
    LongCodeAt(0x1000_2283, 0x0053_8313, 0x13, 0x73);
    FourAndEight();
    FourWords();
    NopWord();
    ImmediateGoes(s2);
    NopNotTaken(s2);
    s3 := Step(s2).arch;
    EcallStep(s3);
    QuietIsBenign(s2);
  }

  lemma FalseMatchIsPlaced()
    ensures WellPlaced(FalseMatch()) && Aligned(FalseMatch().pc) && Read(FalseMatch().regFile, 0) == 0
  {
    hide Add, Aligned, Read, GetWord, LongCode, CLEAR;
    LongCodeAt(0x1000_2283, 0x0053_8313, 0x13, 0x73);
    FourAndEight();
    Zeros(0);
  }

  /** lw x5,0x100(x0); addi x6,x7,5; nop; ecall: the addition does not read x5, but the immediate 5 stands where
      other formats have rs2, and the pipeline halts for a tick: three instructions end with the counter at 5. */
  lemma FalseMatchCostsATick() returns (s: Arch)
    ensures s == Arch(0x100, CLEAR, Mem(LongCode(0x1000_2283, 0x0053_8313, 0x13, 0x73), []), [])
    ensures BenignRun(s) && Steps(s, 3).Next? && StallCount(s, 3) == 1 && TakenCount(s, 3) == 0
    ensures Ticks(StartOf(s), 6).Stopped? && Ticks(StartOf(s), 6).cause == Ecall
    ensures Ticks(StartOf(s), 6).final.ticksCounter == 5
  {
    hide Aligned, Read, LongCode, CLEAR, Step, Taken, Ticks, StartOf, Benign, Stalls, WellPlaced, GetWord;
    s := FalseMatch();
    FalseMatchIsPlaced();
    var s1, s2 := FalseMatchStarts(s);
    var s3 := FalseMatchEnds(s, s2);
    assert Steps(s, 0) == Next(s) && Steps(s, 1) == Next(s1) && Steps(s, 2) == Next(s2) && Steps(s, 3) == Next(s3);
    forall n: nat | Steps(s, n).Next?
      ensures Benign(Steps(s, n).arch)
    {
      ThreeSteps(s, n);
    }
    Counts(s, s1, s2);
    RunHalts(s, 3);
  }

  lemma LoadGoes(s: Arch)
    requires Fetch(s) == 0x1000_2283 && Aligned(s.pc)
    ensures Step(s).Next? && Step(s).arch.pc == Add(s.pc, 4) && Step(s).arch.mem == s.mem
  {
    hide Add, Aligned, Read, Write, GetWord, Step, Decode, LoadValue, Rd;
    LoadWords();
    DecoderAgreement.DatapathIsIsa(s);
    AlignedNext(s.pc);
  }

  lemma Counts(s: Arch, s1: Arch, s2: Arch)
    requires Steps(s, 0) == Next(s) && Steps(s, 1) == Next(s1) && Steps(s, 2) == Next(s2)
    requires Stalls(s) && !Stalls(s1) && !Stalls(s2) && !Taken(s) && !Taken(s1) && !Taken(s2)
    ensures StallCount(s, 3) == 1 && TakenCount(s, 3) == 0 && Cycles(s, 3) == 4
  {
    hide Stalls, Taken, Steps;
    assert StallCount(s, 0) == 0 && StallCount(s, 1) == 1 && StallCount(s, 2) == 1;
    assert TakenCount(s, 0) == 0 && TakenCount(s, 1) == 0 && TakenCount(s, 2) == 0;
  }
}
