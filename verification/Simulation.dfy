/** Proof that one tick of the pipeline keeps the invariant and refines the datapath. */
module Simulation {
  import opened Words
  import opened PipelineInstruction
  import opened ControlSignals
  import opened Memory
  import opened RegisterFile
  import opened Stages
  import opened PipelineStep
  import opened Datapath
  import opened Refinement
  import Alu

  lemma LoadModes(b: Bytes, mode: bv3, a: Word)
    ensures GetData(b, mode, a).Some? <==> ValidLoadMode(mode)
  {
    hide GetByte, GetHalf, GetWord, SignExtendFromByte, SignExtendFromByte2, ZeroExtend8, ZeroExtend16;
  }

  lemma StoreModes(m: Mem, mode: bv3, value: Word, a: Word)
    ensures StoreValue(m, mode, value, a).Some? ==> ValidLoadMode(mode)
  {
    hide SetByte, SetHalf, SetWord;
  }

  /** The memory unit behind its ports does what the memory stage asks for. */
  lemma AccessIsStage(ms: MemoryState, ports: DataMemPorts, mem: Mem)
    requires MemoryStage(ms, mem).Some? && ValidLoadMode(ports.storeMode)
    ensures ValidLoadMode(PortsOf(ms, ports).storeMode)
    ensures MemoryAccess(ms, PortsOf(ms, ports), mem) == MemoryStage(ms, mem)
  {
    hide GetData, StoreValue;
    var stored := MemoryStage(ms, mem).value.0;
    StoreModes(mem, ms.storeMode, ms.writeData, ms.aluRes);
    LoadModes(stored.bytes, ms.storeMode, ms.aluRes);
    LoadModes(stored.bytes, ports.storeMode, ports.address);
  }

  /** The memory stage of this tick. */
  lemma MemoryTick(p: Pipeline)
    requires Shape(p)
    ensures var ports := PortsOf(p.memory, p.ports);
      ValidLoadMode(ports.storeMode) &&
      MemoryAccess(p.memory, ports, p.mem) == Some((AbsMem(p), PendingWriteBack(p).wbD))
  {
    hide MemoryStage, MemoryAccess, PortsOf, ValidLoadMode, Read, Aligned;
    AccessIsStage(p.memory, p.ports, p.mem);
  }

  /** The machine after a tick in which the decoder accepts. */
  function Ticked(p: Pipeline): Pipeline
    requires MemoryStageOk(p) && Accepted(p.decode.instr)
  {
    var d := p.decode;
    var rf := WriteBack(p.regFile, p.writeBack);
    ClockEdge(p, ExecutedNow(p), AbsMem(p), PendingWriteBack(p), rf, PortsOf(p.memory, p.ports),
              DecodeStage(ControlOf(d.instr).signals, d.instr, d.pcDe, Read(rf, GetRs1(d.instr)),
                          Read(rf, GetRs2(d.instr)), ExecutedNow(p).pcR || d.vDe))
  }

  lemma TickAccepted(p: Pipeline)
    requires Shape(p) && Accepted(p.decode.instr)
    ensures if Aligned(NextNow(p)) then Tick(p) == Running(Ticked(p))
            else Tick(p).Stopped? && Tick(p).cause == Misaligned
  {
    hide ControlOf, ExecutedNow, DecodeStage, GetRs1, GetRs2, Read, WriteBack, Aligned, ClockEdge, MemoryAccess,
         PortsOf, NextNow, TraceNow;
    MemoryTick(p);
  }

  // ----- the execute stage -----

  /** How the control signals of an accepted word depend on its format. */
  lemma SignalFacts(w: Word)
    requires Accepted(w)
    ensures var s := ControlOf(w).signals; var t := GetInstructionType(GetOpcode(w));
      (s.memToReg <==> IsLoad(w)) &&
      (s.memToReg ==> s.wbWe && !s.memWe && !s.brnCond && !s.jmpCond) &&
      (s.memWe ==> t == SType && !s.brnCond && !s.jmpCond) &&
      (s.brnCond ==> t == BType) && (s.isJalr ==> s.jmpCond) &&
      (s.aluOp != Alu.ALUControl.NOP ==> t != JType && t != UNKNOWN) &&
      (s.aluOp != Alu.ALUControl.NOP && !s.aluSrc2 ==> t == RType)
  {
    hide GetOpcode, GetFunct3, GetFunct7, GetRs2, OpAlu, OpImmAlu, BranchCmp;
  }

  /** Operands that an instruction does not use do not matter. */
  lemma UnusedOperands(e: ExecuteState, a1: Word, b1: Word, a2: Word, b2: Word)
    requires ControlOf(e.instr) == Accept(e.signals)
    requires var t := GetInstructionType(GetOpcode(e.instr)); t != JType && t != UNKNOWN ==> a1 == a2
    requires UsesRs2(e.instr) ==> b1 == b2
    ensures var x, y := ExecuteStage(e, a1, b1), ExecuteStage(e, a2, b2);
      x.pcR == y.pcR && x.pcDisp == y.pcDisp &&
      x.memory == y.memory.(writeData := b1) && (x.memory.memWe ==> b1 == b2)
  {
    SignalFacts(e.instr);
    hide ControlOf, GetInstructionType, GetOpcode, ImmediateExtensionBlock, GetRd, Add, ClearBitZero;
    assert Alu.ALU(Alu.ALUControl.NOP, a1, b1) == Alu.ALU(Alu.ALUControl.NOP, a2, b2);
  }

  // ----- the hazard unit -----

  /** One selector: unless it waits for a load, it picks the value the register will have once the
      two older instructions have written back. */
  lemma SelectIsRight(rf: RegFile, wb: WriteBackState, ms: MemoryState, wbD: Word, uses: bool, rs: RegIdx)
    requires Read(rf, 0) == 0 && (!ms.memToReg ==> wbD == ms.aluRes)
    requires uses && !(ms.memToReg && Select(uses, rs, ms, wb) == MEM)
    ensures Multiplexer3(Select(uses, rs, ms, wb), Read(rf, rs), ms.aluRes, wb.wbD)
         == Read(WriteBack(WriteBack(rf, wb), WriteBackState(ms.wbWe, wbD, ms.wbA)), rs)
  {
    hide Read, Write;
    ReadAfterWrite(rf, wb.wbWe, wb.wbA, wb.wbD, rs);
    ReadAfterWrite(WriteBack(rf, wb), ms.wbWe, ms.wbA, wbD, rs);
  }

  /** After a running tick the selectors give every operand its architectural value, or the machine
      is halted for exactly the operands that wait for a load. */
  lemma HazardUnitSelects(q: Pipeline)
    requires MemoryStageOk(q) && Read(q.regFile, 0) == 0
    requires q.mustTakeHaltedWb == NONE && (q.memory.memToReg ==> q.memory.wbWe)
    requires q.execute.data1 == SourceA(q.execute.instr, q.execute.pcDe, Read(q.regFile, GetRs1(q.execute.instr)))
    requires q.execute.data2 == Read(q.regFile, GetRs2(q.execute.instr))
    requires var t := GetInstructionType(GetOpcode(q.execute.instr));
      q.huRs1 == Select(HasRs1(t), GetRs1(q.execute.instr), q.memory, q.writeBack) &&
      q.huRs2 == Select(HasRs2(t), GetRs2(q.execute.instr), q.memory, q.writeBack)
    requires q.enabled <==> !(q.memory.memToReg && (q.huRs1 == MEM || q.huRs2 == MEM))
    ensures if q.enabled then OperandsReady(q) else OperandsWaiting(q)
  {
    hide GetOpcode, GetRs1, GetRs2, Read, Write, StoreValue, GetData, WriteBack;
    var w := q.execute.instr;
    var t := GetInstructionType(GetOpcode(w));
    var wbD := PendingWriteBack(q).wbD;
    if HasRs1(t) && !(q.memory.memToReg && q.huRs1 == MEM) {
      SelectIsRight(q.regFile, q.writeBack, q.memory, wbD, true, GetRs1(w));
    }
    if HasRs2(t) && !(q.memory.memToReg && q.huRs2 == MEM) {
      SelectIsRight(q.regFile, q.writeBack, q.memory, wbD, true, GetRs2(w));
    }
  }

  /** The machine halts exactly on a load-use dependence. */
  lemma HaltsOnConflict(q: Pipeline)
    requires q.memory.memToReg ==> q.memory.wbWe
    requires var t := GetInstructionType(GetOpcode(q.execute.instr));
      q.huRs1 == Select(HasRs1(t), GetRs1(q.execute.instr), q.memory, q.writeBack) &&
      q.huRs2 == Select(HasRs2(t), GetRs2(q.execute.instr), q.memory, q.writeBack)
    requires q.enabled <==> !(q.memory.memToReg && (q.huRs1 == MEM || q.huRs2 == MEM))
    ensures Halted(q) <==> q.memory.memToReg && LoadConflict(q.execute.instr, q.memory.wbA)
  {
    hide GetOpcode, GetRs1, GetRs2;
  }

  /** Registers and memory of the abstraction after a running tick: the executed instruction counts. */
  lemma AbsAfterRun(p: Pipeline, q: Pipeline)
    requires MemoryStageOk(p) && Accepted(p.decode.instr) && p.enabled && q == Ticked(p)
    requires MemoryStage(ExecutedNow(p).memory, AbsMem(p)).Some?
    ensures MemoryStageOk(q)
    ensures var x := ExecutedNow(p).memory;
      var (mem, wbD) := MemoryStage(x, AbsMem(p)).value;
      AbsMem(q) == mem && AbsRegs(q) == Write(AbsRegs(p), x.wbWe, x.wbA, wbD)
  {
    hide MemoryStage, Write, ExecutedNow, NextNow, TraceNow, PrevPcNow, Select, ControlOf, DecodeStage, GetWord, Read,
         PortsOf;
  }

  /** x0 stays zero. */
  lemma ZeroRegister(rf: RegFile, w: WriteBackState)
    requires Read(rf, 0) == 0
    ensures Read(WriteBack(rf, w), 0) == 0
  {
    hide Read, Write;
    ReadAfterWrite(rf, w.wbWe, w.wbA, w.wbD, 0);
  }

  // ----- one tick, case by case -----

  lemma ZeroWord()
    ensures Accepted(0) && !UsesRs1(0) && !UsesRs2(0) && GetRd(0) == 0 && GetRs1(0) == 0 && GetRs2(0) == 0
    ensures GetInstructionType(GetOpcode(0)) == UNKNOWN && ImmediateExtensionBlock(0) == 0
    ensures var s := ControlOf(0).signals;
      !s.memWe && !s.memToReg && !s.brnCond && !s.jmpCond && !s.isJalr
  {
    assert GetOpcode(0) == 0;
  }

  lemma BubbleStage(e: ExecuteState, a: Word, b: Word)
    requires Bubble(e)
    ensures var x := ExecuteStage(e, a, b);
      !x.pcR && !x.memory.memWe && !x.memory.memToReg && x.memory.wbA == 0
  {
    hide Alu.ALU, Alu.Cmp, ImmediateExtensionBlock, Add, ClearBitZero;
    assert GetRd(0) == 0;
  }

  /** A bubble in the execute stage changes neither memory nor registers. */
  lemma BubbleCommits(p: Pipeline)
    requires MemoryStageOk(p) && Bubble(p.execute)
    ensures var x := ExecutedNow(p);
      !x.memory.memToReg && MemoryStage(x.memory, AbsMem(p)) == Some((AbsMem(p), x.memory.aluRes)) &&
      Write(AbsRegs(p), x.memory.wbWe, x.memory.wbA, x.memory.aluRes) == AbsRegs(p)
  {
    hide StoreValue, GetData, ExecuteStage, OperandA, OperandB, AbsRegs, AbsMem, MemoryStageOk, Write, Bubble;
    BubbleStage(p.execute, OperandA(p), OperandB(p));
    WriteZero(AbsRegs(p), ExecutedNow(p).memory.wbWe, ExecutedNow(p).memory.aluRes);
  }

  lemma BubbleNext(p: Pipeline)
    requires Bubble(p.execute)
    ensures !ExecutedNow(p).pcR && NextNow(p) == Add(p.programCounter, 4)
  {
    hide ExecuteStage, OperandA, OperandB;
    BubbleStage(p.execute, OperandA(p), OperandB(p));
  }

  /** A bubble in the execute stage lets the program counter run on and is not traced. */
  lemma BubbleRunsOn(p: Pipeline)
    requires Bubble(p.execute) && Aligned(p.programCounter)
    ensures !ExecutedNow(p).pcR && NextNow(p) == Add(p.programCounter, 4) && Aligned(NextNow(p)) &&
      TraceNow(p) == p.execTrace
  {
    hide ExecutedNow, NextNow, Aligned, Add;
    BubbleNext(p);
    AlignedNext(p.programCounter);
  }

  /** The two youngest stages of a tick that neither halts nor redirects. */
  lemma RunsOn(p: Pipeline, q: Pipeline)
    requires MemoryStageOk(p) && Accepted(p.decode.instr) && p.enabled && !ExecutedNow(p).pcR && q == Ticked(p)
    ensures q.programCounter == NextNow(p) && q.execTrace == TraceNow(p) && q.tracePrevPc == p.execute.pcDe
    ensures q.decode == DecodeState(false, p.programCounter, GetWord(AbsMem(p).bytes, p.programCounter))
    ensures q.mustTakeHaltedWb == NONE && q.ticksCounter == p.ticksCounter + 1
    ensures q.regFile == WriteBack(p.regFile, p.writeBack) && q.ports == PortsOf(p.memory, p.ports)
    ensures q.memory == ExecutedNow(p).memory
    ensures var d := p.decode; var e := q.execute;
      e.instr == d.instr && e.pcDe == d.pcDe && e.vDe == d.vDe && e.funct3 == GetFunct3(d.instr) &&
      e.signals == ControlOf(d.instr).signals &&
      e.data1 == SourceA(d.instr, d.pcDe, Read(q.regFile, GetRs1(d.instr))) &&
      e.data2 == Read(q.regFile, GetRs2(d.instr))
    ensures var t := GetInstructionType(GetOpcode(p.decode.instr));
      q.huRs1 == Select(HasRs1(t), GetRs1(q.execute.instr), q.memory, q.writeBack) &&
      q.huRs2 == Select(HasRs2(t), GetRs2(q.execute.instr), q.memory, q.writeBack)
    ensures q.enabled <==> !(q.memory.memToReg && (q.huRs1 == MEM || q.huRs2 == MEM))
  {
    hide ExecutedNow, NextNow, TraceNow, WriteBack, PortsOf, AbsMem, PendingWriteBack, Read, GetRs1, GetRs2, GetWord,
         GetInstructionType, GetOpcode, GetFunct3, ControlOf, Select, SourceA, MemoryStageOk;
  }

  lemma ShapeKept(p: Pipeline, q: Pipeline)
    requires Shape(p) && Accepted(p.decode.instr) && p.enabled && !ExecutedNow(p).pcR && q == Ticked(p)
    requires Aligned(NextNow(p)) && MemoryStage(ExecutedNow(p).memory, AbsMem(p)).Some?
    ensures Shape(q)
  {
    hide Add, Aligned, ExecutedNow, NextNow, ValidLoadMode, Ticked, AbsMem, AbsRegs, WriteBack, Read, MemoryStage,
         PortsOf, Select;
    MemoryTick(p);
    AbsAfterRun(p, q);
    RunsOn(p, q);
    ZeroRegister(p.regFile, p.writeBack);
  }

  /** Nothing has been fetched: the tick fetches the next instruction. */
  lemma TickFetches(p: Pipeline) returns (q: Pipeline)
    requires Inv(p) && Fill(p) == 0 && WellPlaced(Abs(p))
    ensures Tick(p) == Running(q) && Inv(q) && Fill(q) == 1 && !Halted(q)
    ensures Abs(q) == Abs(p) && q.ticksCounter == p.ticksCounter + 1
  {
    hide Add, Aligned, ExecutedNow, NextNow, ValidLoadMode, Ticked, AbsMem, AbsRegs, WriteBack, Read, MemoryStage,
         PortsOf, Select, MemoryStageOk, TraceNow, Tick, ControlOf, GetWord, GetInstructionType;
    ZeroWord();

    BubbleCommits(p);
    BubbleRunsOn(p);
    TickAccepted(p);
    q := Ticked(p);
    AbsAfterRun(p, q);
    ShapeKept(p, q);
    RunsOn(p, q);
  }

  /** The hazard unit on the instruction that enters the execute stage. */
  lemma OperandsAfterRun(p: Pipeline, q: Pipeline)
    requires Shape(p) && Accepted(p.decode.instr) && p.enabled && !ExecutedNow(p).pcR && q == Ticked(p)
    requires MemoryStage(ExecutedNow(p).memory, AbsMem(p)).Some?
    requires ExecutedNow(p).memory.memToReg ==> ExecutedNow(p).memory.wbWe
    ensures MemoryStageOk(q)
    ensures if q.enabled then OperandsReady(q) else OperandsWaiting(q)
    ensures Halted(q) <==> q.memory.memToReg && LoadConflict(q.execute.instr, q.memory.wbA)
  {
    hide Add, Aligned, ExecutedNow, NextNow, Ticked, AbsMem, AbsRegs, WriteBack, Read, MemoryStage, PortsOf, Select,
         MemoryStageOk, TraceNow, ControlOf, GetInstructionType, GetOpcode, OperandsReady, OperandsWaiting,
         ValidLoadMode, GetRs1, GetRs2, SourceA, GetWord, HasRs1, HasRs2, GetFunct3, LoadConflict;
    AbsAfterRun(p, q);
    RunsOn(p, q);
    ZeroRegister(p.regFile, p.writeBack);
    HazardUnitSelects(q);
    HaltsOnConflict(q);
  }

  /** The first instruction after a refill is decoded; its operands are ready. */
  lemma TickDecodes(p: Pipeline) returns (q: Pipeline)
    requires Inv(p) && Fill(p) == 1 && WellPlaced(Abs(p)) && Accepted(p.decode.instr)
    ensures Tick(p) == Running(q) && Inv(q) && Fill(q) == 2 && !Halted(q)
    ensures Abs(q) == Abs(p) && q.ticksCounter == p.ticksCounter + 1
  {
    hide Add, Aligned, ExecutedNow, NextNow, ValidLoadMode, Ticked, AbsMem, AbsRegs, WriteBack, Read, MemoryStage,
         PortsOf, Select, MemoryStageOk, TraceNow, Tick, ControlOf, GetWord, GetInstructionType, GetOpcode,
         OperandsReady, OperandsWaiting, GetRs1, GetRs2, SourceA, HasRs1, HasRs2, GetFunct3;
    BubbleCommits(p);
    BubbleRunsOn(p);
    TickAccepted(p);
    q := Ticked(p);
    AbsAfterRun(p, q);
    ShapeKept(p, q);
    RunsOn(p, q);
    OperandsAfterRun(p, q);
  }

  /** The execute stage reads its operands from the multiplexers only. */
  lemma SameRecord(e: ExecuteState, data1: Word, data2: Word, a: Word, b: Word)
    ensures ExecuteStage(e, a, b) == ExecuteStage(e.(data1 := data1, data2 := data2), a, b)
  {
    hide Alu.ALU, Alu.Cmp, ImmediateExtensionBlock, GetRd, Add, ClearBitZero;
  }

  predicate SameEffect(x: Executed, y: Executed) {
    x.pcR == y.pcR && x.pcDisp == y.pcDisp && x.memory == y.memory.(writeData := x.memory.writeData) &&
    (x.memory.memWe ==> x.memory.writeData == y.memory.writeData)
  }

  lemma SameMemoryStage(x: Executed, y: Executed, mem: Mem)
    requires SameEffect(x, y)
    ensures MemoryStage(x.memory, mem) == MemoryStage(y.memory, mem)
  {
    hide StoreValue, GetData;
  }

  /** With ready operands the execute stage computes what the instruction means. */
  lemma ExecutesAs(p: Pipeline, s: Arch)
    requires p.execute.instr == Fetch(s) && p.execute.pcDe == s.pc && !p.execute.vDe
    requires ControlOf(p.execute.instr) == Accept(p.execute.signals) && p.execute.funct3 == GetFunct3(p.execute.instr)
    requires OperandAIs(p.execute.instr, s.pc, s.regFile, OperandA(p)) &&
      OperandBIs(p.execute.instr, s.regFile, OperandB(p))
    ensures SameEffect(ExecutedNow(p), ExecuteOf(s, p.execute.signals, p.execute.instr))
  {
    hide ControlOf, ExecuteStage, OperandA, OperandB, GetInstructionType, GetOpcode, GetWord, Read, SourceA;
    var e := p.execute;
    var f := RecordOf(s, e.signals, e.instr);
    assert f == e.(data1 := f.data1, data2 := f.data2);
    SameRecord(e, f.data1, f.data2, OperandA(p), OperandB(p));
    UnusedOperands(f, OperandA(p), OperandB(p), f.data1, f.data2);
    UnusedOperands(f, f.data1, f.data2, f.data1, f.data2);
  }

  /** The program counter after the execute stage: a target, or straight on. */
  lemma NextAgrees(p: Pipeline, s: Arch)
    requires SameEffect(ExecutedNow(p), ExecuteOf(s, p.execute.signals, p.execute.instr))
    requires p.execute.pcDe == s.pc && ControlOf(p.execute.instr) == Accept(p.execute.signals)
    ensures var x := ExecutedNow(p);
      if x.pcR then NextNow(p) == TargetOf(s, p.execute.signals, p.execute.instr)
      else NextNow(p) == Add(p.programCounter, 4) && TargetOf(s, p.execute.signals, p.execute.instr) == Add(s.pc, 4)
  {
    hide Add, ControlOf, GetOpcode, GetInstructionType, OperandA, OperandB, GetWord, ImmediateExtensionBlock, Alu.ALU,
         Alu.Cmp, RecordOf, ClearBitZero;
    SignalFacts(p.execute.instr);
  }

  /** The provisional evaluation of a halted consumer happens in the provisional state. */
  lemma HaltIsProvisional(q: Pipeline, s: Arch)
    requires MemoryStageOk(q) && OperandsWaiting(q) && s.regFile == AbsRegs(q)
    ensures var e := q.execute; var r := Provisional(s, q.memory.wbA, q.memory.aluRes);
      OperandAIs(e.instr, e.pcDe, r.regFile, OperandA(q)) && OperandBIs(e.instr, r.regFile, OperandB(q))
  {
    hide AbsRegs, GetRs1, GetRs2, MemoryStageOk, GetOpcode, Read, Poke;
    var w := q.execute.instr;
    ReadAfterPoke(s.regFile, q.memory.wbA, q.memory.aluRes, GetRs1(w));
    ReadAfterPoke(s.regFile, q.memory.wbA, q.memory.aluRes, GetRs2(w));
  }

  /** The execute stage holds the next instruction, with its operands; the words behind it may be any. */
  predicate Executing(p: Pipeline) {
    Shape(p) && Commits(p) && ExecuteHolds(p) && OperandsReady(p)
  }

  /** An executing instruction, seen from the abstraction. */
  lemma ExecuteRefines(p: Pipeline)
    requires Executing(p)
    ensures var s := Abs(p); var e := p.execute;
      Fetch(s) == e.instr && SameEffect(ExecutedNow(p), ExecuteOf(s, e.signals, e.instr)) &&
      (ExecutedNow(p).pcR <==> Taken(s))
  {
    hide Add, Aligned, ExecutedNow, NextNow, ValidLoadMode, AbsMem, AbsRegs, Read, MemoryStageOk, ControlOf, GetWord,
         ExecuteOf, GetFunct3, GetOpcode, GetInstructionType, SourceA, GetRs1, GetRs2, OperandA, OperandB;
    ExecutesAs(p, Abs(p));
  }

  /** What the datapath does in one step, in terms of the execute stage of the pipeline. */
  lemma StepRefines(p: Pipeline)
    requires Executing(p)
    ensures var s := Abs(p); var e := p.execute; var x := ExecutedNow(p);
      var done := MemoryStage(x.memory, AbsMem(p));
      var next := TargetOf(s, e.signals, e.instr);
      Step(s) == if !Aligned(next) then Trap(Misaligned)
                 else if done.None? then Trap(InvalidMemoryMode)
                 else Next(Arch(next, Write(AbsRegs(p), x.memory.wbWe, x.memory.wbA, done.value.1), done.value.0,
                                TraceNow(p)))
  {
    hide Add, Aligned, ExecutedNow, ValidLoadMode, AbsMem, AbsRegs, Read, Write, MemoryStage, MemoryStageOk,
         ControlOf, GetWord, ExecuteOf, TargetOf, GetFunct3, OperandsReady;
    ExecuteRefines(p);
    SameMemoryStage(ExecutedNow(p), ExecuteOf(Abs(p), p.execute.signals, p.execute.instr), AbsMem(p));
  }

  /** The memory-stage record of a load names its destination and its address. */
  lemma LoadRecord(p: Pipeline, s: Arch)
    requires SameEffect(ExecutedNow(p), ExecuteOf(s, p.execute.signals, p.execute.instr))
    requires ControlOf(p.execute.instr) == Accept(p.execute.signals) && !p.execute.vDe
    ensures var ms := ExecutedNow(p).memory; var w := p.execute.instr;
      ms.wbA == GetRd(w) && ms.aluRes == ExecuteOf(s, p.execute.signals, w).memory.aluRes &&
      (ms.memToReg <==> IsLoad(w)) && (ms.memToReg ==> ms.wbWe && !ms.memWe)
  {
    hide Add, ControlOf, OperandA, OperandB, ImmediateExtensionBlock, Alu.ALU, Alu.Cmp, ClearBitZero, GetRd,
         GetOpcode, GetInstructionType, ExecuteOf, IsLoad;
    SignalFacts(p.execute.instr);
  }

  /** A load whose consumer follows is LoadUseSafe, so the halt is safe. */
  lemma HaltBecomesSafe(q: Pipeline, s: Arch, next: Arch)
    requires MemoryStageOk(q) && Aligned(q.programCounter) && Fill(q) == 2 && OperandsWaiting(q) && next == Abs(q)
    requires ExecuteHolds(q) && DecodeHolds(q) && q.decode.pcDe == Add(q.execute.pcDe, 4) && !q.execute.vDe
    requires Accepted(Fetch(s)) && LoadUseSafe(s, next)
    requires q.memory.wbA == GetRd(Fetch(s))
    requires q.memory.aluRes == ExecuteOf(s, ControlOf(Fetch(s)).signals, Fetch(s)).memory.aluRes
    ensures HaltSafe(q)
  {
    hide Add, Aligned, AbsMem, AbsRegs, Read, MemoryStageOk, ControlOf, GetWord, ExecuteOf, TargetOf, GetRd,
         GetOpcode, GetInstructionType, OperandsWaiting, OperandA, OperandB, LoadConflict, Covered, ExecutedNow,
         NextNow, SourceA, Poke;
    var r := Provisional(next, q.memory.wbA, q.memory.aluRes);
    assert LoadConflict(q.execute.instr, q.memory.wbA) by { LoadConflictOf(q); }
    HaltIsProvisional(q, next);
    ExecutesAs(q, r);
    NextAgrees(q, r);
    AlignedNext(q.programCounter);
  }

  lemma LoadConflictOf(q: Pipeline)
    requires MemoryStageOk(q) && OperandsWaiting(q)
    ensures LoadConflict(q.execute.instr, q.memory.wbA)
  {
    hide LoadConflict, AbsRegs, MemoryStageOk, GetOpcode, GetInstructionType, Read;
  }

  /** An executed instruction that does not redirect: the next one enters the execute stage. */
  lemma TickExecutes(p: Pipeline) returns (q: Pipeline)
    requires Inv(p) && Commits(p) && Benign(Abs(p)) && Accepted(p.decode.instr) && !Taken(Abs(p))
    ensures Tick(p) == Running(q) && Inv(q) && Fill(q) == 2
    ensures Step(Abs(p)) == Next(Abs(q)) && q.ticksCounter == p.ticksCounter + 1
    ensures Halted(q) <==> Stalls(Abs(p))
  {
    hide Add, Aligned, ExecutedNow, NextNow, ValidLoadMode, Ticked, AbsMem, AbsRegs, WriteBack, Read, Write,
         MemoryStage, PortsOf, Select, MemoryStageOk, TraceNow, Tick, ControlOf, GetWord, GetInstructionType,
         GetOpcode, OperandsReady, OperandsWaiting, GetRs1, GetRs2, GetRd, SourceA, HasRs1, HasRs2, GetFunct3,
         ExecuteOf, TargetOf, Step, LoadUseSafe, Taken, IsLoad, SameEffect, HaltSafe, LoadConflict;
    var s := Abs(p);
    ExecuteRefines(p);
    StepRefines(p);
    NextAgrees(p, s);
    AlignedNext(p.programCounter);
    LoadRecord(p, s);
    TickAccepted(p);
    q := Ticked(p);
    AbsAfterRun(p, q);
    ShapeKept(p, q);
    RunsOn(p, q);
    OperandsAfterRun(p, q);
    AddFourDiffers(p.execute.pcDe);
    if Halted(q) {
      HaltBecomesSafe(q, s, Abs(q));
    }
  }

  /** The front of the machine after a tick that redirects. */
  lemma Redirects(p: Pipeline, q: Pipeline)
    requires Shape(p) && Accepted(p.decode.instr) && p.enabled && ExecutedNow(p).pcR && q == Ticked(p)
    requires Aligned(NextNow(p)) && MemoryStage(ExecutedNow(p).memory, AbsMem(p)).Some?
    ensures q.programCounter == NextNow(p) && q.execTrace == TraceNow(p) && q.ticksCounter == p.ticksCounter + 1
    ensures q.decode == CLEAR_DECODE && q.execute == CLEAR_EXECUTE && q.enabled
    ensures Shape(q)
  {
    hide Aligned, ExecutedNow, NextNow, ValidLoadMode, AbsMem, AbsRegs, WriteBack, Read, MemoryStage, PortsOf, Select,
         TraceNow, ControlOf, GetWord, DecodeStage, GetOpcode, GetRs1, GetRs2;
    MemoryTick(p);
    AbsAfterRun(p, q);
    ZeroRegister(p.regFile, p.writeBack);
  }

  lemma LoadsRunOn(s: Arch)
    requires Taken(s)
    ensures !Stalls(s)
  {
    hide ControlOf, GetWord, GetOpcode, GetInstructionType, Alu.ALU, Alu.Cmp, Add, ClearBitZero, IsLoad, Read,
         ImmediateExtensionBlock, SourceA, Step, LoadConflict;
    SignalFacts(Fetch(s));
  }

  /** A taken transfer: the two younger instructions are squashed. */
  lemma TickRedirects(p: Pipeline) returns (q: Pipeline)
    requires Inv(p) && Commits(p) && Benign(Abs(p)) && Taken(Abs(p))
    ensures Tick(p) == Running(q) && Inv(q) && Fill(q) == 0 && !Halted(q)
    ensures Step(Abs(p)) == Next(Abs(q)) && q.ticksCounter == p.ticksCounter + 1
  {
    hide Add, Aligned, ExecutedNow, NextNow, ValidLoadMode, Ticked, AbsMem, AbsRegs, WriteBack, Read, Write,
         MemoryStage, PortsOf, Select, MemoryStageOk, TraceNow, Tick, ControlOf, GetWord, GetInstructionType,
         GetOpcode, OperandsReady, OperandsWaiting, GetRs1, GetRs2, GetRd, SourceA, HasRs1, HasRs2, GetFunct3,
         ExecuteOf, TargetOf, Step, LoadUseSafe, Taken, IsLoad, SameEffect, HaltSafe, LoadConflict;
    ExecuteRefines(p);
    StepRefines(p);
    NextAgrees(p, Abs(p));
    TickAccepted(p);
    q := Ticked(p);
    AbsAfterRun(p, q);
    Redirects(p, q);
  }

  /** A halt lasts one tick: the load moves on, a bubble follows it, the consumer stays. */
  lemma HaltsOnce(p: Pipeline, q: Pipeline)
    requires Shape(p) && Accepted(p.decode.instr) && Halted(p) && q == Ticked(p)
    ensures q.programCounter == p.programCounter && q.decode == p.decode && q.execute == p.execute
    ensures q.execTrace == p.execTrace && q.tracePrevPc == p.tracePrevPc && q.ticksCounter == p.ticksCounter + 1
    ensures q.memory == CLEAR_MEMORY && q.writeBack == PendingWriteBack(p) && !Halted(q)
    ensures Shape(q) && AbsMem(q) == AbsMem(p) && AbsRegs(q) == AbsRegs(p)
    ensures var t := GetInstructionType(GetOpcode(p.decode.instr));
      q.huRs1 == Select(HasRs1(t), GetRs1(q.execute.instr), q.memory, q.writeBack) &&
      q.huRs2 == Select(HasRs2(t), GetRs2(q.execute.instr), q.memory, q.writeBack)
    ensures p.huRs1 == WB ==> q.mustTakeHaltedWb == RS1 && q.haltedWb == p.writeBack.wbD
    ensures p.huRs1 != WB && p.huRs2 == WB ==> q.mustTakeHaltedWb == RS2 && q.haltedWb == p.writeBack.wbD
    ensures p.huRs1 != WB && p.huRs2 != WB ==> q.mustTakeHaltedWb == p.mustTakeHaltedWb
  {
    hide Aligned, ExecutedNow, NextNow, ValidLoadMode, Read, Write, PortsOf, Select, StoreValue, GetData, ControlOf,
         GetWord, DecodeStage, GetOpcode, GetInstructionType, GetRs1, GetRs2, HasRs1, HasRs2;
    MemoryTick(p);
    ZeroRegister(p.regFile, p.writeBack);
    WriteZero(AbsRegs(p), false, 0);
  }

  /** The selectors after a halt: the loaded value for the operands that waited for it, if the format
      of the decoded word shows them, and otherwise what was selected during the halt. */
  lemma HaltForwards(p: Pipeline, q: Pipeline)
    requires Shape(p) && Accepted(p.decode.instr) && Halted(p) && OperandsWaiting(p) && q == Ticked(p)
    ensures var w := p.execute.instr; var t := GetInstructionType(GetOpcode(p.decode.instr)); var rd := p.memory.wbA;
      (UsesRs1(w) && GetRs1(w) != rd ==> OperandA(q) == OperandA(p)) &&
      (UsesRs2(w) && GetRs2(w) != rd ==> OperandB(q) == OperandB(p)) &&
      (UsesRs1(w) && GetRs1(w) == rd ==>
        OperandA(q) == if HasRs1(t) then PendingWriteBack(p).wbD else p.execute.data1) &&
      (UsesRs2(w) && GetRs2(w) == rd ==>
        OperandB(q) == if HasRs2(t) then PendingWriteBack(p).wbD else p.execute.data2)
  {
    hide Aligned, Read, Write, StoreValue, GetData, ControlOf, GetWord, GetOpcode, GetRs1, GetRs2, Ticked, AbsRegs,
         Shape;
    HaltsOnce(p, q);
  }

  /** The load has written its register. */
  lemma LoadedValue(p: Pipeline)
    requires MemoryStageOk(p) && OperandsWaiting(p)
    ensures Read(AbsRegs(p), p.memory.wbA) == PendingWriteBack(p).wbD
  {
    hide Read, Write, StoreValue, GetData, GetOpcode, GetRs1, GetRs2, GetInstructionType, OperandA, OperandB,
         MemoryStage;
    var w := PendingWriteBack(p);
    ReadAfterWrite(WriteBack(p.regFile, p.writeBack), w.wbWe, w.wbA, w.wbD, w.wbA);
  }

  /** A halt ends with both operands ready, provided the decoded word does not hide the dependence. */
  lemma HaltEndsReady(p: Pipeline, q: Pipeline)
    requires Shape(p) && Accepted(p.decode.instr) && Halted(p) && OperandsWaiting(p) && q == Ticked(p)
    requires Covered(p.execute.instr, p.memory.wbA, p.decode.instr)
    ensures MemoryStageOk(q) && OperandsReady(q)
  {
    hide Aligned, Read, Write, WriteBack, MemoryStage, ControlOf, GetWord, GetOpcode, GetRs1, GetRs2, Ticked, AbsRegs,
         OperandA, OperandB, PendingWriteBack;
    HaltsOnce(p, q);
    HaltForwards(p, q);
    LoadedValue(p);
  }

  /** A halted tick changes nothing that the abstraction sees. */
  lemma TickHalts(p: Pipeline) returns (q: Pipeline)
    requires Inv(p) && Fill(p) == 2 && Halted(p)
    ensures Tick(p) == Running(q) && Inv(q) && Fill(q) == 2 && !Halted(q)
    ensures Abs(q) == Abs(p) && q.ticksCounter == p.ticksCounter + 1
  {
    hide Add, Aligned, NextNow, AbsMem, AbsRegs, MemoryStage, MemoryStageOk, Tick, Ticked, ControlOf, GetWord,
         GetInstructionType, GetOpcode, OperandsReady, OperandsWaiting, Select, GetRs1, GetRs2, GetFunct3, Covered,
         Read;
    TickAccepted(p);
    q := Ticked(p);
    HaltsOnce(p, q);
    HaltEndsReady(p, q);
  }

  /** The halt protocol: a halt waits for a load, lasts one tick, holds the three front registers, sends one
      bubble, and at most one operand is on its way through write-back, so one saved value suffices. */
  lemma HaltProtocol(p: Pipeline) returns (q: Pipeline)
    requires Inv(p) && Halted(p)
    ensures p.memory.memToReg && !(p.huRs1 == WB && p.huRs2 == WB)
    ensures Tick(p) == Running(q) && Inv(q) && !Halted(q) && Abs(q) == Abs(p)
    ensures q.programCounter == p.programCounter && q.decode == p.decode && q.execute == p.execute &&
      q.memory == CLEAR_MEMORY
  {
    OneSlot(p);
    hide Add, Aligned, NextNow, AbsMem, AbsRegs, MemoryStage, MemoryStageOk, Tick, Ticked, ControlOf, GetWord,
         GetInstructionType, GetOpcode, OperandsReady, OperandsWaiting, Select, GetRs1, GetRs2, GetFunct3, Covered,
         Read;
    TickAccepted(p);
    q := TickHalts(p);
    HaltsOnce(p, q);
  }

  lemma OneSlot(p: Pipeline)
    requires MemoryStageOk(p) && OperandsWaiting(p)
    ensures p.memory.memToReg && !(p.huRs1 == WB && p.huRs2 == WB)
  {
    hide AbsRegs, MemoryStageOk, Read, GetOpcode, GetInstructionType, GetRs1, GetRs2, HasRs1, HasRs2, OperandA,
         OperandB;
  }

  // ----- the end of a run -----

  /** The machine stops because the word at s does not execute; s is what it leaves behind. */
  predicate StopsAt(o: Outcome, s: Arch, ticks: nat) {
    Step(s).Trap? &&
    o == Stopped(Step(s).cause, Final(s.regFile, s.mem, TrapTrace(s, Step(s).cause), ticks))
  }

  /** ECALL and EBREAK are recorded, invalid words are not. */
  function TrapTrace(s: Arch, cause: Cause): seq<ExecEvent> {
    if cause == Ecall || cause == Ebreak then s.execTrace + [ExecEvent(Fetch(s), s.pc)] else s.execTrace
  }

  /** The drain finishes the instruction in the execute stage and the one before it. */
  lemma Drains(p: Pipeline)
    requires Shape(p) && !Accepted(p.decode.instr) && MemoryStage(ExecutedNow(p).memory, AbsMem(p)).Some?
    ensures var x := ExecutedNow(p).memory; var d := p.decode;
      var cause := ControlOf(d.instr).cause;
      var (mem, wbD) := MemoryStage(x, AbsMem(p)).value;
      var trace := if cause == Ecall || cause == Ebreak
                   then TraceExecuted(TraceNow(p), PrevPcNow(p), d.instr, d.pcDe) else TraceNow(p);
      Tick(p) == Stopped(cause, Final(Write(AbsRegs(p), x.wbWe, x.wbA, wbD), mem, trace, p.ticksCounter))
  {
    hide MemoryStage, MemoryAccess, PortsOf, ValidLoadMode, Read, Write, Aligned, ExecutedNow, ControlOf, TraceNow,
         PrevPcNow, TraceExecuted, NextNow, ClockEdge, AbsMem, MemoryStageOk;
    MemoryTick(p);
    AccessIsStage(ExecutedNow(p).memory, PortsOf(p.memory, p.ports), AbsMem(p));
  }

  /** The word in decode does not execute and everything before it has been executed by this tick. */
  lemma TickStops(p: Pipeline, s: Arch)
    requires Inv(p) && Fill(p) > 0 && !Halted(p) && !Accepted(p.decode.instr) && Benign(Abs(p))
    requires WellPlaced(Abs(p)) && !Taken(Abs(p))
    requires if Fill(p) == 2 then Step(Abs(p)) == Next(s) else s == Abs(p)
    ensures StopsAt(Tick(p), s, p.ticksCounter) && Tick(p).Stopped?
  {
    hide Add, Aligned, ExecutedNow, NextNow, ValidLoadMode, Ticked, AbsMem, AbsRegs, WriteBack, Read, Write,
         MemoryStage, PortsOf, Select, MemoryStageOk, Tick, ControlOf, GetWord, GetInstructionType, GetOpcode,
         OperandsReady, OperandsWaiting, GetRs1, GetRs2, GetRd, SourceA, HasRs1, HasRs2, GetFunct3, ExecuteOf,
         TargetOf, LoadUseSafe, Taken, IsLoad, SameEffect, HaltSafe, LoadConflict;
    ZeroWord();
    if Fill(p) == 2 {
      ExecuteRefines(p);
      StepRefines(p);
      NextAgrees(p, Abs(p));
      AddFourDiffers(p.execute.pcDe);
    } else {
      BubbleCommits(p);
      BubbleRunsOn(p);
    }
    Drains(p);
  }

  // ----- the simulation theorem -----

  /** Ticks that the machine has spent on instructions it has not executed yet. */
  function Credit(p: Pipeline): int {
    Fill(p) - if Halted(p) then 1 else 0
  }

  function Cost(s: Arch): nat {
    1 + (if Taken(s) then 2 else 0) + (if Stalls(s) then 1 else 0)
  }

  /** One tick is one instruction when the execute stage holds one and is not halted, and no
      instruction otherwise; its time is accounted for exactly. */
  lemma TickRefines(p: Pipeline)
    requires Inv(p) && WellPlaced(Abs(p)) && Benign(Abs(p))
    ensures match Tick(p)
      case Running(q) =>
        Inv(q) && WellPlaced(Abs(q)) && q.ticksCounter == p.ticksCounter + 1 &&
        if Commits(p) then Step(Abs(p)) == Next(Abs(q)) && Credit(q) + Cost(Abs(p)) == Credit(p) + 1
        else Abs(q) == Abs(p) && Credit(q) == Credit(p) + 1
      case Stopped(cause, final) =>
        Fill(p) > 0 && !Halted(p) && !Accepted(p.decode.instr) &&
        if Fill(p) == 2 then
          Step(Abs(p)).Next? && !Taken(Abs(p)) && !Stalls(Abs(p)) &&
          StopsAt(Tick(p), Step(Abs(p)).arch, p.ticksCounter)
        else StopsAt(Tick(p), Abs(p), p.ticksCounter)
  {
    hide Add, Aligned, AbsMem, AbsRegs, Read, Tick, ControlOf, GetWord, GetRd, ExecutedNow, NextNow, OperandsReady,
         OperandsWaiting, Taken, IsLoad, LoadConflict, LoadUseSafe, HaltSafe, Step, StopsAt;
    if Fill(p) == 0 {
      var q := TickFetches(p);
    } else if Halted(p) {
      var q := TickHalts(p);
    } else if Fill(p) == 1 {
      if Accepted(p.decode.instr) {
        var q := TickDecodes(p);
      } else {
        NotAcceptedNotTaken(p);
        TickStops(p, Abs(p));
      }
    } else if Taken(Abs(p)) {
      var q := TickRedirects(p);
      LoadsRunOn(Abs(p));
    } else if Accepted(p.decode.instr) {
      var q := TickExecutes(p);
    } else {
      StepIsNext(p);
      TickStops(p, Step(Abs(p)).arch);
    }
  }

  lemma NotAcceptedNotTaken(p: Pipeline)
    requires Inv(p) && Fill(p) == 1 && !Accepted(p.decode.instr)
    ensures !Taken(Abs(p))
  {
    hide AbsMem, AbsRegs, ControlOf, GetWord, ExecuteOf, MemoryStageOk, Aligned, ValidLoadMode, Read;
  }

  lemma StepIsNext(p: Pipeline)
    requires Inv(p) && Commits(p) && Benign(Abs(p))
    ensures Step(Abs(p)).Next? && (!Accepted(p.decode.instr) && !Taken(Abs(p)) ==> !Stalls(Abs(p)))
  {
    hide Add, Aligned, AbsMem, AbsRegs, Read, Write, MemoryStage, MemoryStageOk, ControlOf, GetWord, GetRd,
         ExecutedNow, TargetOf, OperandsReady, Taken, IsLoad, LoadConflict, LoadUseSafe, HaltSafe, SameEffect,
         ExecuteOf;
    StepRefines(p);
    ExecuteRefines(p);
    NextAgrees(p, Abs(p));
  }
}
