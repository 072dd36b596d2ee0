/** Where the pipeline departs from the sequential meaning of a program. For each condition of Datapath.Benign
    there is an if-and-only-if: about the final state (a rejected word), the operands (a load-use halt) or the
    executed words that are recorded (zero words, address zero, stores into the code). */
module Limits {
  import opened Words
  import opened PipelineInstruction
  import opened ControlSignals
  import opened Memory
  import opened RegisterFile
  import opened Stages
  import opened PipelineStep
  import opened Datapath
  import opened Refinement
  import opened Simulation
  import opened Runs
  import Alu

  /** A halt ends with the right operands if and only if, for every operand that waited for the load,
      the format of the word in decode has that operand field, or the stale value happens to be the
      loaded one. The hazard unit looks at the wrong instruction while the pipeline is halted
      (models/pipeline/pipeline/pipeline.cpp:221-222). */
  lemma HaltIsRightExactlyWhenCovered(p: Pipeline, q: Pipeline)
    requires Shape(p) && Accepted(p.decode.instr) && Halted(p) && OperandsWaiting(p) && q == Ticked(p)
    ensures MemoryStageOk(q)
    ensures var w := p.execute.instr; var t := GetInstructionType(GetOpcode(p.decode.instr)); var rd := p.memory.wbA;
      OperandsReady(q) <==>
        (UsesRs1(w) && GetRs1(w) == rd && !HasRs1(t) ==> p.execute.data1 == PendingWriteBack(p).wbD) &&
        (UsesRs2(w) && GetRs2(w) == rd && !HasRs2(t) ==> p.execute.data2 == PendingWriteBack(p).wbD)
  {
    hide Aligned, Read, Write, WriteBack, MemoryStage, ControlOf, GetWord, GetOpcode, GetRs1, GetRs2, Ticked, AbsRegs,
         OperandA, OperandB, PendingWriteBack;
    HaltsOnce(p, q);
    HaltForwards(p, q);
    LoadedValue(p);
  }

  /** While it is halted the machine goes on exactly if the provisional target is aligned. */
  lemma HaltedTickRuns(p: Pipeline)
    requires Shape(p) && Accepted(p.decode.instr) && Halted(p)
    ensures MemoryStageOk(p) && (Tick(p).Running? <==> Aligned(NextNow(p)))
    ensures Tick(p) == if Tick(p).Running? then Running(Ticked(p)) else Stopped(Misaligned, Tick(p).final)
  {
    hide Tick, Aligned, NextNow, ControlOf, MemoryStageOk, Read, ValidLoadMode, Ticked;
    TickAccepted(p);
  }

  /** The state in which the decoder sees a word that it rejects (ECALL, EBREAK or an invalid one) right
      behind an instruction that is about to leave the execute stage. */
  predicate RejectedInDecode(p: Pipeline) {
    Shape(p) && Fill(p) == 2 && ExecuteHolds(p) && p.decode.pcDe == Add(p.execute.pcDe, 4) &&
    (if Halted(p) then OperandsWaiting(p) else OperandsReady(p)) && !Accepted(p.decode.instr) && Step(Abs(p)).Next?
  }

  /** The program ends at r as the drain ends it: with ECALL or EBREAK, which are recorded, by that very word at
      that location; with an invalid word, which is not recorded, anywhere. */
  predicate EndsThere(r: Arch, cause: Cause, d: DecodeState) {
    if cause == InvalidInstruction then Step(r) == Trap(InvalidInstruction) else r.pc == d.pcDe && Fetch(r) == d.instr
  }

  /** The execution trace that the drain leaves. */
  function DrainTrace(trace: seq<ExecEvent>, cause: Cause, d: DecodeState): seq<ExecEvent> {
    if cause == InvalidInstruction then trace else trace + [ExecEvent(d.instr, d.pcDe)]
  }

  lemma RejectCauses(w: Word)
    requires !Accepted(w)
    ensures ControlOf(w).cause == Ecall || ControlOf(w).cause == Ebreak || ControlOf(w).cause == InvalidInstruction
  {
    hide GetOpcode, GetFunct3, GetFunct7, GetRs2, OpAlu, OpImmAlu, BranchCmp;
  }

  lemma RejectTraps(s: Arch)
    requires !Accepted(Fetch(s))
    ensures Step(s) == Trap(ControlOf(Fetch(s)).cause)
  {
    hide ControlOf, GetWord;
  }

  /** A drain during a halt never records the instruction that was halted. */
  lemma HaltedDrainLosesOne(p: Pipeline)
    requires Shape(p) && Halted(p) && !Accepted(p.decode.instr)
    ensures Tick(p).Stopped?
    ensures Tick(p).final.execTrace == p.execTrace ||
            Tick(p).final.execTrace == p.execTrace + [ExecEvent(p.decode.instr, p.decode.pcDe)]
  {
    hide MemoryAccess, PortsOf, Read, Write, Aligned, ExecutedNow, ControlOf, NextNow, ClockEdge, AbsMem,
         MemoryStageOk, OperandsWaiting, ExecuteHolds, DecodeHolds, Step, StoreSpares, ValidLoadMode, AbsRegs, Add,
         WriteBack;
    MemoryTick(p);
  }

  /** An executed instruction is recorded. */
  lemma StepTraces(s: Arch)
    requires Step(s).Next?
    ensures Accepted(Fetch(s)) && Step(s).arch.execTrace == s.execTrace + [ExecEvent(Fetch(s), s.pc)]
  {
    hide ControlOf, GetWord, ExecuteOf, TargetOf, Aligned, MemoryStage, Write;
  }

  lemma DifferentTraces(t: seq<ExecEvent>, e: ExecEvent, d: ExecEvent, u: seq<ExecEvent>)
    requires e != d
    ensures t != t + [e] + u && t + [d] != t + [e] + u
  {
    assert (t + [e] + u)[|t|] == e && (t + [d])[|t|] == d;
    assert |t + [e] + u| > |t|;
  }

  /** The drain is right if and only if the machine is not halted and the program ends there: not in the
      shadow of a taken transfer to elsewhere, nor behind a store that replaces the word
      (models/pipeline/pipeline/pipeline.cpp:78-91 looks at none of these). */
  lemma StopIsRightExactlyWhenNext(p: Pipeline)
    requires RejectedInDecode(p)
    ensures StopsAt(Tick(p), Step(Abs(p)).arch, p.ticksCounter) <==>
            !Halted(p) && EndsThere(Step(Abs(p)).arch, ControlOf(p.decode.instr).cause, p.decode)
  {
    hide Add, Aligned, ExecutedNow, NextNow, ValidLoadMode, Ticked, AbsMem, AbsRegs, WriteBack, Read, Write,
         MemoryStage, PortsOf, Select, MemoryStageOk, Tick, ControlOf, GetWord, GetInstructionType, GetOpcode,
         OperandsReady, OperandsWaiting, SourceA, GetFunct3, ExecuteOf, TargetOf, Taken, SameEffect, Step;
    var s := Abs(p);
    var r := Step(s).arch;
    var d := ExecEvent(p.decode.instr, p.decode.pcDe);
    StepTraces(s);
    AddFourDiffers(p.execute.pcDe);
    if Halted(p) {
      HaltedDrainLosesOne(p);
      DifferentTraces(p.execTrace, ExecEvent(Fetch(s), s.pc), d, []);
      DifferentTraces(p.execTrace, ExecEvent(Fetch(s), s.pc), d, [ExecEvent(Fetch(r), r.pc)]);
    } else {
      RunningDrain(p);
      StopIsRightWhenRunning(p);
    }
  }

  /** The drain of a running machine finishes the instruction in the execute stage. */
  lemma RunningDrain(p: Pipeline)
    requires RejectedInDecode(p) && !Halted(p)
    ensures var r := Step(Abs(p)).arch; var cause := ControlOf(p.decode.instr).cause;
      Tick(p) == Stopped(cause, Final(r.regFile, r.mem, DrainTrace(r.execTrace, cause, p.decode), p.ticksCounter))
  {
    hide Add, Aligned, ExecutedNow, NextNow, ValidLoadMode, Ticked, AbsMem, AbsRegs, WriteBack, Read, Write,
         MemoryStage, PortsOf, Select, MemoryStageOk, Tick, ControlOf, GetWord, GetInstructionType, GetOpcode,
         OperandsReady, OperandsWaiting, SourceA, GetFunct3, ExecuteOf, TargetOf, Taken, SameEffect, Step;
    StepRefines(p);
    Drains(p);
    AddFourDiffers(p.execute.pcDe);
    ZeroWord();
    RejectCauses(p.decode.instr);
  }

  lemma StopIsRightWhenRunning(p: Pipeline)
    requires RejectedInDecode(p) && !Halted(p)
    requires var r := Step(Abs(p)).arch; var cause := ControlOf(p.decode.instr).cause;
      Tick(p) == Stopped(cause, Final(r.regFile, r.mem, DrainTrace(r.execTrace, cause, p.decode), p.ticksCounter))
    ensures StopsAt(Tick(p), Step(Abs(p)).arch, p.ticksCounter) <==>
            EndsThere(Step(Abs(p)).arch, ControlOf(p.decode.instr).cause, p.decode)
  {
    hide Add, Aligned, ValidLoadMode, AbsMem, AbsRegs, Read, MemoryStageOk, Tick, ControlOf, GetWord, OperandsReady,
         OperandsWaiting, ExecuteOf, TargetOf, Taken, Step;
    var r := Step(Abs(p)).arch;
    var d := ExecEvent(p.decode.instr, p.decode.pcDe);
    RejectCauses(p.decode.instr);
    if Fetch(r) == p.decode.instr {
      RejectTraps(r);
    }
    assert (r.execTrace + [d])[|r.execTrace|] == d;
    assert (r.execTrace + [ExecEvent(Fetch(r), r.pc)])[|r.execTrace|] == ExecEvent(Fetch(r), r.pc);
  }

  // ----- runs from the reset state -----

  /** A program is about to start with an instruction that decodes. */
  predicate Ready(s: Arch) {
    WellPlaced(s) && Aligned(s.pc) && Read(s.regFile, 0) == 0 && s.execTrace == [] && Accepted(Fetch(s))
  }

  /** After two ticks the first instruction is in the execute stage. */
  lemma TwoTicks(s: Arch) returns (p: Pipeline)
    requires Ready(s)
    ensures Ticks(StartOf(s), 2) == Running(p) && Prepare(p) == p && p.ticksCounter == 2
    ensures Inv(p) && Commits(p) && Abs(p) == s && WriteBack(p.regFile, p.writeBack) == s.regFile
  {
    hide Add, Aligned, Read, Write, Inv, Abs, Halted, Tick, Prepare, ControlOf, GetWord, WellPlaced, StartOf, Writes,
         WriteBack;
    StartRefines(s);
    StartIsEmpty(s);
    PrepareRefines(StartOf(s));
    var p1 := TickFetches(Prepare(StartOf(s)));
    WritesNext(StartOf(s), p1);
    PrepareRefines(p1);
    DecodesFetched(Prepare(p1));
    p := TickDecodes(Prepare(p1));
    WritesNext(p1, p);
    LatePrepare(p);
    TwoIterations(StartOf(s), p1, p);
  }

  /** For this many more ticks no register is written. */
  predicate Writes(p: Pipeline, ticks: nat) {
    (ticks > 0 ==> !p.writeBack.wbWe) && (ticks > 1 ==> !p.memory.wbWe) && (ticks > 2 ==> !p.execute.signals.wbWe)
  }

  lemma WriteBackNext(p: Pipeline, q: Pipeline)
    requires Tick(p) == Running(q)
    ensures q.regFile == WriteBack(p.regFile, p.writeBack) && q.writeBack.wbWe == p.memory.wbWe
    ensures q.memory == if p.enabled then ExecutedNow(p).memory else CLEAR_MEMORY
  {
    hide Aligned, Read, ControlOf, GetWord, NextNow, MemoryAccess, PortsOf, Select, DecodeStage, TraceNow, PrevPcNow,
         SavedSource, SavedValue, ExecutedNow, HasRs1, HasRs2, GetRs1, GetRs2, GetInstructionType, GetOpcode, Write,
         WriteBack;
  }

  lemma ExecutedWrites(p: Pipeline)
    ensures !p.execute.signals.wbWe ==> !ExecutedNow(p).memory.wbWe
  {
    hide OperandA, OperandB, Alu.ALU, Alu.Cmp, ImmediateExtensionBlock, Add, ClearBitZero, GetRd;
  }

  lemma NothingWritten(rf: RegFile, w: WriteBackState)
    ensures !w.wbWe ==> WriteBack(rf, w) == rf
  {
  }

  lemma WritesNext(p: Pipeline, q: Pipeline)
    requires Tick(Prepare(p)) == Running(q)
    ensures q.regFile == WriteBack(p.regFile, p.writeBack)
    ensures Writes(p, 3) ==> Writes(q, 2) && WriteBack(p.regFile, p.writeBack) == p.regFile
    ensures Writes(p, 2) ==> Writes(q, 1) && WriteBack(p.regFile, p.writeBack) == p.regFile
    ensures Writes(q, 1) ==> WriteBack(q.regFile, q.writeBack) == q.regFile
  {
    hide Tick, ExecutedNow, WriteBack;
    WriteBackNext(Prepare(p), q);
    ExecutedWrites(Prepare(p));
    NothingWritten(p.regFile, p.writeBack);
    NothingWritten(q.regFile, q.writeBack);
  }

  lemma StartIsEmpty(s: Arch)
    ensures Fill(StartOf(s)) == 0 && StartOf(s).ticksCounter == 0 && Writes(StartOf(s), 3) &&
      StartOf(s).regFile == s.regFile
  {
  }

  lemma TwoIterations(start: Pipeline, p1: Pipeline, p2: Pipeline)
    requires Tick(Prepare(start)) == Running(p1) && Tick(Prepare(p1)) == Running(p2)
    ensures Ticks(start, 2) == Running(p2)
  {
    hide Tick, Prepare;
    assert Ticks(start, 1) == Running(p1);
  }

  lemma LatePrepare(p: Pipeline)
    requires p.ticksCounter >= 2
    ensures Prepare(p) == p
  {
  }

  lemma DecodesFetched(p: Pipeline)
    requires Inv(p) && Fill(p) == 1
    ensures p.decode.instr == Fetch(Abs(p))
  {
    hide ControlOf, GetWord, AbsMem, AbsRegs, MemoryStageOk, Aligned, Read;
  }

  /** A word that does not decode right behind the first instruction ends the run in the third tick,
      wherever that instruction went. The result is the end of the program if and only if it ends there. */
  lemma RejectedInShadow(s: Arch)
    requires Ready(s) && Step(s).Next? && !Accepted(GetWord(s.mem.bytes, Add(s.pc, 4)))
    ensures var d := DecodeState(false, Add(s.pc, 4), GetWord(s.mem.bytes, Add(s.pc, 4)));
      var r := Step(s).arch; var cause := ControlOf(d.instr).cause;
      Ticks(StartOf(s), 3) == Stopped(cause, Final(r.regFile, r.mem, DrainTrace(r.execTrace, cause, d), 2)) &&
      (StopsAt(Ticks(StartOf(s), 3), r, 2) <==> EndsThere(r, cause, d))
  {
    hide Add, Aligned, Read, Write, Ready, Inv, AbsRegs, AbsMem, Tick, Prepare, ControlOf, GetWord, WellPlaced,
         StartOf, Step, StopsAt, Halted, Commits, EndsThere;
    var p := TwoTicks(s);
    RejectedBehind(p);
    RunningDrain(p);
    StopIsRightExactlyWhenNext(p);
    assert Ticks(StartOf(s), 3) == Tick(Prepare(p));
  }

  lemma RejectedBehind(p: Pipeline)
    requires Inv(p) && Commits(p) && Step(Abs(p)).Next?
    requires !Accepted(GetWord(Abs(p).mem.bytes, Add(Abs(p).pc, 4)))
    ensures RejectedInDecode(p) && !Halted(p)
    ensures p.decode == DecodeState(false, Add(Abs(p).pc, 4), GetWord(Abs(p).mem.bytes, Add(Abs(p).pc, 4)))
  {
    hide Add, Aligned, Read, ControlOf, GetWord, AbsMem, AbsRegs, MemoryStageOk, Step, StoreSpares, OperandsReady,
         OperandsWaiting, ValidLoadMode;
  }

  // ----- what the execution trace leaves out -----

  /** A tick whose execute stage holds a bubble: the decoded word moves up, the trace stays. */
  lemma BubbleTick(p: Pipeline) returns (q: Pipeline)
    requires Shape(p) && Bubble(p.execute) && !Halted(p) && Accepted(p.decode.instr)
    ensures Tick(p) == Running(q) && Shape(q) && !Halted(q) && q.execTrace == p.execTrace && q.tracePrevPc == 0
    ensures q.execute.instr == p.decode.instr && q.execute.pcDe == p.decode.pcDe
    ensures q.execute.signals == ControlOf(p.decode.instr).signals
    ensures q.decode == DecodeState(false, p.programCounter, GetWord(AbsMem(p).bytes, p.programCounter))
    ensures q.programCounter == Add(p.programCounter, 4) && q.ticksCounter == p.ticksCounter + 1
  {
    hide Add, Aligned, ExecutedNow, NextNow, ValidLoadMode, Ticked, AbsMem, AbsRegs, WriteBack, Read, MemoryStage,
         PortsOf, Select, MemoryStageOk, TraceNow, Tick, ControlOf, GetWord, GetInstructionType, GetOpcode, GetRs1,
         GetRs2, SourceA, HasRs1, HasRs2, GetFunct3;
    BubbleCommits(p);
    BubbleRunsOn(p);
    TickAccepted(p);
    q := Ticked(p);
    AbsAfterRun(p, q);
    ShapeKept(p, q);
    RunsOn(p, q);
  }

  lemma PreparedShape(p: Pipeline)
    requires Shape(p)
    ensures var q := Prepare(p);
      Shape(q) && AbsMem(q) == AbsMem(p) && q == p.(ports := q.ports)
  {
    hide Aligned, Read, MemoryStageOk, AbsMem, ValidLoadMode;
    PortsDoNotMatter(p, Prepare(p));
  }

  function TraceOf(o: Outcome): seq<ExecEvent> {
    match o
    case Running(p) => p.execTrace
    case Stopped(_, final) => final.execTrace
  }

  /** A tick that executes an instruction records it, unless it is the zero word or stands where the filter
      was last; at most the word in decode is recorded behind it. */
  lemma TickRecords(p: Pipeline)
    requires Shape(p) && !Halted(p)
    ensures var e, d := p.execute, p.decode; var t := TraceOf(Tick(p));
      var recorded := if e.pcDe != p.tracePrevPc && e.instr != 0 then [ExecEvent(e.instr, e.pcDe)] else [];
      t == p.execTrace + recorded || t == p.execTrace + recorded + [ExecEvent(d.instr, d.pcDe)]
  {
    hide MemoryAccess, PortsOf, Read, Write, Aligned, ExecutedNow, ControlOf, NextNow, AbsMem, MemoryStageOk,
         ValidLoadMode, WriteBack, DecodeStage, GetWord, Select, GetOpcode, GetRs1, GetRs2;
    MemoryTick(p);
  }

  /** The record of this step is in the trace. */
  predicate Recorded(trace: seq<ExecEvent>, s: Arch) {
    |trace| > |s.execTrace| && trace[|s.execTrace|] == ExecEvent(Fetch(s), s.pc)
  }

  lemma RecordedExactlyWhen(t: seq<ExecEvent>, s: Arch, recorded: seq<ExecEvent>, d: ExecEvent)
    requires recorded == if s.pc != 0 && Fetch(s) != 0 then [ExecEvent(Fetch(s), s.pc)] else []
    requires d.location != s.pc && (t == s.execTrace + recorded || t == s.execTrace + recorded + [d])
    ensures Recorded(t, s) <==> WellPlaced(s)
  {
    hide GetWord;
  }

  /** After reset and after every taken transfer the front of the machine is empty. The instruction that is then
      fetched, executed in the third tick, is recorded if and only if neither it nor its address is zero;
      the filter and the bubbles both start from 0 (models/pipeline/pipeline/pipeline.cpp:346-352). */
  lemma FirstIsRecorded(p: Pipeline) returns (q: Pipeline, r: Pipeline)
    requires Inv(p) && Fill(p) == 0 && Accepted(Fetch(Abs(p)))
    ensures Tick(Prepare(p)) == Running(q) && Tick(Prepare(q)) == Running(r)
    ensures Recorded(TraceOf(Tick(Prepare(r))), Abs(p)) <==> WellPlaced(Abs(p))
  {
    hide Aligned, Read, MemoryStageOk, AbsMem, AbsRegs, ValidLoadMode, Tick, Prepare, Bubble, ControlOf, GetWord, Add,
         WellPlaced, Recorded;
    var s := Abs(p);
    PreparedShape(p);
    ZeroWord();
    q := BubbleTick(Prepare(p));
    PreparedShape(q);
    BubbleAgain(q);
    r := BubbleTick(Prepare(q));
    PreparedShape(r);
    TickRecords(Prepare(r));
    AddFourDiffers(s.pc);
    var e := r.execute;
    var recorded := if e.pcDe != 0 && e.instr != 0 then [ExecEvent(e.instr, e.pcDe)] else [];
    RecordedExactlyWhen(TraceOf(Tick(Prepare(r))), s, recorded, ExecEvent(r.decode.instr, r.decode.pcDe));
  }

  lemma BubbleAgain(q: Pipeline)
    requires Shape(q) && q.execute.instr == 0 && q.execute.pcDe == 0 && q.execute.signals == ControlOf(0).signals
    ensures Bubble(q.execute)
  {
    hide Aligned, Read, MemoryStageOk, ValidLoadMode, ControlOf;
    ZeroWord();
  }

  /** The first instruction of a program is recorded if and only if neither it nor its address is zero; every
      step of the sequential machine is. */
  lemma FirstFromReset(s: Arch)
    requires Aligned(s.pc) && Read(s.regFile, 0) == 0 && s.execTrace == [] && Accepted(Fetch(s))
    ensures Recorded(TraceOf(Ticks(StartOf(s), 3)), s) <==> WellPlaced(s)
    ensures Step(s).Next? ==> Recorded(Step(s).arch.execTrace, s)
  {
    hide Aligned, Read, Inv, AbsRegs, AbsMem, Tick, Prepare, ControlOf, GetWord, WellPlaced, Step, Add;
    StartRefines(s);
    StartIsEmpty(s);
    var q, r := FirstIsRecorded(StartOf(s));
    TwoIterations(StartOf(s), q, r);
    OneIteration(StartOf(s), 2, r);
    if Step(s).Next? {
      StepTraces(s);
    }
  }

  lemma LoadNotTaken(s: Arch)
    requires IsLoad(Fetch(s)) && Accepted(Fetch(s))
    ensures !Taken(s)
  {
    hide ControlOf, GetWord, GetOpcode, GetInstructionType, Alu.ALU, Alu.Cmp, Add, ClearBitZero, IsLoad, Read,
         ImmediateExtensionBlock, SourceA, Step;
    SignalFacts(Fetch(s));
  }

  /** A load with a dependent word behind it: the machine halts. */
  lemma LoadTick(p: Pipeline) returns (q: Pipeline)
    requires Inv(p) && Commits(p) && Step(Abs(p)).Next? && IsLoad(Fetch(Abs(p)))
    requires Accepted(p.decode.instr) && LoadConflict(p.decode.instr, GetRd(Fetch(Abs(p))))
    ensures Tick(p) == Running(q) && q == Ticked(p) && Shape(q) && Halted(q) && OperandsWaiting(q)
    ensures AbsRegs(q) == Step(Abs(p)).arch.regFile && q.memory.wbA == GetRd(Fetch(Abs(p)))
    ensures var rf := WriteBack(p.regFile, p.writeBack); var w := p.decode.instr;
      q.execute.instr == w && q.execute.data1 == SourceA(w, p.decode.pcDe, Read(rf, GetRs1(w))) &&
      q.execute.data2 == Read(rf, GetRs2(w)) && q.execute.signals == ControlOf(w).signals &&
      q.execute.funct3 == GetFunct3(w) && q.execute.pcDe == p.decode.pcDe && !q.execute.vDe
    ensures q.memory.aluRes == ExecuteOf(Abs(p), ControlOf(Fetch(Abs(p))).signals, Fetch(Abs(p))).memory.aluRes
    ensures q.decode.instr == GetWord(AbsMem(p).bytes, p.programCounter) && q.decode.pcDe == p.programCounter
    ensures q.execTrace == Step(Abs(p)).arch.execTrace
  {
    hide Add, Aligned, ExecutedNow, NextNow, ValidLoadMode, Ticked, AbsMem, AbsRegs, WriteBack, Read, Write,
         MemoryStage, PortsOf, Select, MemoryStageOk, TraceNow, Tick, ControlOf, GetWord, GetInstructionType,
         GetOpcode, OperandsReady, OperandsWaiting, GetRs1, GetRs2, GetRd, SourceA, HasRs1, HasRs2, GetFunct3,
         ExecuteOf, TargetOf, Step, Taken, IsLoad, SameEffect, LoadConflict;
    var s := Abs(p);
    ExecuteRefines(p);
    StepRefines(p);
    NextAgrees(p, s);
    AlignedNext(p.programCounter);
    LoadRecord(p, s);
    LoadNotTaken(s);
    TickAccepted(p);
    q := Ticked(p);
    AbsAfterRun(p, q);
    ShapeKept(p, q);
    RunsOn(p, q);
    OperandsAfterRun(p, q);
  }

  lemma SourceOfUse(w: Word, pc: Word, value: Word)
    ensures UsesRs1(w) ==> SourceA(w, pc, value) == value
  {
    hide GetOpcode;
  }

  /** The stale operand is the value of the loaded register before the load. */
  lemma StaleOperands(q: Pipeline, w: Word, pc: Word, rd: RegIdx, before: RegFile, loaded: Word)
    requires w == q.execute.instr && q.execute.data1 == SourceA(w, pc, Read(before, GetRs1(w)))
    requires q.execute.data2 == Read(before, GetRs2(w))
    ensures var t := GetInstructionType(GetOpcode(q.decode.instr));
      ((UsesRs1(w) && GetRs1(w) == rd && !HasRs1(t) ==> q.execute.data1 == loaded) &&
       (UsesRs2(w) && GetRs2(w) == rd && !HasRs2(t) ==> q.execute.data2 == loaded))
      <==> Covered(w, rd, q.decode.instr) || Read(before, rd) == loaded
  {
    hide GetOpcode, GetInstructionType, GetRs1, GetRs2, Read, SourceA, UsesRs1, UsesRs2, HasRs1, HasRs2;
    SourceOfUse(w, pc, Read(before, GetRs1(w)));
  }

  /** A load goes on to the next word and leaves memory alone. */
  lemma LoadRuns(s: Arch)
    requires IsLoad(Fetch(s)) && Step(s).Next?
    ensures Accepted(Fetch(s)) && Step(s).arch.mem == s.mem && Step(s).arch.pc == Add(s.pc, 4)
  {
    hide ControlOf, GetWord, GetOpcode, GetInstructionType, Alu.ALU, Alu.Cmp, Add, ClearBitZero, IsLoad, Read, Write,
         GetRd, ImmediateExtensionBlock, SourceA, Aligned, GetData, StoreValue, GetFunct3, GetRs1, GetRs2;
    SignalFacts(Fetch(s));
  }

  /** Where the dependent word would go if the loaded register held the address of the load. */
  function ProvisionalTarget(s: Arch): Word
    requires Step(s).Next? && Accepted(Fetch(s)) && Accepted(GetWord(s.mem.bytes, Add(s.pc, 4)))
  {
    var w := GetWord(s.mem.bytes, Add(s.pc, 4));
    var address := ExecuteOf(s, ControlOf(Fetch(s)).signals, Fetch(s)).memory.aluRes;
    TargetOf(Provisional(Step(s).arch, GetRd(Fetch(s)), address), ControlOf(w).signals, w)
  }

  /** The target that a halted instruction is checked for. */
  lemma HaltedTarget(s: Arch, q: Pipeline)
    requires IsLoad(Fetch(s)) && Step(s).Next? && Accepted(Fetch(s)) && Aligned(s.pc) && Shape(q) && OperandsWaiting(q)
    requires Accepted(GetWord(s.mem.bytes, Add(s.pc, 4)))
    requires AbsRegs(q) == Step(s).arch.regFile && q.memory.wbA == GetRd(Fetch(s))
    requires q.memory.aluRes == ExecuteOf(s, ControlOf(Fetch(s)).signals, Fetch(s)).memory.aluRes
    requires var w := GetWord(s.mem.bytes, Add(s.pc, 4));
      q.execute.instr == w && q.execute.signals == ControlOf(w).signals && q.execute.funct3 == GetFunct3(w) &&
      q.execute.pcDe == Add(s.pc, 4) && !q.execute.vDe
    ensures Aligned(NextNow(q)) <==> Aligned(ProvisionalTarget(s))
  {
    hide Add, Aligned, AbsRegs, Read, MemoryStageOk, ControlOf, GetWord, ExecuteOf, TargetOf, GetRd, GetOpcode,
         GetFunct3, GetInstructionType, OperandsWaiting, OperandA, OperandB, ExecutedNow, NextNow, SourceA, Poke,
         IsLoad, Step, Accepted, SameEffect, ValidLoadMode;
    LoadRuns(s);
    var r := Provisional(Step(s).arch, GetRd(Fetch(s)), q.memory.aluRes);
    HaltIsProvisional(q, Step(s).arch);
    AcceptedSignals(q.execute.instr);
    ExecutesAs(q, r);
    NextAgrees(q, r);
    AlignedNext(q.programCounter);
    AlignedNext(s.pc);
    AlignedNext(Add(s.pc, 4));
  }

  lemma AcceptedSignals(w: Word)
    requires Accepted(w)
    ensures ControlOf(w) == Accept(ControlOf(w).signals)
  {
    hide GetOpcode, GetFunct3, GetFunct7, GetRs2, OpAlu, OpImmAlu, BranchCmp, ControlTick;
  }

  /** The first three words of a program: a load, a word that depends on it, and one that decodes. */
  predicate LoadUse(s: Arch) {
    Ready(s) && Step(s).Next? && IsLoad(Fetch(s)) &&
    var w := GetWord(s.mem.bytes, Add(s.pc, 4));
    Accepted(w) && LoadConflict(w, GetRd(Fetch(s))) && Accepted(GetWord(s.mem.bytes, Add(Add(s.pc, 4), 4)))
  }

  lemma SecondAndThird(p: Pipeline)
    requires Inv(p) && Commits(p)
    ensures p.decode.instr == GetWord(Abs(p).mem.bytes, Add(Abs(p).pc, 4)) && p.decode.pcDe == Add(Abs(p).pc, 4)
    ensures p.programCounter == Add(Add(Abs(p).pc, 4), 4)
    ensures GetWord(AbsMem(p).bytes, p.programCounter) == GetWord(Abs(p).mem.bytes, Add(Add(Abs(p).pc, 4), 4))
  {
    hide Add, Aligned, Read, ControlOf, GetWord, AbsMem, AbsRegs, MemoryStageOk, OperandsReady, OperandsWaiting,
         ValidLoadMode;
  }

  lemma OneIteration(start: Pipeline, t: nat, p: Pipeline)
    requires Ticks(start, t) == Running(p)
    ensures Ticks(start, t + 1) == Tick(Prepare(p))
  {
    hide Tick, Prepare;
  }

  predicate ExecutesWord(p: Pipeline, w: Word) {
    p.execute.instr == w && ControlOf(w) == Accept(p.execute.signals) && !p.execute.vDe
  }

  /** A load-use halt from reset. The tick of the halt goes on exactly if the provisional target of the
      dependent word is aligned. After the halt, in tick five, the dependent instruction executes with the
      right operands if and only if the format of the third word has the operand fields that name the loaded
      register, or the register already held the loaded value; an operand that the format hides is the value
      that the register had before the load. */
  lemma HaltFromReset(s: Arch) returns (q: Pipeline, r: Pipeline)
    requires LoadUse(s)
    ensures Ticks(StartOf(s), 3) == Running(q) && Halted(q)
    ensures Ticks(StartOf(s), 4).Running? <==> Aligned(ProvisionalTarget(s))
    ensures !Ticks(StartOf(s), 4).Running? ==> Ticks(StartOf(s), 4).cause == Misaligned
    ensures Ticks(StartOf(s), 4).Running? ==>
      Ticks(StartOf(s), 4) == Running(r) && !Halted(r) && MemoryStageOk(r) &&
      var w := GetWord(s.mem.bytes, Add(s.pc, 4)); var d := GetWord(s.mem.bytes, Add(Add(s.pc, 4), 4));
      var rd := GetRd(Fetch(s));
      (OperandsReady(r) <==> Covered(w, rd, d) || Read(s.regFile, rd) == Read(Step(s).arch.regFile, rd)) &&
      Shape(r) && r.ticksCounter == 4 && ExecutesWord(r, w) && r.decode.instr == d &&
      (UsesRs1(w) && GetRs1(w) == rd && !HasRs1(GetInstructionType(GetOpcode(d))) ==>
        OperandA(r) == Read(s.regFile, rd)) &&
      (UsesRs2(w) && GetRs2(w) == rd && !HasRs2(GetInstructionType(GetOpcode(d))) ==>
        OperandB(r) == Read(s.regFile, rd))
  {
    hide Add, Aligned, Read, Write, Inv, AbsRegs, AbsMem, Tick, Prepare, ControlOf, GetWord, WellPlaced, StartOf,
         Step, Halted, Commits, NextNow, OperandsReady, OperandsWaiting, Ticked, MemoryStageOk, GetRd, GetRs1, GetRs2,
         GetOpcode, WriteBack, LoadConflict, IsLoad, Shape, Covered, UsesRs1, UsesRs2, HasRs1, HasRs2,
         GetInstructionType, SourceA, Ticks, Accepted, PendingWriteBack, ProvisionalTarget, GetFunct3, ExecuteOf,
         OperandA, OperandB;
    var p := TwoTicks(s);
    SecondAndThird(p);
    OneIteration(StartOf(s), 2, p);
    q := LoadTick(p);
    TickCounts(p, q);
    LatePrepare(q);
    OneIteration(StartOf(s), 3, q);
    HaltedTickRuns(q);
    r := Ticked(q);
    HaltIsRightExactlyWhenCovered(q, r);
    LoadedValue(q);
    HaltsOnce(q, r);
    HaltedTarget(s, q);
    StaleOperands(q, p.decode.instr, p.decode.pcDe, q.memory.wbA, s.regFile, PendingWriteBack(q).wbD);
    HaltForwards(q, r);
    SourceOfUse(q.execute.instr, p.decode.pcDe, Read(s.regFile, GetRs1(q.execute.instr)));
    AcceptedSignals(q.execute.instr);
  }

  lemma TickCounts(p: Pipeline, q: Pipeline)
    requires Tick(p) == Running(q)
    ensures q.ticksCounter == p.ticksCounter + 1
  {
    hide Aligned, Read, ControlOf, GetWord, NextNow, MemoryAccess, PortsOf, Select, DecodeStage, TraceNow, PrevPcNow,
         SavedSource, SavedValue, ExecutedNow, WriteBack;
  }

  /** A word that does not decode, two words behind a load and right behind a word that depends on it, ends the
      run in tick four, and the dependent instruction is never recorded. */
  lemma StopDuringHalt(s: Arch)
    requires Ready(s) && Step(s).Next? && IsLoad(Fetch(s))
    requires var w := GetWord(s.mem.bytes, Add(s.pc, 4)); Accepted(w) && LoadConflict(w, GetRd(Fetch(s)))
    requires !Accepted(GetWord(s.mem.bytes, Add(Add(s.pc, 4), 4)))
    ensures Ticks(StartOf(s), 4).Stopped?
    ensures var d := GetWord(s.mem.bytes, Add(Add(s.pc, 4), 4)); var t := Ticks(StartOf(s), 4).final.execTrace;
      t == [ExecEvent(Fetch(s), s.pc)] || t == [ExecEvent(Fetch(s), s.pc), ExecEvent(d, Add(Add(s.pc, 4), 4))]
  {
    hide Add, Aligned, Read, Write, Inv, AbsRegs, AbsMem, Tick, Prepare, ControlOf, GetWord, WellPlaced, StartOf,
         Step, Halted, Commits, NextNow, OperandsReady, OperandsWaiting, Ticked, MemoryStageOk, GetRd, GetRs1, GetRs2,
         GetOpcode, WriteBack, LoadConflict, IsLoad, Shape, HasRs1, HasRs2, GetInstructionType, SourceA, Ticks,
         Accepted;
    var p := TwoTicks(s);
    SecondAndThird(p);
    OneIteration(StartOf(s), 2, p);
    var q := LoadTick(p);
    TickCounts(p, q);
    LatePrepare(q);
    OneIteration(StartOf(s), 3, q);
    HaltedDrainLosesOne(q);
    StepTraces(s);
  }

  // ----- stores into the code -----

  /** The word w behind the instruction at s does not wait for it. */
  predicate NoHalt(s: Arch, w: Word) {
    IsLoad(Fetch(s)) ==> !LoadConflict(w, GetRd(Fetch(s)))
  }

  /** A tick that executes an instruction that does not redirect, whatever it stores: the fetched words move up. */
  lemma PlainTick(p: Pipeline) returns (q: Pipeline)
    requires Executing(p) && Step(Abs(p)).Next? && !Taken(Abs(p)) && Accepted(p.decode.instr)
    requires p.decode.pcDe == Add(p.execute.pcDe, 4) && p.programCounter == Add(p.decode.pcDe, 4)
    ensures Tick(p) == Running(q) && Shape(q) && q.ticksCounter == p.ticksCounter + 1
    ensures var r := Step(Abs(p)).arch;
      r == Arch(Add(Abs(p).pc, 4), AbsRegs(q), AbsMem(q), q.execTrace)
    ensures q.execute.instr == p.decode.instr && q.execute.pcDe == p.decode.pcDe && q.tracePrevPc == p.execute.pcDe
    ensures ControlOf(q.execute.instr) == Accept(q.execute.signals) && q.execute.funct3 == GetFunct3(q.execute.instr)
    ensures q.decode.instr == GetWord(AbsMem(p).bytes, p.programCounter) && q.decode.pcDe == p.programCounter
    ensures q.programCounter == Add(q.decode.pcDe, 4)
    ensures !Halted(q) <==> NoHalt(Abs(p), p.decode.instr)
    ensures !Halted(q) ==> OperandsReady(q)
  {
    hide Add, Aligned, ExecutedNow, NextNow, ValidLoadMode, Ticked, AbsMem, AbsRegs, WriteBack, Read, Write,
         MemoryStage, PortsOf, Select, MemoryStageOk, TraceNow, Tick, ControlOf, GetWord, GetInstructionType,
         GetOpcode, OperandsReady, OperandsWaiting, GetRs1, GetRs2, GetRd, SourceA, HasRs1, HasRs2, GetFunct3,
         ExecuteOf, TargetOf, Step, Taken, SameEffect, LoadConflict, IsLoad;
    ExecuteRefines(p);
    StepRefines(p);
    NextAgrees(p, Abs(p));
    LoadRecord(p, Abs(p));
    AlignedNext(p.programCounter);
    TickAccepted(p);
    q := Ticked(p);
    AbsAfterRun(p, q);
    ShapeKept(p, q);
    RunsOn(p, q);
    OperandsAfterRun(p, q);
    AcceptedSignals(p.decode.instr);
  }

  /** A tick that executes a taken transfer drops the two words behind it, whatever they are. */
  lemma TakenTick(p: Pipeline) returns (q: Pipeline)
    requires Executing(p) && Step(Abs(p)).Next? && Taken(Abs(p)) && Accepted(p.decode.instr)
    ensures Tick(p) == Running(q) && Inv(q) && Fill(q) == 0 && Abs(q) == Step(Abs(p)).arch
    ensures q.ticksCounter == p.ticksCounter + 1
  {
    hide Add, Aligned, ExecutedNow, NextNow, ValidLoadMode, Ticked, AbsMem, AbsRegs, WriteBack, Read, Write,
         MemoryStage, PortsOf, Select, MemoryStageOk, TraceNow, Tick, ControlOf, GetWord, GetInstructionType,
         GetOpcode, OperandsReady, OperandsWaiting, GetRs1, GetRs2, GetRd, SourceA, HasRs1, HasRs2, GetFunct3,
         ExecuteOf, TargetOf, Step, Taken, SameEffect;
    ExecuteRefines(p);
    StepRefines(p);
    NextAgrees(p, Abs(p));
    TickAccepted(p);
    q := Ticked(p);
    AbsAfterRun(p, q);
    Redirects(p, q);
  }

  /** The trace only grows. */
  lemma TickGrows(p: Pipeline)
    ensures p.execTrace <= TraceOf(Tick(p))
  {
    hide MemoryAccess, PortsOf, Read, Write, Aligned, ExecutedNow, ControlOf, NextNow, WriteBack, DecodeStage,
         GetWord, Select, GetOpcode, GetRs1, GetRs2;
  }

  lemma {:induction false} TicksGrow(start: Pipeline, t: nat, u: nat)
    requires t <= u
    ensures TraceOf(Ticks(start, t)) <= TraceOf(Ticks(start, u))
    decreases u - t
  {
    hide Tick;
    if t == u {
      assert Ticks(start, t) == Ticks(start, u);
    } else {
      TicksGrow(start, t, u - 1);
      if Ticks(start, u - 1).Running? {
        TickGrows(Prepare(Ticks(start, u - 1).p));
      }
    }
  }

  /** Once something is recorded at its place, the record of this step is there for good, or never. */
  lemma Settled(start: Pipeline, t: nat, u: nat, s: Arch)
    requires t <= u && |TraceOf(Ticks(start, t))| > |s.execTrace|
    ensures Recorded(TraceOf(Ticks(start, u)), s) <==> Recorded(TraceOf(Ticks(start, t)), s)
  {
    hide Ticks, GetWord;
    TicksGrow(start, t, u);
  }

  /** The instruction in the execute stage, if its location is new, is recorded as it was fetched. */
  lemma RecordsFetched(p: Pipeline, r: Arch)
    requires Shape(p) && Commits(p) && p.tracePrevPc != p.execute.pcDe && r.execTrace == p.execTrace
    ensures |TraceOf(Tick(p))| > |r.execTrace|
    ensures Recorded(TraceOf(Tick(p)), r) <==> Fetch(r) == p.execute.instr && r.pc == p.execute.pcDe
  {
    hide Tick, GetWord, Aligned, Read, MemoryStageOk, ValidLoadMode;
    TickRecords(p);
  }

  /** The program starts with an instruction that goes on to the next word, which decodes and does not wait. */
  predicate PlainStart(s: Arch) {
    Ready(s) && Step(s).Next? && !Taken(s) &&
    var w := GetWord(s.mem.bytes, Add(s.pc, 4)); Accepted(w) && w != 0 && NoHalt(s, w)
  }

  /** After three ticks the second word is in the execute stage, as it was before the first instruction. */
  lemma ThreeTicks(s: Arch) returns (q: Pipeline)
    requires PlainStart(s)
    ensures Ticks(StartOf(s), 3) == Running(q) && Shape(q) && Commits(q) && OperandsReady(q)
    ensures Step(s).arch == Arch(Add(s.pc, 4), AbsRegs(q), AbsMem(q), q.execTrace)
    ensures q.execute.instr == GetWord(s.mem.bytes, Add(s.pc, 4)) && q.execute.pcDe == Add(s.pc, 4)
    ensures ControlOf(q.execute.instr) == Accept(q.execute.signals) && q.execute.funct3 == GetFunct3(q.execute.instr)
    ensures q.decode.instr == GetWord(s.mem.bytes, Add(Add(s.pc, 4), 4)) && q.decode.pcDe == Add(Add(s.pc, 4), 4)
    ensures q.programCounter == Add(q.decode.pcDe, 4) && q.tracePrevPc == s.pc && q.ticksCounter == 3
  {
    hide Add, Aligned, Read, AbsRegs, AbsMem, Tick, Prepare, ControlOf, GetWord, WellPlaced, StartOf, Step,
         OperandsReady, OperandsWaiting, MemoryStageOk, WriteBack, Ticks, Taken, NoHalt, GetFunct3, ValidLoadMode;
    var p := TwoTicks(s);
    SecondAndThird(p);
    OneIteration(StartOf(s), 2, p);
    q := PlainTick(p);
  }

  /** A store into the next word. From reset, when the first instruction goes on to the second: the run records
      the second instruction of the program, in tick four or ever after, if and only if the first instruction
      did not change it; otherwise it executes and records the old word
      (models/pipeline/pipeline/pipeline.cpp:54-55). */
  lemma StoreOneBehind(s: Arch, u: nat)
    requires PlainStart(s) && u >= 4
    ensures Recorded(TraceOf(Ticks(StartOf(s), u)), Step(s).arch) <==>
            GetWord(Step(s).arch.mem.bytes, Add(s.pc, 4)) == GetWord(s.mem.bytes, Add(s.pc, 4))
  {
    assert Step(s).Next?;
    hide Add, Aligned, Read, AbsRegs, AbsMem, Tick, Prepare, ControlOf, GetWord, StartOf, Step, OperandsReady,
         MemoryStageOk, Ticks, Taken, PlainStart, Recorded, GetFunct3, ValidLoadMode;
    var q := ThreeTicks(s);
    AddFourDiffers(s.pc);
    LatePrepare(q);
    OneIteration(StartOf(s), 3, q);
    RecordsFetched(q, Step(s).arch);
    Settled(StartOf(s), 4, u, Step(s).arch);
  }

  /** The second instruction is the one that was fetched and goes on as well, to a word that decodes. */
  predicate PlainSecond(s: Arch) {
    PlainStart(s) &&
    var r := Step(s).arch; var w := GetWord(s.mem.bytes, Add(Add(s.pc, 4), 4));
    Fetch(r) == GetWord(s.mem.bytes, Add(s.pc, 4)) && Step(r).Next? && Accepted(w) && w != 0 && NoHalt(r, w) &&
    (Taken(r) ==> WellPlaced(Step(r).arch) && Accepted(Fetch(Step(r).arch)))
  }

  /** After three ticks the machine executes the second instruction. */
  lemma SecondExecutes(s: Arch) returns (q: Pipeline)
    requires PlainSecond(s)
    ensures Ticks(StartOf(s), 3) == Running(q) && Executing(q) && Abs(q) == Step(s).arch && q.ticksCounter == 3
    ensures q.decode.instr == GetWord(s.mem.bytes, Add(Add(s.pc, 4), 4)) && q.decode.pcDe == Add(q.execute.pcDe, 4)
    ensures q.programCounter == Add(q.decode.pcDe, 4) && q.execute.pcDe == Add(s.pc, 4)
  {
    hide Add, Aligned, Read, AbsRegs, AbsMem, ControlOf, GetWord, StartOf, Step, OperandsReady, MemoryStageOk, Ticks,
         Taken, Ready, GetFunct3, ValidLoadMode, NoHalt, WellPlaced;
    q := ThreeTicks(s);
    AddFourDiffers(s.pc);
  }

  /** A store two words ahead. When both instructions are executed as the program has them: the run records the
      third one, in tick seven or ever after, if and only if the second instruction leaves by a taken transfer
      or the word behind it is still the one that was fetched. */
  lemma StoreTwoBehind(s: Arch, u: nat)
    requires PlainSecond(s) && u >= 7
    ensures var r := Step(s).arch; var r2 := Step(r).arch; var third := Add(Add(s.pc, 4), 4);
      Recorded(TraceOf(Ticks(StartOf(s), u)), r2) <==>
      Taken(r) || GetWord(r2.mem.bytes, third) == GetWord(s.mem.bytes, third)
  {
    assert Step(s).Next?;
    hide Add, Aligned, Read, AbsRegs, AbsMem, ControlOf, GetWord, StartOf, Step, OperandsReady, MemoryStageOk, Ticks,
         Taken, PlainStart, GetFunct3, ValidLoadMode, NoHalt, Recorded, WellPlaced, Tick;
    if Taken(Step(s).arch) {
      SecondLeaves(s);
      Settled(StartOf(s), 7, u, Step(Step(s).arch).arch);
    } else {
      SecondGoesOn(s);
      Settled(StartOf(s), 5, u, Step(Step(s).arch).arch);
    }
  }

  /** Behind a taken transfer the machine is back at the program, whatever was stored. */
  lemma SecondLeaves(s: Arch)
    requires PlainSecond(s) && Taken(Step(s).arch)
    ensures var r2 := Step(Step(s).arch).arch; var o := Ticks(StartOf(s), 4);
      o.Running? && Inv(o.p) && Abs(o.p) == r2 &&
      Recorded(TraceOf(Ticks(StartOf(s), 7)), r2) && |TraceOf(Ticks(StartOf(s), 7))| > |r2.execTrace|
  {
    hide Add, Aligned, Read, AbsRegs, AbsMem, ControlOf, GetWord, StartOf, Step, OperandsReady, MemoryStageOk, Ticks,
         Taken, PlainStart, GetFunct3, ValidLoadMode, NoHalt, WellPlaced, Tick, Prepare, Inv, Executing, Fill, Abs;
    var q := SecondExecutes(s);
    LatePrepare(q);
    OneIteration(StartOf(s), 3, q);
    var p := TakenTick(q);
    OneIteration(StartOf(s), 4, p);
    var p1, p2 := FirstIsRecorded(p);
    OneIteration(StartOf(s), 5, p1);
    OneIteration(StartOf(s), 6, p2);
  }

  /** Otherwise the third word that it executes is the one that was fetched. */
  lemma SecondGoesOn(s: Arch)
    requires PlainSecond(s) && !Taken(Step(s).arch)
    ensures var r2 := Step(Step(s).arch).arch; var third := Add(Add(s.pc, 4), 4);
      |TraceOf(Ticks(StartOf(s), 5))| > |r2.execTrace| &&
      (Recorded(TraceOf(Ticks(StartOf(s), 5)), r2) <==>
       GetWord(r2.mem.bytes, third) == GetWord(s.mem.bytes, third))
  {
    assert Step(s).Next?;
    hide Add, Aligned, Read, AbsRegs, AbsMem, ControlOf, GetWord, StartOf, Step, OperandsReady, MemoryStageOk, Ticks,
         Taken, PlainStart, GetFunct3, ValidLoadMode, WellPlaced, Tick, Prepare, Recorded, LoadConflict, IsLoad,
         GetRd;
    var q := SecondExecutes(s);
    LatePrepare(q);
    OneIteration(StartOf(s), 3, q);
    var p := PlainTick(q);
    LatePrepare(p);
    OneIteration(StartOf(s), 4, p);
    AddFourDiffers(q.execute.pcDe);
    RecordsFetched(p, Step(Step(s).arch).arch);
  }
}
