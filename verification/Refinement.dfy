/** The pipeline refines the datapath: an invariant of every reachable machine state, the
    abstraction of a machine state to an architectural state, and the simulation of one tick. */
module Refinement {
  import opened Words
  import opened PipelineInstruction
  import opened ControlSignals
  import opened Memory
  import opened RegisterFile
  import opened Stages
  import opened PipelineStep
  import opened Datapath
  import Alu

  /** How many of the front stages hold an instruction: 2 execute and decode, 1 decode only, 0 none. */
  function Fill(p: Pipeline): nat {
    if p.execute.instr != 0 then 2
    else if p.decode.instr != 0 then 1
    else 0
  }

  predicate Halted(p: Pipeline) {
    !p.enabled
  }

  /** This tick finishes the execution of an instruction. */
  predicate Commits(p: Pipeline) {
    Fill(p) == 2 && !Halted(p)
  }

  predicate MemoryStageOk(p: Pipeline) {
    MemoryStage(p.memory, p.mem).Some?
  }

  function AbsMem(p: Pipeline): Mem
    requires MemoryStageOk(p)
  {
    MemoryStage(p.memory, p.mem).value.0
  }

  /** What the memory stage is about to hand to write-back. */
  function PendingWriteBack(p: Pipeline): WriteBackState
    requires MemoryStageOk(p)
  {
    var ms := p.memory;
    WriteBackState(ms.wbWe, MemoryStage(ms, p.mem).value.1, ms.wbA)
  }

  function AbsRegs(p: Pipeline): RegFile
    requires MemoryStageOk(p)
  {
    WriteBack(WriteBack(p.regFile, p.writeBack), PendingWriteBack(p))
  }

  /** The oldest instruction that has not been executed. */
  function AbsPc(p: Pipeline): Word {
    if Fill(p) == 2 then p.execute.pcDe
    else if Fill(p) == 1 then p.decode.pcDe
    else p.programCounter
  }

  /** Finish everything that has left the execute stage. */
  function Abs(p: Pipeline): Arch
    requires MemoryStageOk(p)
  {
    Arch(AbsPc(p), AbsRegs(p), AbsMem(p), p.execTrace)
  }

  /** An execute record that changes nothing. */
  predicate Bubble(e: ExecuteState) {
    e.instr == 0 && e.pcDe == 0 && !e.vDe &&
    !e.signals.memWe && !e.signals.memToReg && !e.signals.brnCond && !e.signals.jmpCond && !e.signals.isJalr
  }

  predicate ValidLoadMode(mode: bv3) {
    mode == 0 || mode == 1 || mode == 2 || mode == 4 || mode == 5
  }

  /** The first operand that word w at pc has in the registers rf, if it has one. */
  predicate OperandAIs(w: Word, pc: Word, rf: RegFile, value: Word) {
    var t := GetInstructionType(GetOpcode(w));
    t != JType && t != UNKNOWN ==> value == SourceA(w, pc, Read(rf, GetRs1(w)))
  }

  predicate OperandBIs(w: Word, rf: RegFile, value: Word) {
    UsesRs2(w) ==> value == Read(rf, GetRs2(w))
  }

  /** Forwarding is right: both operands are the architectural ones. */
  predicate OperandsReady(p: Pipeline)
    requires MemoryStageOk(p)
  {
    var e := p.execute;
    OperandAIs(e.instr, e.pcDe, AbsRegs(p), OperandA(p)) && OperandBIs(e.instr, AbsRegs(p), OperandB(p))
  }

  /** A consumer waits for the load in the memory stage. */
  predicate OperandsWaiting(p: Pipeline)
    requires MemoryStageOk(p)
  {
    var e := p.execute;
    var ms := p.memory;
    ms.memToReg && ms.wbWe && LoadConflict(e.instr, ms.wbA) &&
    p.mustTakeHaltedWb == NONE &&
    (p.huRs1 == MEM <==> HasRs1(GetInstructionType(GetOpcode(e.instr))) && GetRs1(e.instr) == ms.wbA) &&
    (p.huRs2 == MEM <==> HasRs2(GetInstructionType(GetOpcode(e.instr))) && GetRs2(e.instr) == ms.wbA) &&
    (UsesRs1(e.instr) && GetRs1(e.instr) != ms.wbA ==> OperandA(p) == Read(AbsRegs(p), GetRs1(e.instr))) &&
    (UsesRs2(e.instr) && GetRs2(e.instr) != ms.wbA ==> OperandB(p) == Read(AbsRegs(p), GetRs2(e.instr)))
  }

  /** The halt will end well. */
  predicate HaltSafe(p: Pipeline) {
    var e := p.execute;
    var decoded := p.decode.instr;
    Accepted(decoded) && Covered(e.instr, p.memory.wbA, decoded) &&
    Aligned(NextNow(p))
  }

  /** The instruction in the execute stage is the decoded word at its address. */
  predicate ExecuteHolds(p: Pipeline)
    requires MemoryStageOk(p)
  {
    var e := p.execute;
    e.instr == GetWord(AbsMem(p).bytes, e.pcDe) && ControlOf(e.instr) == Accept(e.signals) &&
    e.funct3 == GetFunct3(e.instr) && p.tracePrevPc != e.pcDe
  }

  predicate DecodeHolds(p: Pipeline)
    requires MemoryStageOk(p)
  {
    var d := p.decode;
    d.instr == GetWord(AbsMem(p).bytes, d.pcDe) && p.programCounter == Add(d.pcDe, 4)
  }

  /** What holds in every reachable state, whatever the program. */
  predicate Shape(p: Pipeline) {
    ValidLoadMode(p.ports.storeMode) && MemoryStageOk(p) &&
    Read(p.regFile, 0) == 0 && Aligned(p.programCounter) &&
    !p.decode.vDe && !p.execute.vDe
  }

  predicate Inv(p: Pipeline) {
    Shape(p) &&
    match Fill(p)
    case 0 => Bubble(p.execute) && p.decode == CLEAR_DECODE && !Halted(p)
    case 1 => Bubble(p.execute) && DecodeHolds(p) && !Halted(p)
    case _ =>
      ExecuteHolds(p) && DecodeHolds(p) && p.decode.pcDe == Add(p.execute.pcDe, 4) &&
      if Halted(p) then OperandsWaiting(p) && HaltSafe(p) else OperandsReady(p)
  }
}
