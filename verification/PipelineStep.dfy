/** One clock cycle of the five-stage pipeline as a synchronous circuit: the state between two ticks
    and, as a function of it, the state after the next tick
    (models/pipeline/pipeline/pipeline.cpp:12-296, models/pipeline/pipeline/pipeline.h:85-116).

    Everything that `Tick` overwrites before reading is left out of the state: the `next` halves of
    the stage registers, `pc_r`, `pc_disp`, `bp_mem` and the control unit. PipelineModel.dfy has them
    all and shows that the imperative stages compute this function. */
module PipelineStep {
  import opened Words
  import opened PipelineInstruction
  import opened ControlSignals
  import opened Memory
  import opened RegisterFile
  import opened Stages

  datatype Bypass = REG | MEM | WB

  datatype LoadConflictUsedWB = NONE | RS1 | RS2

  /** One record of the execution trace. */
  datatype ExecEvent = ExecEvent(instr: Word, location: Word)

  /** The input signals of `DataMemUnit`, which keep their values between accesses. */
  datatype DataMemPorts = DataMemPorts(storeMode: bv3, writeEnable: bool, address: Word, writeData: Word)

  datatype Pipeline = Pipeline(
    programCounter: Word,
    decode: DecodeState,
    execute: ExecuteState,
    memory: MemoryState,
    writeBack: WriteBackState,
    // the enable flags of the program counter and of the decode and execute registers
    enabled: bool,
    mustTakeHaltedWb: LoadConflictUsedWB, haltedWb: Word,
    huRs1: Bypass, huRs2: Bypass,
    ports: DataMemPorts,
    mem: Mem,
    regFile: RegFile,
    execTrace: seq<ExecEvent>, tracePrevPc: Word,
    ticksCounter: nat)

  /** What a finished run leaves behind. */
  datatype Final = Final(regFile: RegFile, mem: Mem, execTrace: seq<ExecEvent>, ticksCounter: nat)

  /** Either the machine goes on, or an exception ended the run. */
  datatype Outcome = Running(p: Pipeline) | Stopped(cause: Cause, final: Final)

  /** The machine after `SetPC(entry)` with the given registers and memory. */
  function Start(entry: Word, regFile: RegFile, mem: Mem): Pipeline {
    Pipeline(
      entry, CLEAR_DECODE, CLEAR_EXECUTE, CLEAR_MEMORY, CLEAR_WRITE_BACK,
      true, NONE, 0, REG, REG, DataMemPorts(0, false, 0, 0), mem, regFile, [], 0, 0)
  }

  /** The access ports are driven by loads and stores only. */
  function PortsOf(ms: MemoryState, ports: DataMemPorts): DataMemPorts {
    if ms.memToReg || ms.memWe then DataMemPorts(ms.storeMode, ms.memWe, ms.aluRes, ms.writeData) else ports
  }

  /** The memory stage: memory after a store and the word for write-back. Both inputs of the
      write-back multiplexer are evaluated, so the ports are read in every tick. */
  function MemoryAccess(ms: MemoryState, ports: DataMemPorts, mem: Mem): Option<(Mem, Word)> {
    var stored := if ms.memWe then StoreValue(mem, ports.storeMode, ports.writeData, ports.address) else Some(mem);
    if stored.None? then None
    else
      var data := GetData(stored.value.bytes, ports.storeMode, ports.address);
      if data.None? then None else Some((stored.value, if ms.memToReg then data.value else ms.aluRes))
  }

  function Multiplexer3(control: Bypass, reg: Word, mem: Word, wb: Word): Word {
    match control
    case REG => reg
    case MEM => mem
    case WB => wb
  }

  /** The operands that the execute stage selects. */
  function OperandA(p: Pipeline): Word {
    Multiplexer3(p.huRs1, if p.mustTakeHaltedWb == RS1 then p.haltedWb else p.execute.data1,
                 p.memory.aluRes, p.writeBack.wbD)
  }

  function OperandB(p: Pipeline): Word {
    Multiplexer3(p.huRs2, if p.mustTakeHaltedWb == RS2 then p.haltedWb else p.execute.data2,
                 p.memory.aluRes, p.writeBack.wbD)
  }

  function ExecutedNow(p: Pipeline): Executed {
    ExecuteStage(p.execute, OperandA(p), OperandB(p))
  }

  function NextNow(p: Pipeline): Word {
    NextPc(ExecutedNow(p), p.execute.signals.isJalr, p.execute.pcDe, p.programCounter)
  }

  /** The location filter of the execution trace. */
  function TraceExecuted(trace: seq<ExecEvent>, prevPc: Word, instr: Word, location: Word): seq<ExecEvent> {
    if instr != 0 && location != prevPc then trace + [ExecEvent(instr, location)] else trace
  }

  function TraceNow(p: Pipeline): seq<ExecEvent> {
    if p.enabled then TraceExecuted(p.execTrace, p.tracePrevPc, p.execute.instr, p.execute.pcDe) else p.execTrace
  }

  function PrevPcNow(p: Pipeline): Word {
    if p.enabled then p.execute.pcDe else p.tracePrevPc
  }

  function WriteBack(rf: RegFile, w: WriteBackState): RegFile {
    Write(rf, w.wbWe, w.wbA, w.wbD)
  }

  /** The bypass selector of one operand. */
  function Select(uses: bool, rs: RegIdx, ms: MemoryState, wb: WriteBackState): Bypass {
    if uses && rs != 0 then
      if rs == ms.wbA && ms.wbWe then MEM
      else if rs == wb.wbA && wb.wbWe then WB
      else REG
    else REG
  }

  /** The drain after an exception of the control unit: the results of this tick's execute and
      memory stages go through memory and write-back once more. */
  function Drain(cause: Cause, x: MemoryState, w: WriteBackState, ports: DataMemPorts, mem: Mem, rf: RegFile,
                 trace: seq<ExecEvent>, ticks: nat): Outcome
  {
    match MemoryAccess(x, PortsOf(x, ports), mem)
    case None => Stopped(InvalidMemoryMode, Final(rf, mem, trace, ticks))
    case Some((mem1, wbD)) =>
      Stopped(cause,
              Final(WriteBack(WriteBack(rf, w), WriteBackState(x.wbWe, wbD, x.wbA)), mem1, trace, ticks))
  }

  function Tick(p: Pipeline): Outcome {
    var ports := PortsOf(p.memory, p.ports);
    match MemoryAccess(p.memory, ports, p.mem)
    case None => Stopped(InvalidMemoryMode, Final(p.regFile, p.mem, p.execTrace, p.ticksCounter))
    case Some((mem, wbD)) =>
      var x := ExecutedNow(p);
      var w := WriteBackState(p.memory.wbWe, wbD, p.memory.wbA);
      var rf := WriteBack(p.regFile, p.writeBack);
      var d := p.decode;
      match ControlOf(d.instr)
      case Reject(cause) =>
        var trace := if cause == Ecall || cause == Ebreak
                     then TraceExecuted(TraceNow(p), PrevPcNow(p), d.instr, d.pcDe) else TraceNow(p);
        Drain(cause, x.memory, w, ports, mem, rf, trace, p.ticksCounter)
      case Accept(signals) =>
        if !Aligned(NextNow(p)) then Stopped(Misaligned, Final(rf, mem, TraceNow(p), p.ticksCounter))
        else
          Running(ClockEdge(p, x, mem, w, rf, ports,
                            DecodeStage(signals, d.instr, d.pcDe, Read(rf, GetRs1(d.instr)), Read(rf, GetRs2(d.instr)),
                                        x.pcR || d.vDe)))
  }

  /** A halt saves a write-back operand, which will have left the pipeline when the halt ends. */
  function SavedSource(p: Pipeline): LoadConflictUsedWB {
    if p.enabled then NONE else if p.huRs1 == WB then RS1 else if p.huRs2 == WB then RS2 else p.mustTakeHaltedWb
  }

  function SavedValue(p: Pipeline): Word {
    if !p.enabled && (p.huRs1 == WB || p.huRs2 == WB) then p.writeBack.wbD else p.haltedWb
  }

  /** The clock edge and the hazard unit. */
  function ClockEdge(p: Pipeline, x: Executed, mem: Mem, w: WriteBackState, rf: RegFile, ports: DataMemPorts,
                     decoded: ExecuteState): Pipeline
  {
    // a taken transfer clears the two younger instructions; the selectors keep their values
    var redirect := p.enabled && x.pcR;
    var execute := if redirect then CLEAR_EXECUTE else if p.enabled then decoded else p.execute;
    // a halted execute stage sends a bubble
    var memory := if p.enabled then x.memory else CLEAR_MEMORY;
    // the hazard unit matches by the format of the word that was in decode during this tick
    var instrType := GetInstructionType(GetOpcode(p.decode.instr));
    var huRs1 := if redirect then p.huRs1 else Select(HasRs1(instrType), GetRs1(execute.instr), memory, w);
    var huRs2 := if redirect then p.huRs2 else Select(HasRs2(instrType), GetRs2(execute.instr), memory, w);
    Pipeline(
      if p.enabled then NextNow(p) else p.programCounter,
      if redirect then CLEAR_DECODE
      else if p.enabled then DecodeState(x.pcR, p.programCounter, GetWord(mem.bytes, p.programCounter))
      else p.decode,
      execute, memory, w,
      redirect || !(memory.memToReg && (huRs1 == MEM || huRs2 == MEM)),
      SavedSource(p), SavedValue(p),
      huRs1, huRs2, ports, mem, rf, TraceNow(p), PrevPcNow(p), p.ticksCounter + 1)
  }

  /** What `Run` does before each tick: the first two point the data memory unit at the program. */
  function Prepare(p: Pipeline): Pipeline {
    if p.ticksCounter < 2 then p.(ports := p.ports.(address := p.programCounter)) else p
  }

  /** The machine after t iterations of the loop of `Run`, unless it stopped before. */
  function Ticks(p: Pipeline, t: nat): Outcome {
    if t == 0 then Running(p)
    else
      match Ticks(p, t - 1)
      case Running(q) => Tick(Prepare(q))
      case Stopped(c, f) => Stopped(c, f)
  }
}
