/** The records between the pipeline stages (models/pipeline/pipeline/stages_states.h) and the
    combinational logic of the decode, execute and memory stages as functions of their inputs. */
module Stages {
  import opened Words
  import opened PipelineInstruction
  import opened ControlSignals
  import opened Memory
  import opened RegisterFile
  import Alu

  datatype DecodeState = DecodeState(vDe: bool, pcDe: Word, instr: Word)

  datatype ExecuteState = ExecuteState(
    funct3: bv3, signals: Signals, vDe: bool, data1: Word, data2: Word, pcDe: Word, instr: Word)

  datatype MemoryState = MemoryState(
    memWe: bool, memToReg: bool, wbWe: bool, jmpCond: bool, storeMode: bv3,
    writeData: Word, aluRes: Word, wbA: RegIdx)

  datatype WriteBackState = WriteBackState(wbWe: bool, wbD: Word, wbA: RegIdx)

  /** What `clear()` stores: the value 0 converted to each record type. */
  const CLEAR_DECODE := DecodeState(false, 0, 0)
  const CLEAR_SIGNALS :=
    Signals(false, false, false, false, false, false, Alu.CmpControl.NOP, false, Alu.ALUControl.NOP)
  const CLEAR_EXECUTE := ExecuteState(0, CLEAR_SIGNALS, false, 0, 0, 0, 0)
  const CLEAR_MEMORY := MemoryState(false, false, false, false, 0, 0, 0, 0)
  const CLEAR_WRITE_BACK := WriteBackState(false, 0, 0)

  /** A stage register (models/pipeline/modules/register.h); the stages hold them by value. */
  datatype Register<T> = Register(enableFlag: bool, next: T, current: T) {
    function Tick(): Register<T> {
      if enableFlag then this.(current := next) else this
    }

    function Clear(zero: T): Register<T> {
      this.(current := zero, next := zero)
    }
  }

  /** The execute record that `DoDecode` builds from a word, its address and the registers. */
  function DecodeStage(signals: Signals, w: Word, pcDe: Word, readData1: Word, readData2: Word, vDe: bool)
    : ExecuteState
  {
    ExecuteState(GetFunct3(w), signals, vDe, SourceA(w, pcDe, readData1), readData2, pcDe, w)
  }

  /** The two multiplexers in front of `data1`: AUIPC takes its address, LUI takes 0. */
  function SourceA(w: Word, pcDe: Word, readData1: Word): Word {
    if GetOpcode(w) == LUI then 0 else if GetOpcode(w) == AUIPC then pcDe else readData1
  }

  datatype Executed = Executed(memory: MemoryState, pcR: bool, pcDisp: Word)

  /** The execute stage for the operands that the forwarding multiplexers selected. */
  function ExecuteStage(e: ExecuteState, srcA: Word, rs2v: Word): Executed {
    var imm := ImmediateExtensionBlock(e.instr);
    var srcB := if e.signals.aluSrc2 then imm else rs2v;
    var aluRes := Alu.ALU(e.signals.aluOp, srcA, srcB);
    var pcR := e.signals.jmpCond || (Alu.Cmp(e.signals.cmpControl, srcA, rs2v) && e.signals.brnCond);
    Executed(
      MemoryState(
        e.signals.memWe && !e.vDe, e.signals.memToReg, e.signals.wbWe && !e.vDe, e.signals.jmpCond, e.funct3,
        rs2v, if e.signals.jmpCond then Add(e.pcDe, 4) else aluRes, GetRd(e.instr)),
      pcR,
      if e.signals.isJalr then ClearBitZero(aluRes) else imm)
  }

  /** The adder of the fetch stage. */
  function NextPc(x: Executed, isJalr: bool, pcDe: Word, programCounter: Word): Word {
    var summand1 := if isJalr then 0 else if x.pcR then pcDe else programCounter;
    var summand2 := if x.pcR then x.pcDisp else 4;
    Add(summand1, summand2)
  }

  /** The memory stage: memory after the store, and the value handed to write-back. */
  function MemoryStage(ms: MemoryState, mem: Mem): Option<(Mem, Word)> {
    var stored := if ms.memWe then StoreValue(mem, ms.storeMode, ms.writeData, ms.aluRes) else Some(mem);
    if stored.None? then None
    else
      var loaded := if ms.memToReg then GetData(stored.value.bytes, ms.storeMode, ms.aluRes) else Some(ms.aluRes);
      if loaded.None? then None else Some((stored.value, loaded.value))
  }
}
