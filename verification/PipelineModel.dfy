/** The pipeline model as the program writes it: stages that assign the `next` halves of the stage
    registers, a clock edge, and a hazard unit (models/pipeline/pipeline/pipeline.cpp,
    models/pipeline/pipeline/pipeline.h). `Tick` is proved to compute PipelineStep.Tick, and `Run` to
    iterate it until the run ends. */
module PipelineModel {
  import opened Words
  import opened PipelineInstruction
  import opened Stages
  import opened Modules
  import C = ControlSignals
  import M = Memory
  import R = RegisterFile
  import A = Alu
  import S = PipelineStep

  class PipelineModel {
    var programCounter: Register<Word>
    var decodeRegister: Register<DecodeState>
    var executeRegister: Register<ExecuteState>
    var memoryRegister: Register<MemoryState>
    var writeBackRegister: Register<WriteBackState>
    const mmu: MMU
    const dataMemUnit: DataMemUnit
    const regFile: RegFile
    const controlUnit: ControlUnit
    var bpMem: Word
    var pcDisp: Word
    var pcR: bool
    var mustTakeHaltedWb: S.LoadConflictUsedWB
    var haltedWb: Word
    var huRs1: S.Bypass
    var huRs2: S.Bypass
    var execTrace: seq<S.ExecEvent>
    var tracePrevPc: Word
    var ticksCounter: nat

    /** The machine and its units. */
    ghost function Repr(): set<object> {
      {this, mmu, dataMemUnit, regFile, regFile.regs, controlUnit}
    }

    /** The units are wired together and the three enable flags agree. */
    ghost predicate Valid()
      reads Repr()
    {
      Wired() &&
      programCounter.enableFlag == decodeRegister.enableFlag == executeRegister.enableFlag &&
      memoryRegister.enableFlag && writeBackRegister.enableFlag
    }

    ghost predicate Wired()
      reads Repr()
    {
      regFile.Valid() && dataMemUnit.mmu == mmu
    }

    ghost function Ports(): S.DataMemPorts
      reads dataMemUnit
    {
      S.DataMemPorts(dataMemUnit.storeMode, dataMemUnit.writeEnable, dataMemUnit.address, dataMemUnit.writeData)
    }

    /** The state between two ticks. */
    ghost function View(): S.Pipeline
      reads Repr()
      requires Valid()
    {
      S.Pipeline(
        programCounter.current, decodeRegister.current, executeRegister.current, memoryRegister.current,
        writeBackRegister.current, programCounter.enableFlag, mustTakeHaltedWb, haltedWb, huRs1, huRs2,
        Ports(), mmu.mem, regFile.Value(), execTrace, tracePrevPc, ticksCounter)
    }

    /** What a run leaves behind. */
    ghost function Outcome(): S.Final
      reads Repr()
      requires Wired()
    {
      S.Final(regFile.Value(), mmu.mem, execTrace, ticksCounter)
    }

    constructor (mem: M.Mem)
      ensures Valid() && fresh(Repr())
      ensures View() == S.Start(0, R.CLEAR, mem)
    {
      programCounter := Register(true, 0, 0);
      decodeRegister := Register(true, CLEAR_DECODE, CLEAR_DECODE);
      executeRegister := Register(true, CLEAR_EXECUTE, CLEAR_EXECUTE);
      memoryRegister := Register(true, CLEAR_MEMORY, CLEAR_MEMORY);
      writeBackRegister := Register(true, CLEAR_WRITE_BACK, CLEAR_WRITE_BACK);
      var memory := new MMU(mem);
      mmu := memory;
      dataMemUnit := new DataMemUnit(memory);
      regFile := new RegFile();
      controlUnit := new ControlUnit();
      bpMem, pcDisp, pcR := 0, 0, false;
      mustTakeHaltedWb, haltedWb, huRs1, huRs2 := S.NONE, 0, S.REG, S.REG;
      execTrace, tracePrevPc, ticksCounter := [], 0, 0;
      new;
      assert regFile.Value().regs == R.CLEAR.regs;
    }

    /** The memory stage: drive the data memory unit, fill the write-back register, publish the
        forwarding value. False stands for an invalid access mode. */
    method DoMemory() returns (ok: bool)
      requires Wired()
      modifies dataMemUnit, mmu, this`writeBackRegister, this`bpMem
      ensures Wired() && Ports() == S.PortsOf(memoryRegister.current, old(Ports()))
      ensures ok == S.MemoryAccess(memoryRegister.current, Ports(), old(mmu.mem)).Some?
      ensures !ok ==> mmu.mem == old(mmu.mem)
      ensures ok ==>
        var (mem, wbD) := S.MemoryAccess(memoryRegister.current, Ports(), old(mmu.mem)).value;
        var ms := memoryRegister.current;
        mmu.mem == mem && bpMem == ms.aluRes &&
        writeBackRegister == old(writeBackRegister).(next := WriteBackState(ms.wbWe, wbD, ms.wbA))
    {
      hide M.GetData, M.StoreValue;
      var ms := memoryRegister.current;
      ok := true;
      if ms.memToReg || ms.memWe {
        dataMemUnit.storeMode := ms.storeMode;
        dataMemUnit.writeEnable := ms.memWe;
        dataMemUnit.address := ms.aluRes;
        dataMemUnit.writeData := ms.writeData;
        ok := dataMemUnit.Tick();
      }
      if ok {
        var data := dataMemUnit.GetData();
        StoreModesLoad(old(mmu.mem), dataMemUnit.storeMode, dataMemUnit.writeData, dataMemUnit.address);
        ok := data.Some?;
        if ok {
          writeBackRegister := writeBackRegister.(
            next := WriteBackState(ms.wbWe, if ms.memToReg then data.value else ms.aluRes, ms.wbA));
          bpMem := ms.aluRes;
        }
      }
    }

    static lemma StoreModesLoad(m: M.Mem, mode: bv3, value: Word, a: Word)
      ensures M.StoreValue(m, mode, value, a).Some? ==>
              M.GetData(M.StoreValue(m, mode, value, a).value.bytes, mode, a).Some?
    {
      hide M.SetByte, M.SetHalf, M.SetWord, M.GetByte, M.GetHalf, M.GetWord;
    }

    /** The location filter of the execution trace. */
    method TraceExecutedInstruction(instr: Word, location: Word)
      modifies this`execTrace, this`tracePrevPc
      ensures execTrace == S.TraceExecuted(old(execTrace), old(tracePrevPc), instr, location) && tracePrevPc == location
    {
      if instr != 0 && location != tracePrevPc {
        execTrace := execTrace + [S.ExecEvent(instr, location)];
      }
      tracePrevPc := location;
    }

    /** What the execute stage computes from the registers and the forwarding network. */
    ghost function Computed(): Executed
      reads this
    {
      var e := executeRegister.current;
      var wbD := writeBackRegister.current.wbD;
      ExecuteStage(e,
        S.Multiplexer3(huRs1, if mustTakeHaltedWb == S.RS1 then haltedWb else e.data1, bpMem, wbD),
        S.Multiplexer3(huRs2, if mustTakeHaltedWb == S.RS2 then haltedWb else e.data2, bpMem, wbD))
    }

    /** The operands. */
    method Datapath() returns (x: Executed)
      ensures x == Computed()
    {
      hide S.Multiplexer3, ExecuteStage;
      var currentWbData := writeBackRegister.current.wbD;
      var e := executeRegister.current;
      var srcA := S.Multiplexer3(huRs1, if mustTakeHaltedWb == S.RS1 then haltedWb else e.data1, bpMem, currentWbData);
      var rs2v := S.Multiplexer3(huRs2, if mustTakeHaltedWb == S.RS2 then haltedWb else e.data2, bpMem, currentWbData);
      x := Compute(e, srcA, rs2v);
    }

    /** The arithmetic unit, the comparator and the branch target. */
    static method Compute(e: ExecuteState, srcA: Word, rs2v: Word) returns (x: Executed)
      ensures x == ExecuteStage(e, srcA, rs2v)
    {
      hide ImmediateExtensionBlock, A.ALU, A.Cmp, GetRd, Add, ClearBitZero;
      var disp := ImmediateExtensionBlock(e.instr);
      var srcB := if e.signals.aluSrc2 then disp else rs2v;
      var aluRes := A.ALU(e.signals.aluOp, srcA, srcB);
      var cmpRes := A.Cmp(e.signals.cmpControl, srcA, rs2v);
      var redirect := e.signals.jmpCond || (cmpRes && e.signals.brnCond);
      if e.signals.isJalr {
        disp := ClearBitZero(aluRes);
      }
      if e.signals.jmpCond {
        aluRes := Add(e.pcDe, 4);
      }
      x := Executed(
        MemoryState(e.signals.memWe && !e.vDe, e.signals.memToReg, e.signals.wbWe && !e.vDe, e.signals.jmpCond,
                    e.funct3, rs2v, aluRes, GetRd(e.instr)),
        redirect, disp);
    }

    /** The write-back value does not reach a halted execute register: keep it for the next tick. */
    method SaveForwarded()
      modifies this`mustTakeHaltedWb, this`haltedWb
      ensures var runs := executeRegister.enableFlag;
        mustTakeHaltedWb == (if runs then S.NONE else if huRs1 == S.WB then S.RS1 else if huRs2 == S.WB then S.RS2
                             else old(mustTakeHaltedWb)) &&
        haltedWb == if !runs && (huRs1 == S.WB || huRs2 == S.WB) then writeBackRegister.current.wbD else old(haltedWb)
    {
      if !executeRegister.enableFlag {
        if huRs1 == S.WB {
          mustTakeHaltedWb, haltedWb := S.RS1, writeBackRegister.current.wbD;
        } else if huRs2 == S.WB {
          mustTakeHaltedWb, haltedWb := S.RS2, writeBackRegister.current.wbD;
        }
      } else {
        mustTakeHaltedWb := S.NONE;
      }
    }

    /** The execute stage. */
    method DoExecute()
      modifies this`memoryRegister, this`decodeRegister, this`pcDisp, this`pcR, this`mustTakeHaltedWb, this`haltedWb,
               this`execTrace, this`tracePrevPc
      ensures memoryRegister == old(memoryRegister).(next := old(Computed()).memory)
      ensures pcR == old(Computed()).pcR && pcDisp == old(Computed()).pcDisp
      ensures decodeRegister == old(decodeRegister).(next := old(decodeRegister.next).(vDe := pcR))
      ensures var e := executeRegister.current; var runs := executeRegister.enableFlag;
        execTrace == (if runs then S.TraceExecuted(old(execTrace), old(tracePrevPc), e.instr, e.pcDe)
          else old(execTrace)) &&
        tracePrevPc == (if runs then e.pcDe else old(tracePrevPc)) &&
        mustTakeHaltedWb == (if runs then S.NONE else if huRs1 == S.WB then S.RS1 else if huRs2 == S.WB then S.RS2
                             else old(mustTakeHaltedWb)) &&
        haltedWb == if !runs && (huRs1 == S.WB || huRs2 == S.WB) then writeBackRegister.current.wbD else old(haltedWb)
    {
      hide Computed, S.TraceExecuted;
      var x := Datapath();
      memoryRegister, pcR, pcDisp := memoryRegister.(next := x.memory), x.pcR, x.pcDisp;
      decodeRegister := decodeRegister.(next := decodeRegister.next.(vDe := pcR));
      if executeRegister.enableFlag {
        TraceExecutedInstruction(executeRegister.current.instr, executeRegister.current.pcDe);
      }
      SaveForwarded();
    }

    /** The fetch stage. False stands for a misaligned program counter. */
    method DoFetch() returns (ok: bool)
      modifies this`programCounter, this`decodeRegister
      ensures var x := Executed(memoryRegister.next, pcR, pcDisp); var e := executeRegister.current;
        programCounter == old(programCounter).(next := NextPc(x, e.signals.isJalr, e.pcDe, old(programCounter.current)))
      ensures ok == Aligned(programCounter.next)
      ensures ok ==> decodeRegister == old(decodeRegister).(next := old(decodeRegister.next).(
        instr := M.GetWord(mmu.mem.bytes, programCounter.current), pcDe := programCounter.current))
    {
      hide NextPc, Aligned, M.GetWord;
      var next := AddTarget(executeRegister.current, programCounter.current, pcR, pcDisp, memoryRegister.next);
      programCounter := programCounter.(next := next);
      ok := Aligned(next);
      if ok {
        var fetched := M.GetWord(mmu.mem.bytes, programCounter.current);
        decodeRegister := decodeRegister.(next := decodeRegister.next.(instr := fetched,
          pcDe := programCounter.current));
      }
    }

    /** The adder of the fetch stage and the multiplexers in front of it. */
    static method AddTarget(e: ExecuteState, pc: Word, pcR: bool, pcDisp: Word,
        ghost ms: MemoryState) returns (next: Word)
      ensures next == NextPc(Executed(ms, pcR, pcDisp), e.signals.isJalr, e.pcDe, pc)
    {
      hide Add;
      var summand1 := if pcR then e.pcDe else pc;
      var summand2 := if pcR then pcDisp else 4;
      if e.signals.isJalr {
        summand1 := 0;
      }
      next := Add(summand1, summand2);
    }

    method SetEnableFlags(flag: bool)
      modifies this`programCounter, this`decodeRegister, this`executeRegister
      ensures programCounter == old(programCounter).(enableFlag := flag)
      ensures decodeRegister == old(decodeRegister).(enableFlag := flag)
      ensures executeRegister == old(executeRegister).(enableFlag := flag)
    {
      programCounter := programCounter.(enableFlag := flag);
      decodeRegister := decodeRegister.(enableFlag := flag);
      executeRegister := executeRegister.(enableFlag := flag);
    }

    /** The selector of one operand. */
    method Selector(uses: bool, rs: RegIdx) returns (hu: S.Bypass)
      ensures hu == S.Select(uses, rs, memoryRegister.current, writeBackRegister.current)
    {
      if uses && rs != 0 {
        if rs == memoryRegister.current.wbA && memoryRegister.current.wbWe {
          hu := S.MEM;
        } else if rs == writeBackRegister.current.wbA && writeBackRegister.current.wbWe {
          hu := S.WB;
        } else {
          hu := S.REG;
        }
      } else {
        hu := S.REG;
      }
    }

    /** The hazard unit, after the clock edge. */
    method HazardUnitTick()
      modifies this`decodeRegister, this`executeRegister, this`programCounter, this`huRs1, this`huRs2
      ensures HazardResult(
        old(executeRegister.enableFlag) && pcR, controlUnit.instrType, memoryRegister.current,
        writeBackRegister.current, old(programCounter), old(decodeRegister), old(executeRegister), old(huRs1),
        old(huRs2),
        programCounter, decodeRegister, executeRegister, huRs1, huRs2)
    {
      hide GetRs1, GetRs2, S.Select, HasRs1, HasRs2;
      // a halted tick may have computed a wrong pcR
      if executeRegister.enableFlag && pcR {
        decodeRegister := decodeRegister.Clear(CLEAR_DECODE);
        executeRegister := executeRegister.Clear(CLEAR_EXECUTE);
        return;
      }
      var wasHalted := SelectOperands();
      SetEnableFlags(!wasHalted);
    }

    /** Both selectors; true if one of them waits for a load. */
    method SelectOperands() returns (wasHalted: bool)
      modifies this`huRs1, this`huRs2
      ensures var w := executeRegister.current.instr; var t := controlUnit.instrType;
        huRs1 == S.Select(HasRs1(t), GetRs1(w), memoryRegister.current, writeBackRegister.current) &&
        huRs2 == S.Select(HasRs2(t), GetRs2(w), memoryRegister.current, writeBackRegister.current)
      ensures wasHalted == (memoryRegister.current.memToReg && (huRs1 == S.MEM || huRs2 == S.MEM))
    {
      hide GetRs1, GetRs2, S.Select;
      var w := executeRegister.current.instr;
      wasHalted := false;
      huRs1 := Selector(HasRs1(controlUnit.instrType), GetRs1(w));
      if huRs1 == S.MEM && memoryRegister.current.memToReg {
        wasHalted := true;
      }
      huRs2 := Selector(HasRs2(controlUnit.instrType), GetRs2(w));
      if huRs2 == S.MEM && memoryRegister.current.memToReg {
        wasHalted := true;
      }
    }

    /** The clock edge; a halt sends a bubble to the memory stage. */
    method TickRegisters()
      modifies this`programCounter, this`decodeRegister, this`executeRegister, this`memoryRegister,
        this`writeBackRegister
      ensures decodeRegister == old(decodeRegister).Tick() && executeRegister == old(executeRegister).Tick()
      ensures memoryRegister
           == (if old(programCounter.enableFlag) then old(memoryRegister)
             else old(memoryRegister).Clear(CLEAR_MEMORY)).Tick()
      ensures writeBackRegister == old(writeBackRegister).Tick() && programCounter == old(programCounter).Tick()
    {
      if !programCounter.enableFlag {
        memoryRegister := memoryRegister.Clear(CLEAR_MEMORY);
      }
      decodeRegister := decodeRegister.Tick();
      executeRegister := executeRegister.Tick();
      memoryRegister := memoryRegister.Tick();
      writeBackRegister := writeBackRegister.Tick();
      programCounter := programCounter.Tick();
    }

    /** The register file: write back, then read. */
    method AccessRegisters(rs1: RegIdx, rs2: RegIdx)
      requires Wired()
      modifies regFile, regFile.regs
      ensures Wired() && regFile.Value() == S.WriteBack(old(regFile.Value()), writeBackRegister.current)
      ensures regFile.readData1 == R.Read(regFile.Value(), rs1) && regFile.readData2 == R.Read(regFile.Value(), rs2)
    {
      hide R.Read, R.Write;
      var w := writeBackRegister.current;
      regFile.SetNewSignals(rs1, rs2, w.wbA, w.wbWe, w.wbD);
      regFile.Tick();
    }

    /** Finish the instructions that were in the execute and memory stages. */
    method DoLastTicks() returns (ok: bool)
      requires Wired() && memoryRegister.enableFlag && writeBackRegister.enableFlag
      modifies this`memoryRegister, this`writeBackRegister, this`bpMem, dataMemUnit, mmu, regFile, regFile.regs
      ensures Wired()
      ensures var x := old(memoryRegister.next);
        match S.MemoryAccess(x, S.PortsOf(x, old(Ports())), old(mmu.mem))
        case None => !ok && regFile.Value() == old(regFile.Value()) && mmu.mem == old(mmu.mem)
        case Some((mem, wbD)) =>
          ok && mmu.mem == mem &&
          regFile.Value() == S.WriteBack(S.WriteBack(old(regFile.Value()), old(writeBackRegister.next)),
                                         WriteBackState(x.wbWe, wbD, x.wbA))
    {
      hide S.MemoryAccess, S.PortsOf, S.WriteBack, R.Read;
      memoryRegister := memoryRegister.Tick();
      writeBackRegister := writeBackRegister.Tick();
      ok := DoMemory();
      if ok {
        AccessRegisters(0, 0);
        writeBackRegister := writeBackRegister.Tick();
        AccessRegisters(0, 0);
      }
    }

    /** The decode stage up to the point where the control unit may raise. */
    method Decode() returns (raised: Option<C.Cause>)
      requires Wired()
      modifies regFile, regFile.regs, controlUnit, this`executeRegister
      ensures Wired() && regFile.Value() == S.WriteBack(old(regFile.Value()), writeBackRegister.current)
      ensures var d := decodeRegister.current;
        match C.ControlOf(d.instr)
        case Reject(cause) => raised == Some(cause) && executeRegister == old(executeRegister)
        case Accept(signals) =>
          raised == None && controlUnit.instrType == GetInstructionType(GetOpcode(d.instr)) &&
          executeRegister == old(executeRegister).(
            next := DecodeStage(signals, d.instr, d.pcDe, R.Read(regFile.Value(), GetRs1(d.instr)),
                                R.Read(regFile.Value(), GetRs2(d.instr)), pcR || d.vDe))
    {
      hide R.Read, R.Write, GetRs1, GetRs2, GetOpcode, GetFunct3, GetFunct7, GetInstructionType, C.ControlTick,
           DecodeStage, S.WriteBack, RegFile.Value, ControlUnit.LoadControlSignals;
      var d := decodeRegister.current;
      AccessRegisters(GetRs1(d.instr), GetRs2(d.instr));
      controlUnit.SetInstruction(d.instr);
      raised := controlUnit.Tick();
      if raised == None {
        FillExecute();
      }
    }

    /** The execute record of the decoded instruction. */
    method FillExecute()
      requires var w := decodeRegister.current.instr;
        controlUnit.opcode == GetOpcode(w) && controlUnit.funct3 == GetFunct3(w)
      modifies this`executeRegister
      ensures var d := decodeRegister.current;
        executeRegister == old(executeRegister).(
          next := DecodeStage(controlUnit.LoadControlSignals(), d.instr, d.pcDe, regFile.readData1, regFile.readData2,
                              pcR || d.vDe))
    {
      hide GetOpcode, GetFunct3;
      var d := decodeRegister.current;
      var data1 := if controlUnit.opcode == AUIPC then d.pcDe else regFile.readData1;
      data1 := if controlUnit.opcode == LUI then 0 else data1;
      executeRegister := executeRegister.(
        next := ExecuteState(controlUnit.funct3, controlUnit.LoadControlSignals(), pcR || d.vDe, data1,
                             regFile.readData2, d.pcDe, d.instr));
    }

    /** The decode stage; an exception drains the pipeline before it goes on to the caller. */
    method DoDecode() returns (raised: Option<C.Cause>)
      requires Wired() && memoryRegister.enableFlag && writeBackRegister.enableFlag
      modifies regFile, regFile.regs, controlUnit, dataMemUnit, mmu, this`executeRegister, this`memoryRegister,
               this`writeBackRegister, this`bpMem, this`execTrace, this`tracePrevPc
      ensures Wired()
      ensures var d := decodeRegister.current;
        var rf := S.WriteBack(old(regFile.Value()), old(writeBackRegister.current));
        match C.ControlOf(d.instr)
        case Accept(signals) =>
          raised == None && regFile.Value() == rf &&
          controlUnit.instrType == GetInstructionType(GetOpcode(d.instr)) &&
          executeRegister == old(executeRegister).(
            next := DecodeStage(signals, d.instr, d.pcDe, R.Read(rf, GetRs1(d.instr)), R.Read(rf, GetRs2(d.instr)),
                                pcR || d.vDe)) &&
          memoryRegister == old(memoryRegister) && writeBackRegister == old(writeBackRegister) &&
            mmu.mem == old(mmu.mem) &&
          execTrace == old(execTrace) && tracePrevPc == old(tracePrevPc) && Ports() == old(Ports())
        case Reject(cause) =>
          var trace := if cause == C.Ecall || cause == C.Ebreak
                       then S.TraceExecuted(old(execTrace), old(tracePrevPc), d.instr, d.pcDe) else old(execTrace);
          var o := S.Drain(cause, old(memoryRegister.next), old(writeBackRegister.next), old(Ports()), old(mmu.mem),
                           rf, trace, ticksCounter);
          o.Stopped? && raised == Some(o.cause) && Outcome() == o.final
    {
      hide S.Drain, S.WriteBack, R.Read, C.ControlOf, DecodeStage, GetInstructionType, GetOpcode, GetRs1, GetRs2,
           S.TraceExecuted, RegFile.Value, Ports;
      raised := Decode();
      if raised != None {
        var cause := RecordAndDrain(raised.value);
        raised := Some(cause);
      }
    }

    /** What follows an exception of the control unit: ECALL and EBREAK are recorded, and the pipeline drains. */
    method RecordAndDrain(cause: C.Cause) returns (raised: C.Cause)
      requires Wired() && memoryRegister.enableFlag && writeBackRegister.enableFlag
      modifies regFile, regFile.regs, dataMemUnit, mmu, this`memoryRegister, this`writeBackRegister, this`bpMem,
               this`execTrace, this`tracePrevPc
      ensures Wired()
      ensures var d := decodeRegister.current;
        var trace := if cause == C.Ecall || cause == C.Ebreak
                     then S.TraceExecuted(old(execTrace), old(tracePrevPc), d.instr, d.pcDe) else old(execTrace);
        S.Stopped(raised, Outcome()) == S.Drain(cause, old(memoryRegister.next), old(writeBackRegister.next),
                                                old(Ports()), old(mmu.mem), old(regFile.Value()), trace, ticksCounter)
    {
      hide S.MemoryAccess, S.PortsOf, S.WriteBack, S.TraceExecuted, RegFile.Value;
      raised := cause;
      if cause == C.Ecall || cause == C.Ebreak {
        TraceExecutedInstruction(decodeRegister.current.instr, decodeRegister.current.pcDe);
      }
      var ok := DoLastTicks();
      if !ok {
        raised := C.InvalidMemoryMode;
      }
    }

    /** The clock edge is next: x, w and decoded are what the stages have computed from state p. */
    ghost predicate BeforeEdge(p: S.Pipeline, x: Executed, w: WriteBackState, decoded: ExecuteState)
      reads this, controlUnit
    {
      var runs := p.enabled;
      programCounter == Register(runs, S.NextNow(p), p.programCounter) &&
      decodeRegister.enableFlag == runs && decodeRegister.current == p.decode && decodeRegister.next.vDe == x.pcR &&
      executeRegister == Register(runs, decoded, p.execute) &&
      memoryRegister.enableFlag && memoryRegister.next == x.memory &&
      writeBackRegister.enableFlag && writeBackRegister.next == w &&
      pcR == x.pcR && controlUnit.instrType == GetInstructionType(GetOpcode(p.decode.instr)) &&
      huRs1 == p.huRs1 && huRs2 == p.huRs2 && execTrace == S.TraceNow(p) && tracePrevPc == S.PrevPcNow(p) &&
      ticksCounter == p.ticksCounter &&
      mustTakeHaltedWb == S.SavedSource(p) && haltedWb == S.SavedValue(p)
    }

    /** The registers after the clock edge, before the hazard unit. */
    ghost predicate AfterClock(p: S.Pipeline, x: Executed, w: WriteBackState, decoded: ExecuteState,
        fetched: DecodeState)
      reads this, controlUnit
    {
      var runs := p.enabled;
      programCounter.enableFlag == runs && decodeRegister.enableFlag == runs && executeRegister.enableFlag == runs &&
      memoryRegister.enableFlag && writeBackRegister.enableFlag &&
      programCounter.current == (if runs then S.NextNow(p) else p.programCounter) &&
      decodeRegister.current == (if runs then fetched else p.decode) &&
      executeRegister.current == (if runs then decoded else p.execute) &&
      memoryRegister.current == (if runs then x.memory else CLEAR_MEMORY) && writeBackRegister.current == w &&
      pcR == x.pcR && controlUnit.instrType == GetInstructionType(GetOpcode(p.decode.instr)) &&
      huRs1 == p.huRs1 && huRs2 == p.huRs2 && execTrace == S.TraceNow(p) && tracePrevPc == S.PrevPcNow(p) &&
      ticksCounter == p.ticksCounter &&
      mustTakeHaltedWb == S.SavedSource(p) && haltedWb == S.SavedValue(p)
    }

    method ClockOn(ghost p: S.Pipeline, ghost x: Executed, ghost w: WriteBackState, ghost decoded: ExecuteState,
                   ghost fetched: DecodeState)
      requires BeforeEdge(p, x, w, decoded) && decodeRegister.next == fetched
      modifies this`programCounter, this`decodeRegister, this`executeRegister, this`memoryRegister,
        this`writeBackRegister
      ensures AfterClock(p, x, w, decoded, fetched)
    {
      hide S.NextNow, S.TraceNow, S.PrevPcNow, S.SavedSource, S.SavedValue, GetInstructionType, GetOpcode;
      TickRegisters();
    }

    /** The circuit's next state after a redirect. */
    static lemma EdgeRedirects(p: S.Pipeline, x: Executed, mem: M.Mem, w: WriteBackState, rf: R.RegFile,
                               ports: S.DataMemPorts, decoded: ExecuteState)
      requires p.enabled && x.pcR
      ensures S.ClockEdge(p, x, mem, w, rf, ports, decoded) == S.Pipeline(
        S.NextNow(p), CLEAR_DECODE, CLEAR_EXECUTE, x.memory, w, true, S.SavedSource(p), S.SavedValue(p),
        p.huRs1, p.huRs2, ports, mem, rf, S.TraceNow(p), S.PrevPcNow(p), p.ticksCounter + 1)
    {
      hide S.NextNow, S.TraceNow, S.PrevPcNow, S.SavedSource, S.SavedValue, S.Select, HasRs1, HasRs2, GetRs1, GetRs2,
           M.GetWord, GetInstructionType, GetOpcode;
    }

    /** And without one. */
    static lemma EdgeKeeps(p: S.Pipeline, x: Executed, mem: M.Mem, w: WriteBackState, rf: R.RegFile,
                           ports: S.DataMemPorts, decoded: ExecuteState, fetched: DecodeState)
      requires !(p.enabled && x.pcR)
      requires fetched == DecodeState(x.pcR, p.programCounter, M.GetWord(mem.bytes, p.programCounter))
      ensures var e := if p.enabled then decoded else p.execute; var ms := if p.enabled then x.memory else CLEAR_MEMORY;
        var t := GetInstructionType(GetOpcode(p.decode.instr));
        var hu1 := S.Select(HasRs1(t), GetRs1(e.instr), ms, w); var hu2 := S.Select(HasRs2(t), GetRs2(e.instr), ms, w);
        S.ClockEdge(p, x, mem, w, rf, ports, decoded) == S.Pipeline(
          if p.enabled then S.NextNow(p) else p.programCounter, if p.enabled then fetched else p.decode, e, ms, w,
          !(ms.memToReg && (hu1 == S.MEM || hu2 == S.MEM)), S.SavedSource(p), S.SavedValue(p), hu1, hu2, ports, mem, rf,
          S.TraceNow(p), S.PrevPcNow(p), p.ticksCounter + 1)
    {
      hide S.NextNow, S.TraceNow, S.PrevPcNow, S.SavedSource, S.SavedValue, S.Select, HasRs1, HasRs2, GetRs1, GetRs2,
           M.GetWord, GetInstructionType, GetOpcode;
    }

    /** What the hazard unit makes of the front registers and the selectors, as values. */
    static ghost predicate HazardResult(redirect: bool, t: InstructionType, ms: MemoryState, wb: WriteBackState,
        pc0: Register<Word>, decode0: Register<DecodeState>, execute0: Register<ExecuteState>, hu10: S.Bypass,
        hu20: S.Bypass, pc: Register<Word>, decode: Register<DecodeState>, execute: Register<ExecuteState>,
        hu1: S.Bypass, hu2: S.Bypass)
    {
      if redirect then
        decode == decode0.Clear(CLEAR_DECODE) && execute == execute0.Clear(CLEAR_EXECUTE) && pc == pc0 &&
        hu1 == hu10 && hu2 == hu20
      else
        var w := execute0.current.instr;
        var runs := !(ms.memToReg && (hu1 == S.MEM || hu2 == S.MEM));
        hu1 == S.Select(HasRs1(t), GetRs1(w), ms, wb) && hu2 == S.Select(HasRs2(t), GetRs2(w), ms, wb) &&
        pc == pc0.(enableFlag := runs) && decode == decode0.(enableFlag := runs) &&
          execute == execute0.(enableFlag := runs)
    }

    static lemma HazardValues(p: S.Pipeline, x: Executed, w: WriteBackState, decoded: ExecuteState,
        fetched: DecodeState, mem: M.Mem, rf: R.RegFile, ports: S.DataMemPorts, ms: MemoryState,
        pc0: Register<Word>, decode0: Register<DecodeState>, execute0: Register<ExecuteState>,
        pc: Register<Word>, decode: Register<DecodeState>, execute: Register<ExecuteState>, hu1: S.Bypass,
          hu2: S.Bypass)
      requires fetched == DecodeState(x.pcR, p.programCounter, M.GetWord(mem.bytes, p.programCounter))
      requires pc0.enableFlag == decode0.enableFlag == execute0.enableFlag == p.enabled
      requires pc0.current == (if p.enabled then S.NextNow(p) else p.programCounter)
      requires decode0.current == (if p.enabled then fetched else p.decode)
      requires execute0.current == (if p.enabled then decoded else p.execute)
      requires ms == (if p.enabled then x.memory else CLEAR_MEMORY)
      requires HazardResult(p.enabled && x.pcR, GetInstructionType(GetOpcode(p.decode.instr)), ms, w,
                            pc0, decode0, execute0, p.huRs1, p.huRs2, pc, decode, execute, hu1, hu2)
      ensures pc.enableFlag == decode.enableFlag == execute.enableFlag
      ensures S.ClockEdge(p, x, mem, w, rf, ports, decoded) == S.Pipeline(
        pc.current, decode.current, execute.current, ms, w, pc.enableFlag, S.SavedSource(p), S.SavedValue(p), hu1,
        hu2, ports, mem, rf, S.TraceNow(p), S.PrevPcNow(p), p.ticksCounter + 1)
    {
      hide S.NextNow, S.TraceNow, S.PrevPcNow, S.SavedSource, S.SavedValue, S.Select, HasRs1, HasRs2, GetRs1, GetRs2,
           M.GetWord, GetInstructionType, GetOpcode;
      if p.enabled && x.pcR {
        EdgeRedirects(p, x, mem, w, rf, ports, decoded);
      } else {
        EdgeKeeps(p, x, mem, w, rf, ports, decoded, fetched);
      }
    }

    /** The fields of the machine itself are those of state q. */
    ghost predicate Shows(q: S.Pipeline)
      reads this
    {
      programCounter.enableFlag == q.enabled && decodeRegister.enableFlag == q.enabled &&
      executeRegister.enableFlag == q.enabled && memoryRegister.enableFlag && writeBackRegister.enableFlag &&
      programCounter.current == q.programCounter && decodeRegister.current == q.decode &&
      executeRegister.current == q.execute && memoryRegister.current == q.memory &&
      writeBackRegister.current == q.writeBack && mustTakeHaltedWb == q.mustTakeHaltedWb && haltedWb == q.haltedWb &&
      huRs1 == q.huRs1 && huRs2 == q.huRs2 && execTrace == q.execTrace && tracePrevPc == q.tracePrevPc &&
      ticksCounter == q.ticksCounter
    }

    method HazardOn(ghost p: S.Pipeline, ghost x: Executed, ghost w: WriteBackState, ghost decoded: ExecuteState,
                    ghost fetched: DecodeState, ghost mem: M.Mem, ghost rf: R.RegFile, ghost ports: S.DataMemPorts)
      requires AfterClock(p, x, w, decoded, fetched)
      requires fetched == DecodeState(x.pcR, p.programCounter, M.GetWord(mem.bytes, p.programCounter))
      modifies this`decodeRegister, this`executeRegister, this`programCounter, this`huRs1, this`huRs2, this`ticksCounter
      ensures Shows(S.ClockEdge(p, x, mem, w, rf, ports, decoded))
    {
      hide S.NextNow, S.TraceNow, S.PrevPcNow, S.SavedSource, S.SavedValue, S.Select, HasRs1, HasRs2, GetRs1, GetRs2,
           M.GetWord, GetInstructionType, GetOpcode, S.ClockEdge, HazardResult;
      ghost var pc0, decode0, execute0 := programCounter, decodeRegister, executeRegister;
      HazardUnitTick();
      ticksCounter := ticksCounter + 1;
      HazardValues(p, x, w, decoded, fetched, mem, rf, ports, memoryRegister.current, pc0, decode0, execute0,
                   programCounter, decodeRegister, executeRegister, huRs1, huRs2);
    }

    /** The clock edge and the hazard unit compute the circuit's next state. */
    method EdgeOn(ghost p: S.Pipeline, ghost x: Executed, ghost w: WriteBackState, ghost decoded: ExecuteState,
                  ghost mem: M.Mem, ghost rf: R.RegFile, ghost ports: S.DataMemPorts)
      requires Valid() && BeforeEdge(p, x, w, decoded) && mem == mmu.mem && rf == regFile.Value() && ports == Ports()
      requires decodeRegister.next == DecodeState(x.pcR, p.programCounter, M.GetWord(mem.bytes, p.programCounter))
      modifies this
      ensures Valid() && View() == S.ClockEdge(p, x, mem, w, rf, ports, decoded)
    {
      hide BeforeEdge, AfterClock, S.ClockEdge, M.GetWord, RegFile.Value, Ports;
      ghost var fetched := decodeRegister.next;
      ClockOn(p, x, w, decoded, fetched);
      HazardOn(p, x, w, decoded, fetched, mem, rf, ports);
      EdgeUnits(p, x, mem, w, rf, ports, decoded);
    }

    static lemma EdgeUnits(p: S.Pipeline, x: Executed, mem: M.Mem, w: WriteBackState, rf: R.RegFile,
                           ports: S.DataMemPorts, decoded: ExecuteState)
      ensures var q := S.ClockEdge(p, x, mem, w, rf, ports, decoded);
        q.mem == mem && q.regFile == rf && q.ports == ports
    {
      hide S.NextNow, S.TraceNow, S.PrevPcNow, S.SavedSource, S.SavedValue, S.Select, HasRs1, HasRs2, GetRs1, GetRs2,
           M.GetWord, GetInstructionType, GetOpcode;
    }

    /** The memory and execute stages have run on state p: x and w are their results. */
    ghost predicate AfterExecute(p: S.Pipeline, x: Executed, w: WriteBackState)
      reads this
    {
      var runs := p.enabled;
      programCounter.enableFlag == runs && programCounter.current == p.programCounter &&
      decodeRegister.enableFlag == runs && decodeRegister.current == p.decode && decodeRegister.next.vDe == x.pcR &&
      executeRegister.enableFlag == runs && executeRegister.current == p.execute &&
      memoryRegister.enableFlag && memoryRegister.next == x.memory &&
      writeBackRegister == Register(true, w, p.writeBack) &&
      pcR == x.pcR && pcDisp == x.pcDisp && huRs1 == p.huRs1 && huRs2 == p.huRs2 &&
      execTrace == S.TraceNow(p) && tracePrevPc == S.PrevPcNow(p) && ticksCounter == p.ticksCounter &&
      mustTakeHaltedWb == S.SavedSource(p) && haltedWb == S.SavedValue(p)
    }

    /** The memory stage has run on state p with result w; nothing else has moved. */
    ghost predicate AfterMemory(p: S.Pipeline, w: WriteBackState)
      reads this
    {
      var runs := p.enabled;
      programCounter.enableFlag == runs && programCounter.current == p.programCounter &&
      decodeRegister.enableFlag == runs && decodeRegister.current == p.decode &&
      executeRegister.enableFlag == runs && executeRegister.current == p.execute &&
      memoryRegister.enableFlag && memoryRegister.current == p.memory &&
      writeBackRegister == Register(true, w, p.writeBack) && bpMem == p.memory.aluRes &&
      huRs1 == p.huRs1 && huRs2 == p.huRs2 && mustTakeHaltedWb == p.mustTakeHaltedWb && haltedWb == p.haltedWb &&
      execTrace == p.execTrace && tracePrevPc == p.tracePrevPc && ticksCounter == p.ticksCounter
    }

    method MemoryOn(ghost p: S.Pipeline) returns (ok: bool, ghost w: WriteBackState)
      requires Valid() && p == View()
      modifies this, dataMemUnit, mmu
      ensures Wired() && regFile.Value() == p.regFile && Ports() == S.PortsOf(p.memory, p.ports)
      ensures ok == S.MemoryAccess(p.memory, Ports(), p.mem).Some?
      ensures !ok ==> Outcome() == S.Final(p.regFile, p.mem, p.execTrace, p.ticksCounter)
      ensures ok ==>
        S.MemoryAccess(p.memory, Ports(), p.mem) == Some((mmu.mem, w.wbD)) &&
        w == WriteBackState(p.memory.wbWe, w.wbD, p.memory.wbA)
      ensures ok ==> AfterMemory(p, w)
    {
      hide S.MemoryAccess, S.PortsOf, RegFile.Value;
      ok := DoMemory();
      w := writeBackRegister.next;
      if ok {
        ghost var done := S.MemoryAccess(p.memory, Ports(), p.mem).value;
        assert done == (done.0, done.1);
      }
    }

    method ExecuteOn(ghost p: S.Pipeline, ghost w: WriteBackState)
      requires AfterMemory(p, w)
      modifies this`memoryRegister, this`decodeRegister, this`pcDisp, this`pcR, this`mustTakeHaltedWb, this`haltedWb,
               this`execTrace, this`tracePrevPc
      ensures AfterExecute(p, S.ExecutedNow(p), w)
    {
      hide S.TraceExecuted, ExecuteStage, S.Multiplexer3;
      assert Computed() == S.ExecutedNow(p);
      DoExecute();
    }

    /** The execute record of the word in decode. */
    static function Decoded(p: S.Pipeline, signals: C.Signals, rf: R.RegFile, pcR: bool): ExecuteState {
      var d := p.decode;
      DecodeStage(signals, d.instr, d.pcDe, R.Read(rf, GetRs1(d.instr)), R.Read(rf, GetRs2(d.instr)), pcR || d.vDe)
    }

    /** The decode stage on state p, after execute. */
    method DecodeOn(ghost p: S.Pipeline, ghost x: Executed, ghost w: WriteBackState) returns (raised: Option<C.Cause>)
      requires Wired() && AfterExecute(p, x, w) && regFile.Value() == p.regFile
      modifies Repr()
      ensures Wired()
      ensures var rf := S.WriteBack(p.regFile, p.writeBack);
        match C.ControlOf(p.decode.instr)
        case Accept(signals) =>
          raised == None && AfterExecute(p, x, w) && executeRegister.next == Decoded(p, signals, rf, x.pcR) &&
          controlUnit.instrType == GetInstructionType(GetOpcode(p.decode.instr)) &&
          regFile.Value() == rf && mmu.mem == old(mmu.mem) && Ports() == old(Ports()) &&
          Outcome() == S.Final(rf, mmu.mem, S.TraceNow(p), p.ticksCounter)
        case Reject(cause) =>
          var trace := if cause == C.Ecall || cause == C.Ebreak
                       then S.TraceExecuted(S.TraceNow(p), S.PrevPcNow(p), p.decode.instr, p.decode.pcDe)
                         else S.TraceNow(p);
          var o := S.Drain(cause, x.memory, w, old(Ports()), old(mmu.mem), rf, trace, p.ticksCounter);
          o.Stopped? && raised == Some(o.cause) && Outcome() == o.final
    {
      hide S.MemoryAccess, S.PortsOf, S.WriteBack, R.Read, C.ControlOf, DecodeStage, GetInstructionType, GetOpcode,
           GetRs1, GetRs2, S.TraceNow, S.PrevPcNow, S.TraceExecuted, Aligned, S.ExecutedNow, S.NextNow, S.ClockEdge,
           S.Drain, S.SavedSource, S.SavedValue, RegFile.Value;
      raised := DoDecode();
    }

    /** The fetch stage on state p, after decode. */
    method FetchOn(ghost p: S.Pipeline, ghost x: Executed, ghost w: WriteBackState, ghost decoded: ExecuteState)
      returns (ok: bool)
      requires Wired() && AfterExecute(p, x, w) && executeRegister.next == decoded && x == S.ExecutedNow(p)
      requires controlUnit.instrType == GetInstructionType(GetOpcode(p.decode.instr))
      modifies this`programCounter, this`decodeRegister
      ensures Wired() && ok == Aligned(S.NextNow(p))
      ensures Outcome() == old(Outcome())
      ensures ok ==> Valid() && BeforeEdge(p, x, w, decoded)
      ensures ok ==>
        decodeRegister.next == DecodeState(x.pcR, p.programCounter, M.GetWord(mmu.mem.bytes, p.programCounter))
    {
      hide S.MemoryAccess, S.PortsOf, S.WriteBack, R.Read, C.ControlOf, DecodeStage, GetInstructionType, GetOpcode,
           GetRs1, GetRs2, S.TraceNow, S.PrevPcNow, S.TraceExecuted, Aligned, S.ExecutedNow, S.ClockEdge, S.Drain,
           S.SavedSource, S.SavedValue, RegFile.Value, NextPc, M.GetWord;
      assert Executed(memoryRegister.next, pcR, pcDisp) == x;
      ok := DoFetch();
    }

    /** One clock cycle. */
    method Tick() returns (raised: Option<C.Cause>)
      requires Valid()
      modifies Repr()
      ensures Wired()
      ensures match S.Tick(old(View()))
              case Running(q) => raised == None && Valid() && View() == q
              case Stopped(cause, final) => raised == Some(cause) && Outcome() == final
    {
      hide S.MemoryAccess, S.PortsOf, S.WriteBack, R.Read, C.ControlOf, DecodeStage, GetInstructionType, GetOpcode,
           GetRs1, GetRs2, S.TraceNow, S.PrevPcNow, S.TraceExecuted, Aligned, S.ExecutedNow, S.NextNow, S.ClockEdge,
           S.Drain, AfterMemory, AfterExecute, BeforeEdge, RegFile.Value;
      ghost var p := View();
      var ok, w := MemoryOn(p);
      if !ok {
        return Some(C.InvalidMemoryMode);
      }
      ExecuteOn(p, w);
      ghost var x := S.ExecutedNow(p);
      raised := DecodeOn(p, x, w);
      if raised == None {
        ghost var decoded := executeRegister.next;
        ok := FetchOn(p, x, w, decoded);
        if ok {
          EdgeOn(p, x, w, decoded, mmu.mem, regFile.Value(), Ports());
        } else {
          raised := Some(C.Misaligned);
        }
      }
    }

    method SetPC(pc: Word)
      requires Valid()
      modifies this`programCounter
      ensures Valid() && View() == old(View()).(
        programCounter := if old(programCounter.enableFlag) then pc else old(View()).programCounter)
    {
      programCounter := programCounter.(next := pc);
      programCounter := programCounter.Tick();
    }

    method InitSP(sp: Word)
      requires Valid()
      modifies regFile, regFile.regs
      ensures Valid() && View() == old(View()).(regFile := R.Write(old(View()).regFile, true, 2, sp))
    {
      regFile.InitSP(sp);
    }

    /** The loop of `Run` on any run that ends, within t iterations: it ends with the cause and the state
        that the circuit ends with. */
    method Run(ghost t: nat) returns (cause: C.Cause)
      requires Valid() && S.Ticks(View().(tracePrevPc := 0), t).Stopped?
      modifies Repr()
      ensures Wired() && S.Stopped(cause, Outcome()) == S.Ticks(old(View()).(tracePrevPc := 0), t)
    {
      hide S.Ticks, S.Tick, RegFile.Value;
      tracePrevPc := 0;
      ghost var start := View();
      ghost var k := 0;
      StartsRunning(start);
      while true
        invariant Valid() && S.Ticks(start, k) == S.Running(View())
        modifies Repr()
        decreases t - k
      {
        StaysStopped(start, t, k);
        NextTick(start, k);
        var raised := Iterate();
        k := k + 1;
        if raised != None {
          StaysStopped(start, k, t);
          StaysStopped(start, t, k);
          return raised.value;
        }
      }
    }

    /** One iteration of the loop of `Run`, on any run. */
    method Iterate() returns (raised: Option<C.Cause>)
      requires Valid()
      modifies Repr()
      ensures Wired()
      ensures match S.Tick(S.Prepare(old(View())))
              case Running(q) => raised == None && Valid() && View() == q
              case Stopped(cause, final) => raised == Some(cause) && Outcome() == final
    {
      hide S.Tick, RegFile.Value;
      PointDataMemory();
      raised := Tick();
    }

    static lemma StartsRunning(start: S.Pipeline)
      ensures S.Ticks(start, 0) == S.Running(start)
    {
    }

    static lemma NextTick(start: S.Pipeline, k: nat)
      requires S.Ticks(start, k).Running?
      ensures S.Ticks(start, k + 1) == S.Tick(S.Prepare(S.Ticks(start, k).p))
    {
      hide S.Tick;
    }

    /** A machine that has stopped stays as it is. */
    static lemma {:induction false} StaysStopped(start: S.Pipeline, k: nat, t: nat)
      ensures k <= t && S.Ticks(start, k).Stopped? ==> S.Ticks(start, t) == S.Ticks(start, k)
      decreases t - k
    {
      hide S.Tick;
      if k >= t {
        assert k <= t ==> k == t;
      } else {
        StaysStopped(start, k, t - 1);
      }
    }

    /** The first ticks have no access yet; their idle read goes to the program. */
    method PointDataMemory()
      requires Valid()
      modifies dataMemUnit
      ensures Valid() && View() == S.Prepare(old(View()))
    {
      if ticksCounter < 2 {
        dataMemUnit.address := programCounter.current;
      }
    }
  }
}
