/** The mutable building blocks of the pipeline model: register file, data memory unit and control
    unit (the headers in models/pipeline/modules, models/pipeline/pipeline/control_unit.h). */
module Modules {
  import opened Words
  import opened PipelineInstruction
  import opened Stages
  import C = ControlSignals
  import M = Memory
  import R = RegisterFile
  import A = Alu

  /** models/pipeline/modules/regfile.h */
  class RegFile {
    var address1: RegIdx
    var address2: RegIdx
    var address3: RegIdx
    var writeEnable3: bool
    var writeData3: Word
    const regs: array<Word>
    var readData1: Word
    var readData2: Word
    var trace: seq<R.RegEvent>

    ghost predicate Valid()
      reads this
    {
      regs.Length == 32
    }

    ghost function Value(): R.RegFile
      reads this, regs
      requires Valid()
    {
      R.RegFile(regs[..], trace)
    }

    constructor ()
      ensures Valid() && fresh(regs) && trace == [] && (forall i :: 0 <= i < 32 ==> regs[i] == 0)
    {
      address1, address2, address3, writeEnable3, writeData3 := 0, 0, 0, false, 0;
      readData1, readData2, trace := 0, 0, [];
      regs := new Word[32](_ => 0);
    }

    method SetNewSignals(addr1: RegIdx, addr2: RegIdx, addr3: RegIdx, we3: bool, wd3: Word)
      modifies this`address1, this`address2, this`address3, this`writeEnable3, this`writeData3
      ensures address1 == addr1 && address2 == addr2 && address3 == addr3 && writeEnable3 == we3 && writeData3 == wd3
    {
      address1, address2, address3, writeEnable3, writeData3 := addr1, addr2, addr3, we3, wd3;
    }

    /** Write first, then read. */
    method Tick()
      requires Valid()
      modifies this`readData1, this`readData2, this`trace, regs
      ensures Valid() && Value() == R.Write(old(Value()), writeEnable3, address3, writeData3)
      ensures readData1 == R.Read(Value(), address1) && readData2 == R.Read(Value(), address2)
    {
      if writeEnable3 && address3 != 0 {
        trace := trace + [R.RegEvent(address3, writeData3)];
        regs[address3 as int] := writeData3;
      }
      readData1 := regs[address1 as int];
      readData2 := regs[address2 as int];
    }

    /** The stack pointer is x2. */
    method InitSP(value: Word)
      requires Valid()
      modifies this`trace, regs
      ensures Valid() && Value() == R.Write(old(Value()), true, 2, value)
    {
      trace := trace + [R.RegEvent(2, value)];
      regs[2] := value;
    }
  }

  /** The memory that all units share. */
  class MMU {
    var mem: M.Mem

    constructor (mem: M.Mem)
      ensures this.mem == mem
    {
      this.mem := mem;
    }
  }

  /** models/pipeline/modules/data_mem_unit.h */
  class DataMemUnit {
    var storeMode: bv3
    var writeEnable: bool
    var address: Word
    var writeData: Word
    const mmu: MMU
    var readData: Word

    constructor (mmu: MMU)
      ensures this.mmu == mmu && storeMode == 0 && !writeEnable && address == 0 && writeData == 0
    {
      storeMode, writeEnable, address, writeData, readData := 0, false, 0, 0, 0;
      this.mmu := mmu;
    }

    /** False stands for the `std::logic_error` of an invalid mode. */
    method Tick() returns (ok: bool)
      modifies this`readData, mmu
      ensures if writeEnable then
                ok == M.StoreValue(old(mmu.mem), storeMode, writeData, address).Some? &&
                mmu.mem == if ok then M.StoreValue(old(mmu.mem), storeMode, writeData, address).value else old(mmu.mem)
              else
                mmu.mem == old(mmu.mem) && ok == M.GetData(mmu.mem.bytes, storeMode, address).Some?
    {
      if writeEnable {
        ok := StoreValue();
      } else {
        var data := GetData();
        ok := data.Some?;
        if ok {
          readData := data.value;
        }
      }
    }

    method GetData() returns (data: Option<Word>)
      ensures data == M.GetData(mmu.mem.bytes, storeMode, address)
    {
      if storeMode == 0 {
        data := Some(M.SignExtendFromByte(M.GetByte(mmu.mem.bytes, address)));
      } else if storeMode == 1 {
        data := Some(M.SignExtendFromByte2(M.GetHalf(mmu.mem.bytes, address)));
      } else if storeMode == 2 {
        data := Some(M.GetWord(mmu.mem.bytes, address));
      } else if storeMode == 4 {
        data := Some(ZeroExtend8(M.GetByte(mmu.mem.bytes, address)));
      } else if storeMode == 5 {
        data := Some(ZeroExtend16(M.GetHalf(mmu.mem.bytes, address)));
      } else {
        data := None;
      }
    }

    method StoreValue() returns (ok: bool)
      modifies mmu
      ensures ok == M.StoreValue(old(mmu.mem), storeMode, writeData, address).Some?
      ensures mmu.mem == if ok then M.StoreValue(old(mmu.mem), storeMode, writeData, address).value else old(mmu.mem)
    {
      ok := true;
      if storeMode == 0 {
        mmu.mem := M.SetByte(mmu.mem, M.ToByte(writeData), address);
      } else if storeMode == 1 {
        mmu.mem := M.SetHalf(mmu.mem, M.LowHalf(writeData), address);
      } else if storeMode == 2 {
        mmu.mem := M.SetWord(mmu.mem, writeData, address);
      } else {
        ok := false;
      }
    }
  }

  /** models/pipeline/pipeline/control_unit.h */
  class ControlUnit {
    var opcode: bv7
    var funct3: bv3
    var funct7: bv7
    var rs2: RegIdx
    var isJalr: bool
    var wbWe: bool
    var memWe: bool
    var memToReg: bool
    var brnCond: bool
    var jmpCond: bool
    var cmpControl: A.CmpControl
    var aluSrc2: bool
    var aluOp: A.ALUControl
    var instrType: InstructionType

    constructor ()
    {
      opcode, funct3, funct7, rs2 := 0, 0, 0, 0;
      isJalr, wbWe, memWe, memToReg, brnCond, jmpCond, aluSrc2 := false, false, false, false, false, false, false;
      cmpControl, aluOp, instrType := A.CmpControl.NOP, A.ALUControl.NOP, UNKNOWN;
    }

    /** What `LoadControlSignals` copies into the execute register. */
    function LoadControlSignals(): C.Signals
      reads this
    {
      C.Signals(isJalr, wbWe, memWe, memToReg, brnCond, jmpCond, cmpControl, aluSrc2, aluOp)
    }

    method SetInstruction(w: Word)
      modifies this`opcode, this`funct3, this`funct7, this`rs2
      ensures opcode == GetOpcode(w) && funct3 == GetFunct3(w) && funct7 == GetFunct7(w) && rs2 == GetRs2(w)
    {
      opcode, funct3, funct7, rs2 := GetOpcode(w), GetFunct3(w), GetFunct7(w), GetRs2(w);
    }

    /** The operation of a register-register or register-immediate word; None raises. */
    method AluOperation() returns (op: Option<A.ALUControl>)
      ensures op == C.AluControlOf(opcode, funct3, funct7)
    {
      if opcode == OP {
        if funct3 == 0 {
          op := if funct7 == 0 then Some(A.ALUControl.ADD) else if funct7 == 0x20 then Some(A.ALUControl.SUB) else None;
        } else if funct3 == 1 {
          op := Some(A.ALUControl.SLL);
        } else if funct3 == 2 {
          op := Some(A.ALUControl.SLT);
        } else if funct3 == 3 {
          op := Some(A.ALUControl.SLTU);
        } else if funct3 == 4 {
          op := Some(A.ALUControl.XOR);
        } else if funct3 == 5 {
          op := if funct7 == 0 then Some(A.ALUControl.SRL) else if funct7 == 0x20 then Some(A.ALUControl.SRA) else None;
        } else if funct3 == 6 {
          op := Some(A.ALUControl.OR);
        } else {
          op := Some(A.ALUControl.AND);
        }
      } else if opcode == OP_IMM {
        if funct3 == 0 {
          op := Some(A.ALUControl.ADD);
        } else if funct3 == 2 {
          op := Some(A.ALUControl.SLT);
        } else if funct3 == 3 {
          op := Some(A.ALUControl.SLTU);
        } else if funct3 == 4 {
          op := Some(A.ALUControl.XOR);
        } else if funct3 == 6 {
          op := Some(A.ALUControl.OR);
        } else if funct3 == 7 {
          op := Some(A.ALUControl.AND);
        } else if funct3 == 1 {
          op := if funct7 == 0 then Some(A.ALUControl.SLL) else None;
        } else {
          op := if funct7 == 0 then Some(A.ALUControl.SRL) else if funct7 == 0x20 then Some(A.ALUControl.SRA) else None;
        }
      } else if TypeOfOpcode() == UType || opcode == JALR || opcode == LOAD || opcode == STORE {
        op := Some(A.ALUControl.ADD);
      } else {
        op := Some(A.ALUControl.NOP);
      }
    }

    /** The comparison of a branch; None raises. */
    method Comparison() returns (cmp: Option<A.CmpControl>)
      ensures cmp == C.CmpControlOf(opcode, funct3)
    {
      if opcode == BRANCH {
        if funct3 == 0 {
          cmp := Some(A.CmpControl.EQ);
        } else if funct3 == 1 {
          cmp := Some(A.CmpControl.NE);
        } else if funct3 == 4 {
          cmp := Some(A.CmpControl.LT);
        } else if funct3 == 5 {
          cmp := Some(A.CmpControl.GE);
        } else if funct3 == 6 {
          cmp := Some(A.CmpControl.LTU);
        } else if funct3 == 7 {
          cmp := Some(A.CmpControl.GEU);
        } else {
          cmp := None;
        }
      } else {
        cmp := Some(A.CmpControl.NOP);
      }
    }

    function TypeOfOpcode(): InstructionType
      reads this
    {
      GetInstructionType(opcode)
    }

    /** The signals that depend on the opcode only. */
    method SetFlags()
      modifies this`isJalr, this`wbWe, this`memWe, this`memToReg, this`brnCond, this`jmpCond, this`aluSrc2,
        this`instrType
      ensures isJalr == (opcode == JALR) && wbWe == !(opcode == STORE || opcode == BRANCH || opcode == SYSTEM)
      ensures memWe == (opcode == STORE) && memToReg == (opcode == LOAD) && brnCond == (opcode == BRANCH)
      ensures jmpCond == (opcode == JAL || opcode == JALR) && instrType == GetInstructionType(opcode)
      ensures aluSrc2 == (instrType == IType || instrType == SType || instrType == UType)
    {
      hide GetInstructionType;
      isJalr := opcode == JALR;
      wbWe := !(opcode == STORE || opcode == BRANCH || opcode == SYSTEM);
      memWe := opcode == STORE;
      instrType := GetInstructionType(opcode);
      aluSrc2 := instrType == IType || instrType == SType || instrType == UType;
      brnCond := opcode == BRANCH;
      jmpCond := opcode == JAL || opcode == JALR;
      memToReg := opcode == LOAD;
    }

    /** The control signals of the instruction, or the exception it raises. */
    method Tick() returns (raised: Option<C.Cause>)
      modifies this`isJalr, this`wbWe, this`memWe, this`memToReg, this`brnCond, this`jmpCond, this`cmpControl,
               this`aluSrc2, this`aluOp, this`instrType
      ensures match C.ControlTick(opcode, funct3, funct7, rs2)
              case Accept(signals) =>
                raised == None && LoadControlSignals() == signals && instrType == GetInstructionType(opcode)
              case Reject(cause) => raised == Some(cause)
    {
      hide C.AluControlOf, C.CmpControlOf, GetInstructionType;
      if opcode == SYSTEM {
        return Some(if rs2 == 0 then C.Ecall else if rs2 == 1 then C.Ebreak else C.InvalidInstruction);
      }
      SetFlags();
      var operation := AluOperation();
      var comparison := Comparison();
      if operation == None || comparison == None {
        return Some(C.InvalidInstruction);
      }
      aluOp, cmpControl, raised := operation.value, comparison.value, None;
    }
  }
}
