/** The interpreter as the program writes it: a register file, a program counter and a dispatch loop
    (models/functional/model.cpp, models/functional/model.h, models/functional/regfile.h). */
module FunctionalModel {
  import opened Words
  import opened FunctionalInstruction
  import C = ControlSignals
  import M = Memory
  import R = RegisterFile
  import S = PipelineStep
  import D = Datapath
  import I = Interpreter
  import Modules

  /** models/functional/regfile.h */
  class RV32IRegFile {
    const regs: array<Word>
    var trace: seq<R.RegEvent>

    ghost predicate Valid() {
      regs.Length == 32
    }

    ghost function Value(): R.RegFile
      reads this, regs
      requires Valid()
    {
      R.RegFile(regs[..], trace)
    }

    constructor ()
      ensures Valid() && fresh(regs) && trace == [] && (forall i :: 0 <= i < 32 ==> regs[i] == 0)
    {
      regs := new Word[32](_ => 0);
      trace := [];
    }

    method WriteReg(value: Word, idx: RegIdx)
      requires Valid()
      modifies this, regs
      ensures Value() == I.WriteReg(old(Value()), value, idx)
    {
      if idx != 0 {
        trace := trace + [R.RegEvent(idx, value)];
      }
      regs[idx as int] := if idx != 0 then value else 0;
    }

    method ReadReg(idx: RegIdx) returns (value: Word)
      requires Valid()
      ensures value == R.Read(Value(), idx)
    {
      value := regs[idx as int];
    }
  }

  /** The handlers by shape. */
  datatype Kind = UpperKind | JumpKind | BranchKind | LoadKind | StoreKind | OpImmKind | OpKind | FenceKind | EndKind

  function KindOf(name: RV32I): Kind {
    match name
    case LUI | AUIPC => UpperKind
    case JAL | JALR => JumpKind
    case BEQ | BNE | BLT | BGE | BLTU | BGEU => BranchKind
    case LB | LH | LW | LBU | LHU => LoadKind
    case SB | SH | SW => StoreKind
    case ADDI | SLTI | SLTIU | XORI | ORI | ANDI | SLLI | SRLI | SRAI => OpImmKind
    case ADD | SUB | SLL | SLT | SLTU | XOR | SRL | SRA | OR | AND => OpKind
    case FENCE => FenceKind
    case ECALL | EBREAK | UNKNOWN => EndKind
  }

  /** What a handler tells the loop to do. */
  datatype Status = GoOn | Return(cause: C.Cause) | Abort | UndefinedShift

  class FunctionalModel {
    var ticksCounter: nat
    const mmu: Modules.MMU
    const registers: RV32IRegFile
    var pc: Word
    var execTrace: seq<S.ExecEvent>

    ghost function Repr(): set<object> {
      {this, mmu, registers, registers.regs}
    }

    ghost predicate Valid() {
      registers.Valid()
    }

    ghost function State(): D.Arch
      reads Repr()
      requires Valid()
    {
      D.Arch(pc, registers.Value(), mmu.mem, execTrace)
    }

    constructor (mem: M.Mem)
      ensures Valid() && fresh(Repr()) && ticksCounter == 0
      ensures State() == D.Arch(0, R.CLEAR, mem, [])
    {
      ticksCounter, pc, execTrace := 0, 0, [];
      mmu := new Modules.MMU(mem);
      registers := new RV32IRegFile();
      new;
      assert registers.Value().regs == R.CLEAR.regs;
    }

    method SetPC(newPc: Word)
      modifies this`pc
      ensures pc == newPc
    {
      pc := newPc;
    }

    /** The stack pointer is x2. */
    method InitSP(sp: Word)
      requires Valid()
      modifies registers, registers.regs
      ensures State() == old(State()).(regFile := I.WriteReg(old(State()).regFile, sp, 2))
    {
      registers.WriteReg(sp, 2);
    }

    /** The state and the status of a handler are those of the specification. */
    ghost predicate Did(result: I.Result, status: Status)
      reads Repr()
    {
      Valid() &&
      match result
      case Goes(a) => status == GoOn && State() == a
      case Returns(cause, a) => status == Return(cause) && State() == a
      case Terminates => status == Abort
      case Undefined => status == UndefinedShift
    }

    /** Write the result and step over the instruction. */
    method Put(raw: Word, value: Word)
      requires Valid()
      modifies this`pc, mmu, registers, registers.regs
      ensures Did(I.Put(old(State()), raw, value), GoOn)
    {
      hide I.WriteReg, Add, GetRd;
      registers.WriteReg(value, GetRd(raw));
      pc := Add(pc, 4);
    }

    method Arithmetic(name: RV32I, raw: Word, a: Word, b: Word) returns (status: Status)
      requires Valid()
      modifies this`pc, mmu, registers, registers.regs
      ensures Did(I.Arithmetic(name, raw, old(State()), a, b), status)
    {
      hide I.Put, I.Computed;
      if I.IsShift(name) && !(b < 32) {
        return UndefinedShift;
      }
      status := GoOn;
      Put(raw, I.Computed(name, a, b));
    }

    /** LUI and AUIPC. */
    method Upper(name: RV32I, raw: Word)
      requires Valid() && KindOf(name) == UpperKind
      modifies this`pc, mmu, registers, registers.regs
      ensures Did(I.Handle(name, raw, old(State())), GoOn)
    {
      hide I.Put, I.WriteReg, I.Arithmetic, I.Loaded, I.Stored, I.BranchTaken, Add, ClearBitZero, GetRd, GetRs1,
           GetRs2, TypeIImm, TypeSImm, TypeBImm, TypeUImm, TypeJImm, R.Read;
      Put(raw, if name == LUI then TypeUImm(raw) else Add(pc, TypeUImm(raw)));
    }

    /** The two jump handlers; JALR writes rd before it reads rs1. */
    method Jump(name: RV32I, raw: Word)
      requires Valid() && KindOf(name) == JumpKind
      modifies this`pc, mmu, registers, registers.regs
      ensures Did(I.Handle(name, raw, old(State())), GoOn)
    {
      hide I.Put, I.WriteReg, I.Arithmetic, I.Loaded, I.Stored, I.BranchTaken, Add, ClearBitZero, GetRd, GetRs1,
           GetRs2, TypeIImm, TypeSImm, TypeBImm, TypeUImm, TypeJImm, R.Read;
      registers.WriteReg(Add(pc, 4), GetRd(raw));
      if name == JAL {
        pc := Add(pc, TypeJImm(raw));
      } else {
        var base := registers.ReadReg(GetRs1(raw));
        pc := ClearBitZero(Add(base, TypeIImm(raw)));
      }
    }

    /** The six branch handlers. */
    method Branch(name: RV32I, raw: Word)
      requires Valid() && KindOf(name) == BranchKind
      modifies this`pc, mmu, registers, registers.regs
      ensures Did(I.Handle(name, raw, old(State())), GoOn)
    {
      hide I.Handle, KindOf, I.BranchTaken, Add, GetRs1, GetRs2, TypeBImm, R.Read, RV32IRegFile.Value;
      BranchHandler(name, raw, State());
      var a := registers.ReadReg(GetRs1(raw));
      var b := registers.ReadReg(GetRs2(raw));
      pc := if I.BranchTaken(name, a, b) then Add(pc, TypeBImm(raw)) else Add(pc, 4);
    }

    static lemma BranchHandler(name: RV32I, raw: Word, s: D.Arch)
      requires KindOf(name) == BranchKind
      ensures var a := R.Read(s.regFile, GetRs1(raw)); var b := R.Read(s.regFile, GetRs2(raw));
        I.Handle(name, raw, s)
        == I.Goes(s.(pc := if I.BranchTaken(name, a, b) then Add(s.pc, TypeBImm(raw)) else Add(s.pc, 4)))
    {
      hide I.Put, I.WriteReg, I.Arithmetic, I.Loaded, I.Stored, I.BranchTaken, Add, ClearBitZero, GetRd, GetRs1,
           GetRs2, TypeIImm, TypeSImm, TypeBImm, TypeUImm, TypeJImm, R.Read;
    }

    /** The five load handlers. */
    method Load(name: RV32I, raw: Word)
      requires Valid() && KindOf(name) == LoadKind
      modifies this`pc, mmu, registers, registers.regs
      ensures Did(I.Handle(name, raw, old(State())), GoOn)
    {
      hide I.Put, I.WriteReg, I.Arithmetic, I.Loaded, I.Stored, I.BranchTaken, Add, ClearBitZero, GetRd, GetRs1,
           GetRs2, TypeIImm, TypeSImm, TypeBImm, TypeUImm, TypeJImm, R.Read;
      var base := registers.ReadReg(GetRs1(raw));
      Put(raw, I.Loaded(name, mmu.mem.bytes, Add(base, TypeIImm(raw))));
    }

    /** The three store handlers. */
    method Store(name: RV32I, raw: Word)
      requires Valid() && KindOf(name) == StoreKind
      modifies this`pc, mmu, registers, registers.regs
      ensures Did(I.Handle(name, raw, old(State())), GoOn)
    {
      hide I.Put, I.WriteReg, I.Arithmetic, I.Loaded, I.Stored, I.BranchTaken, Add, ClearBitZero, GetRd, GetRs1,
           GetRs2, TypeIImm, TypeSImm, TypeBImm, TypeUImm, TypeJImm, R.Read;
      var base := registers.ReadReg(GetRs1(raw));
      var value := registers.ReadReg(GetRs2(raw));
      mmu.mem := I.Stored(name, mmu.mem, value, Add(base, TypeSImm(raw)));
      pc := Add(pc, 4);
    }

    /** The nine handlers with an immediate operand. */
    method OpImm(name: RV32I, raw: Word) returns (status: Status)
      requires Valid() && KindOf(name) == OpImmKind
      modifies this`pc, mmu, registers, registers.regs
      ensures Did(I.Handle(name, raw, old(State())), status)
    {
      hide I.Put, I.WriteReg, I.Arithmetic, I.Loaded, I.Stored, I.BranchTaken, Add, ClearBitZero, GetRd, GetRs1,
           GetRs2, TypeIImm, TypeSImm, TypeBImm, TypeUImm, TypeJImm, R.Read;
      var a := registers.ReadReg(GetRs1(raw));
      status := Arithmetic(name, raw, a, TypeIImm(raw));
    }

    /** The ten handlers with two register operands. */
    method Op(name: RV32I, raw: Word) returns (status: Status)
      requires Valid() && KindOf(name) == OpKind
      modifies this`pc, mmu, registers, registers.regs
      ensures Did(I.Handle(name, raw, old(State())), status)
    {
      hide I.Put, I.WriteReg, I.Arithmetic, I.Loaded, I.Stored, I.BranchTaken, Add, ClearBitZero, GetRd, GetRs1,
           GetRs2, TypeIImm, TypeSImm, TypeBImm, TypeUImm, TypeJImm, R.Read;
      var a := registers.ReadReg(GetRs1(raw));
      var b := registers.ReadReg(GetRs2(raw));
      status := Arithmetic(name, raw, a, b);
    }

    method Fence(raw: Word)
      requires Valid()
      modifies this`pc, mmu, registers, registers.regs
      ensures Did(I.Handle(FENCE, raw, old(State())), GoOn)
    {
      hide I.Put, I.WriteReg, I.Arithmetic, I.Loaded, I.Stored, I.BranchTaken, Add, ClearBitZero, GetRd, GetRs1,
           GetRs2, TypeIImm, TypeSImm, TypeBImm, TypeUImm, TypeJImm, R.Read;
      pc := Add(pc, 4);
    }

    /** The two returns and the unreachable handler. */
    method End(name: RV32I, raw: Word) returns (status: Status)
      requires Valid() && KindOf(name) == EndKind
      ensures Did(I.Handle(name, raw, old(State())), status)
    {
      hide I.Put, I.WriteReg, I.Arithmetic, I.Loaded, I.Stored, I.BranchTaken, Add, ClearBitZero, GetRd, GetRs1,
           GetRs2, TypeIImm, TypeSImm, TypeBImm, TypeUImm, TypeJImm, R.Read;
      status := if name == ECALL then Return(C.Ecall) else if name == EBREAK then Return(C.Ebreak) else Abort;
    }

    /** The jump through the dispatch table. */
    method Handle(name: RV32I, raw: Word) returns (status: Status)
      requires Valid()
      modifies this`pc, mmu, registers, registers.regs
      ensures Did(I.Handle(name, raw, old(State())), status)
    {
      FenceOnly(name);
      hide I.Handle, Did, KindOf, State;
      status := GoOn;
      match KindOf(name)
      case UpperKind => Upper(name, raw);
      case JumpKind => Jump(name, raw);
      case BranchKind => Branch(name, raw);
      case LoadKind => Load(name, raw);
      case StoreKind => Store(name, raw);
      case OpImmKind => status := OpImm(name, raw);
      case OpKind => status := Op(name, raw);
      case FenceKind => Fence(raw);
      case EndKind => status := End(name, raw);
    }

    static lemma FenceOnly(name: RV32I)
      ensures KindOf(name) == FenceKind ==> name == FENCE
    {
    }

    /** From the label DECODER to the next jump there. */
    method Round() returns (status: Status)
      requires Valid()
      modifies this`pc, this`execTrace, mmu, registers, registers.regs
      ensures Did(I.Round(old(State())), status)
    {
      hide I.Handle, M.GetWord, SwitchDecoder, RV32IRegFile.Value;
      var raw := M.GetWord(mmu.mem.bytes, pc);
      execTrace := execTrace + [S.ExecEvent(raw, pc)];
      var name := SwitchDecoder(raw);
      if name == None {
        status := Abort;
      } else {
        status := Handle(name.value, raw);
      }
    }

    /** The loop of `Run` on a run that goes on for n rounds and ends in the next one: it ends as the
        specification says, in its state if it returns, and has counted the instructions. */
    method Run(ghost n: nat) returns (status: Status)
      requires Valid() && I.Rounds(State(), n).Goes? && !I.Rounds(State(), n + 1).Goes?
      modifies Repr()
      ensures Did(I.Rounds(old(State()), n + 1), status) && status != GoOn
      ensures ticksCounter == old(ticksCounter) + n + 1
    {
      hide I.Round, RV32IRegFile.Value;
      ghost var s := State();
      ghost var k := 0;
      ticksCounter := ticksCounter + 1;
      while true
        invariant Valid() && ticksCounter == old(ticksCounter) + k + 1 && k <= n && I.Rounds(s, k) == I.Goes(State())
        decreases n - k
      {
        status := Round();
        k := k + 1;
        if k <= n {
          RoundsBefore(s, k, n);
        }
        if status != GoOn {
          return;
        }
        ticksCounter := ticksCounter + 1;
      }
    }

    static lemma {:induction false} RoundsBefore(s: D.Arch, k: nat, n: nat)
      requires I.Rounds(s, n).Goes? && k <= n
      ensures I.Rounds(s, k).Goes?
      decreases n - k
    {
      hide I.Round;
      if k == n {
        assert I.Rounds(s, k).Goes?;
      } else {
        RoundsBefore(s, k, n - 1);
      }
    }
  }
}
