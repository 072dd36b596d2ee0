/** One whole instruction in integers: where it goes on, what it writes to registers and memory, and what it
    records; for the reference semantics, and for the interpreter also where it departs from them. */
module StepMeaning {
  import opened Words
  import opened Memory
  import opened RegisterFile
  import opened ControlSignals
  import opened PipelineStep
  import opened Datapath
  import opened Integers
  import opened InstructionSet
  import opened InstructionMeaning
  import opened Immediates
  import opened Interpreter
  import opened InterpreterAgreement
  import DecoderAgreement
  import F = FunctionalInstruction

  /** A sum modulo 2^32. */
  function Sum(a: int, b: int): int {
    (a + b) % 0x1_0000_0000
  }

  function Even(a: int): int {
    a - a % 2
  }

  /** Where instruction i at s goes on. */
  function NextInteger(s: Arch, i: Instr): int {
    var w, pc := Fetch(s), Unsigned(s.pc);
    match i
    case Jal(_, _) => Sum(pc, IntegerJ(w))
    case Jalr(_, rs1, _) => Even(Sum(Unsigned(Read(s.regFile, rs1)), IntegerI(w)))
    case Branch(op, rs1, rs2, _) =>
      Sum(pc, if ConditionIs(op, Read(s.regFile, rs1), Read(s.regFile, rs2)) then IntegerB(w) else 4)
    case _ => Sum(pc, 4)
  }

  /** Only register rd may have changed, never x0, and its new value is recorded. */
  ghost predicate WroteOnly(before: RegFile, after: RegFile, rd: RegIdx) {
    (forall j: RegIdx :: j == 0 || j != rd ==> Read(after, j) == Read(before, j)) &&
    after.trace == if rd == 0 then before.trace else before.trace + [RegEvent(rd, Read(after, rd))]
  }

  /** The register that i writes; x0 if none. */
  function Destination(i: Instr): RegIdx {
    match i
    case Lui(rd, _) => rd
    case Auipc(rd, _) => rd
    case Jal(rd, _) => rd
    case Jalr(rd, _, _) => rd
    case Load(_, rd, _, _) => rd
    case OpImm(_, rd, _, _) => rd
    case Op(_, rd, _, _) => rd
    case _ => 0
  }

  /** v is what i at s writes to its destination. */
  ghost predicate ResultIs(s: Arch, i: Instr, v: Word) {
    var w, pc, rf := Fetch(s), Unsigned(s.pc), s.regFile;
    match i
    case Lui(_, _) => Unsigned(v) == IntegerU(w)
    case Auipc(_, _) => Unsigned(v) == Sum(pc, IntegerU(w))
    case Jal(_, _) => Unsigned(v) == Sum(pc, 4)
    case Jalr(_, _, _) => Unsigned(v) == Sum(pc, 4)
    case Load(op, _, rs1, imm) => LoadIs(op, BytesAt(s.mem.bytes, Add(Read(rf, rs1), imm), LoadWidth(op)), v)
    case OpImm(op, _, rs1, imm) => ArithIs(op, Read(rf, rs1), imm, v)
    case Op(op, _, rs1, rs2) => ArithIs(op, Read(rf, rs1), Read(rf, rs2), v)
    case _ => true
  }

  /** The memory and its records after i at s. */
  ghost predicate MemoryIs(s: Arch, i: Instr, after: Mem) {
    match i
    case Store(op, rs1, rs2, imm) =>
      var a, value := Add(Read(s.regFile, rs1), imm), Read(s.regFile, rs2);
      AppendsRecord(op, s.mem.trace, after.trace, value, a) &&
      forall x :: StoreIs(op, s.mem.bytes, after.bytes, value, a, x)
    case _ => after == s.mem
  }

  /** r is the state after the instruction i at s. */
  ghost predicate StepIs(s: Arch, i: Instr, r: Arch) {
    Unsigned(r.pc) == NextInteger(s, i) && WroteOnly(s.regFile, r.regFile, Destination(i)) &&
    (Destination(i) != 0 ==> ResultIs(s, i, Read(r.regFile, Destination(i)))) &&
    MemoryIs(s, i, r.mem) && r.execTrace == s.execTrace + [ExecEvent(Fetch(s), s.pc)]
  }

  lemma Writes(rf: RegFile, rd: RegIdx, value: Word)
    ensures WroteOnly(rf, Write(rf, true, rd, value), rd)
    ensures rd != 0 ==> Read(Write(rf, true, rd, value), rd) == value
    ensures WroteOnly(rf, rf, 0)
  {
    hide Read;
    forall j: RegIdx
      ensures Read(Write(rf, true, rd, value), j) == if rd == j && rd != 0 then value else Read(rf, j)
    {
      ReadAfterWrite(rf, true, rd, value, j);
    }
  }

  lemma FourMeans()
    ensures Unsigned(4) == 4
  {
  }

  lemma PcPlus(pc: Word, a: Word)
    ensures Unsigned(Add(pc, 4)) == Sum(Unsigned(pc), 4)
    ensures Unsigned(Add(pc, a)) == Sum(Unsigned(pc), Signed(a)) == Sum(Unsigned(pc), Unsigned(a))
    ensures Unsigned(ClearBitZero(Add(pc, a))) == Even(Sum(Unsigned(pc), Signed(a)))
  {
    hide Unsigned, Add, Signed, ClearBitZero;
    FourMeans();
    AddMeans(pc, 4);
    AddMeans(pc, a);
    AddSignedMeans(pc, a);
    ClearBitZeroMeans(Add(pc, a));
  }

  /** The fields of a decoded instruction as integers. */
  lemma FieldIntegers(w: Word)
    ensures match Decode(w)
      case Lui(_, imm) => Unsigned(imm) == IntegerU(w)
      case Auipc(_, imm) => Unsigned(imm) == IntegerU(w)
      case Jal(_, imm) => Signed(imm) == IntegerJ(w)
      case Jalr(_, _, imm) => Signed(imm) == IntegerI(w)
      case Branch(_, _, _, imm) => Signed(imm) == IntegerB(w)
      case Load(_, _, _, imm) => Signed(imm) == IntegerI(w)
      case Store(_, _, _, imm) => Signed(imm) == IntegerS(w)
      case OpImm(_, _, _, imm) => Signed(imm) == IntegerI(w)
      case _ => true
  {
    hide Unsigned, Signed, Decode, ImmI, ImmS, ImmB, ImmU, ImmJ, Rd, Rs1, Rs2, IntegerI, IntegerS, IntegerB, IntegerU,
         IntegerJ;
    DecodedFields(w);
    ImmediateI(w);
    ImmediateS(w);
    ImmediateB(w);
    ImmediateU(w);
    ImmediateJ(w);
  }

  /** The result of the instruction at s: its next state, a misaligned transfer, or what the word itself raises. */
  ghost predicate Meant(s: Arch, result: StepResult) {
    match Decode(Fetch(s))
    case EnvironmentCall => result == Trap(Ecall)
    case EnvironmentBreak => result == Trap(Ebreak)
    case Illegal => result == Trap(InvalidInstruction)
    case i =>
      if NextInteger(s, i) % 4 == 0 then result.Next? && StepIs(s, i, result.arch) else result == Trap(Misaligned)
  }

  lemma UpperMeans(s: Arch)
    requires var i := Decode(Fetch(s)); i.Lui? || i.Auipc? || i.Fence?
    ensures Meant(s, IsaStep(s))
  {
    hide Add, Aligned, Read, Write, GetWord, Decode, Unsigned, Signed, WroteOnly, Sum, IntegerU;
    var i, w := Decode(Fetch(s)), Fetch(s);
    FieldIntegers(w);
    PcPlus(s.pc, 0);
    AlignedMeans(Add(s.pc, 4));
    Writes(s.regFile, 0, 0);
    match i
    case Lui(rd, imm) => Writes(s.regFile, rd, imm);
    case Auipc(rd, imm) =>
      PcPlus(s.pc, imm);
      Writes(s.regFile, rd, Add(s.pc, imm));
    case Fence =>
  }

  lemma LoadStepMeans(s: Arch)
    requires Decode(Fetch(s)).Load?
    ensures Meant(s, IsaStep(s))
  {
    hide Add, Aligned, Read, Write, GetWord, Decode, Unsigned, Signed, WroteOnly, Sum, LoadValue, LoadIs, BytesAt;
    var i := Decode(Fetch(s));
    PcPlus(s.pc, 0);
    AlignedMeans(Add(s.pc, 4));
    var a := Add(Read(s.regFile, i.rs1), i.imm);
    LoadMeans(i.loadOp, s.mem.bytes, a);
    Writes(s.regFile, i.rd, LoadValue(i.loadOp, s.mem.bytes, a));
  }

  lemma OpMeans(s: Arch)
    requires Decode(Fetch(s)).Op? || Decode(Fetch(s)).OpImm?
    ensures Meant(s, IsaStep(s))
  {
    hide Add, Aligned, Read, Write, GetWord, Decode, Unsigned, Signed, WroteOnly, Sum, Arith, ArithIs;
    var i := Decode(Fetch(s));
    PcPlus(s.pc, 0);
    AlignedMeans(Add(s.pc, 4));
    var a, b := Read(s.regFile, i.rs1), if i.Op? then Read(s.regFile, i.rs2) else i.imm;
    ArithMeans(i.op, a, b);
    Writes(s.regFile, i.rd, Arith(i.op, a, b));
  }

  lemma StoreStepMeans(s: Arch)
    requires Decode(Fetch(s)).Store?
    ensures Meant(s, IsaStep(s))
  {
    hide Add, Aligned, Read, Write, GetWord, Decode, StoreTo, Unsigned, Signed, WroteOnly, StoreIs, AppendsRecord,
         Sum;
    var i := Decode(Fetch(s));
    PcPlus(s.pc, 0);
    AlignedMeans(Add(s.pc, 4));
    Writes(s.regFile, 0, 0);
    var a, value := Add(Read(s.regFile, i.rs1), i.imm), Read(s.regFile, i.rs2);
    StoreRecords(i.storeOp, s.mem, value, a);
    forall x
      ensures StoreIs(i.storeOp, s.mem.bytes, StoreTo(i.storeOp, s.mem, value, a).bytes, value, a, x)
    {
      StoreMeans(i.storeOp, s.mem, value, a, x);
    }
  }

  lemma TransferMeans(s: Arch)
    requires var i := Decode(Fetch(s)); i.Jal? || i.Jalr? || i.Branch?
    ensures Meant(s, IsaStep(s))
  {
    hide Add, Aligned, Read, Write, GetWord, Decode, Unsigned, Signed, IntegerI, IntegerB, IntegerJ, WroteOnly,
         Condition, ConditionIs, Sum, ClearBitZero, Even;
    var i, w := Decode(Fetch(s)), Fetch(s);
    FieldIntegers(w);
    Writes(s.regFile, 0, 0);
    match i
    case Jal(rd, imm) =>
      PcPlus(s.pc, imm);
      AlignedMeans(Add(s.pc, imm));
      Writes(s.regFile, rd, Add(s.pc, 4));
    case Jalr(rd, rs1, imm) =>
      PcPlus(s.pc, 0);
      PcPlus(Read(s.regFile, rs1), imm);
      AlignedMeans(ClearBitZero(Add(Read(s.regFile, rs1), imm)));
      Writes(s.regFile, rd, Add(s.pc, 4));
    case Branch(op, rs1, rs2, imm) =>
      PcPlus(s.pc, imm);
      AlignedMeans(Add(s.pc, imm));
      AlignedMeans(Add(s.pc, 4));
      ConditionMeans(op, Read(s.regFile, rs1), Read(s.regFile, rs2));
  }

  /** The reference semantics in integers, for every word and every state. */
  lemma StepMeans(s: Arch)
    ensures Meant(s, IsaStep(s))
  {
    hide Decode, NextInteger, StepIs, GetWord, Add, Read, Write, Arith, LoadValue, StoreTo, Condition, ClearBitZero,
         Continue;
    match Decode(Fetch(s))
    case Lui(_, _) => UpperMeans(s);
    case Auipc(_, _) => UpperMeans(s);
    case Jal(_, _) => TransferMeans(s);
    case Jalr(_, _, _) => TransferMeans(s);
    case Branch(_, _, _, _) => TransferMeans(s);
    case Load(_, _, _, _) => LoadStepMeans(s);
    case Store(_, _, _, _) => StoreStepMeans(s);
    case OpImm(_, _, _, _) => OpMeans(s);
    case Op(_, _, _, _) => OpMeans(s);
    case Fence => UpperMeans(s);
    case EnvironmentCall =>
    case EnvironmentBreak =>
    case Illegal =>
  }

  /** The pipeline's datapath in integers. */
  lemma DatapathMeans(s: Arch)
    requires Legal(Fetch(s)) && Aligned(s.pc) && !(Decode(Fetch(s)).Fence? && Rd(Fetch(s)) != 0)
    ensures Meant(s, Step(s))
  {
    hide Step, IsaStep, Meant, Decode, Rd, GetWord, Aligned;
    DecoderAgreement.DatapathIsIsa(s);
    StepMeans(s);
  }

  // ----- the interpreter, also where it departs -----

  /** The register that JALR adds to, which has been written before it is read. */
  function BaseInteger(s: Arch, i: Instr): int
    requires i.Jalr?
  {
    if i.rd == i.rs1 && i.rd != 0 then Sum(Unsigned(s.pc), 4) else Unsigned(Read(s.regFile, i.rs1))
  }

  function RoundNext(s: Arch, i: Instr): int {
    if i.Jalr? then Even(Sum(BaseInteger(s, i), IntegerI(Fetch(s)))) else NextInteger(s, i)
  }

  /** Loads yield the bytes as a non-negative number. */
  ghost predicate RoundResultIs(s: Arch, i: Instr, v: Word) {
    match i
    case Load(op, _, rs1, imm) =>
      Unsigned(v) == LittleEndian(BytesAt(s.mem.bytes, Add(Read(s.regFile, rs1), imm), LoadWidth(op)))
    case _ => ResultIs(s, i, v)
  }

  /** SH stores as SB does. */
  function Narrowed(i: Instr): Instr {
    if i.Store? && i.storeOp == SH then i.(storeOp := SB) else i
  }

  ghost predicate RoundIs(s: Arch, i: Instr, r: Arch) {
    Unsigned(r.pc) == RoundNext(s, i) && WroteOnly(s.regFile, r.regFile, Destination(i)) &&
    (Destination(i) != 0 ==> RoundResultIs(s, i, Read(r.regFile, Destination(i)))) &&
    MemoryIs(s, Narrowed(i), r.mem) && r.execTrace == s.execTrace + [ExecEvent(Fetch(s), s.pc)]
  }

  /** A shift by 32 or more. */
  predicate ShiftsTooFar(s: Arch, i: Instr) {
    match i
    case Op(op, _, _, rs2) => (op == SLL || op == SRL || op == SRA) && Unsigned(Read(s.regFile, rs2)) >= 32
    case OpImm(op, _, _, imm) => (op == SLL || op == SRL || op == SRA) && Unsigned(imm) >= 32
    case _ => false
  }

  /** The result of a round on a legal word; it never raises a misaligned transfer. */
  ghost predicate RoundMeant(s: Arch, result: Result) {
    match Decode(Fetch(s))
    case EnvironmentCall => result == Returns(Ecall, Traced(s))
    case EnvironmentBreak => result == Returns(Ebreak, Traced(s))
    case i =>
      if ShiftsTooFar(s, i) then result == Undefined else result.Goes? && RoundIs(s, i, result.arch)
  }

  lemma RegWrites(rf: RegFile, rd: RegIdx, value: Word)
    requires Read(rf, 0) == 0
    ensures WroteOnly(rf, WriteReg(rf, value, rd), rd)
    ensures forall r: RegIdx ::
      Read(WriteReg(rf, value, rd), r) == if r == rd && r != 0 then value else Read(rf, r)
  {
    hide Read, Write, WriteReg;
    WriteRegAgrees(rf, value, rd);
    Writes(rf, rd, value);
    forall r: RegIdx
      ensures Read(Write(rf, true, rd, value), r) == if r == rd && r != 0 then value else Read(rf, r)
    {
      ReadAfterWrite(rf, true, rd, value, r);
    }
  }

  /** The interpreter goes on to the next word with the value in the destination. */
  lemma PutMeans(s: Arch, value: Word)
    requires Read(s.regFile, 0) == 0
    requires var i := Decode(Fetch(s));
      (i.Lui? || i.Auipc? || i.Load? || i.OpImm? || i.Op?) && Destination(i) == Rd(Fetch(s)) &&
      RoundResultIs(s, i, value) && F.GetRd(Fetch(s)) == Rd(Fetch(s))
    ensures var r := Put(Traced(s), Fetch(s), value); r.Goes? && RoundIs(s, Decode(Fetch(s)), r.arch)
  {
    hide Add, Read, WriteReg, GetWord, Decode, Unsigned, WroteOnly, RoundResultIs, Rd, F.GetRd, Sum;
    PcPlus(s.pc, 0);
    RegWrites(s.regFile, Rd(Fetch(s)), value);
  }

  lemma ValueRoundMeans(s: Arch)
    requires Read(s.regFile, 0) == 0
    requires var i := Decode(Fetch(s)); i.Lui? || i.Auipc? || i.Load?
    ensures RoundMeant(s, Round(s))
  {
    hide Add, Read, Write, GetWord, Decode, Unsigned, Signed, Sum, IntegerU, Loaded, Put, Round, RoundIs, BytesAt,
         LittleEndian, Rd, Rs1, ImmI, ImmU, F.GetRd;
    var i, w := Decode(Fetch(s)), Fetch(s);
    DecodedFields(w);
    FieldsAgree(w);
    FieldIntegers(w);
    if i.Load? {
      var a := Add(Read(s.regFile, i.rs1), i.imm);
      LoadRound(s);
      LoadedMeans(i.loadOp, s.mem.bytes, a);
      PutMeans(s, Loaded(LoadNameOf(i.loadOp), s.mem.bytes, a));
    } else {
      UpperRound(s);
      PcPlus(s.pc, ImmU(w));
      PutMeans(s, if i.Lui? then ImmU(w) else Add(s.pc, ImmU(w)));
    }
  }

  lemma ThirtyTwo(b: Word)
    ensures b < 32 <==> Unsigned(b) < 32
  {
    hide Unsigned;
    FiveMeans();
    BelowMeans(b, 32);
  }

  lemma OpRoundMeans(s: Arch)
    requires Read(s.regFile, 0) == 0 && Decode(Fetch(s)).Op?
    ensures RoundMeant(s, Round(s))
  {
    hide Add, Read, Write, GetWord, Decode, Unsigned, Signed, Sum, Computed, Put, Round, RoundIs, ArithIs, Rd, Rs1,
         Rs2, ImmI, F.GetRd, OpNameOf, OpImmNameOf, IsShift, RoundNext;
    var i, w := Decode(Fetch(s)), Fetch(s);
    DecodedFields(w);
    FieldsAgree(w);
    ShiftNames(i.op);
    var a, b := Read(s.regFile, i.rs1), Read(s.regFile, i.rs2);
    ThirtyTwo(b);
    ComputedMeans(i.op, a, b);
    PutMeans(s, Computed(OpNameOf(i.op), a, b));
    OpRound(s);
  }

  lemma OpImmFields(w: Word)
    requires Decode(w).OpImm?
    ensures var i := Decode(w);
      i.rd == Rd(w) == F.GetRd(w) && i.rs1 == Rs1(w) && i.imm == ImmI(w) && i.op != SUB
  {
    hide Decode, Rd, Rs1, ImmI, F.GetRd, F.GetRs1;
    DecodedFields(w);
    FieldsAgree(w);
  }

  lemma OpImmRoundMeans(s: Arch)
    requires Read(s.regFile, 0) == 0 && Decode(Fetch(s)).OpImm?
    ensures RoundMeant(s, Round(s))
  {
    hide Add, Read, Write, GetWord, Decode, Unsigned, Signed, Sum, Computed, Put, Round, RoundIs, ArithIs, Rd, Rs1,
         Rs2, ImmI, F.GetRd, OpNameOf, OpImmNameOf, IsShift, RoundNext;
    var i, w := Decode(Fetch(s)), Fetch(s);
    OpImmFields(w);
    ShiftNames(i.op);
    var a := Read(s.regFile, i.rs1);
    ThirtyTwo(i.imm);
    ComputedMeans(i.op, a, i.imm);
    PutMeans(s, Computed(OpImmNameOf(i.op), a, i.imm));
    OpImmRound(s);
  }

  lemma StoreRoundMeans(s: Arch)
    requires Decode(Fetch(s)).Store?
    ensures RoundMeant(s, Round(s))
  {
    hide Add, Read, Write, GetWord, Decode, Unsigned, Signed, Sum, Stored, Round, WroteOnly, StoreIs, AppendsRecord;
    var i := Decode(Fetch(s));
    StoreRound(s);
    PcPlus(s.pc, 0);
    Writes(s.regFile, 0, 0);
    var a, value := Add(Read(s.regFile, i.rs1), i.imm), Read(s.regFile, i.rs2);
    var after := Stored(StoreNameOf(i.storeOp), s.mem, value, a);
    StoredMeans(i.storeOp, s.mem, value, a, 0);
    forall x
      ensures StoreIs(Narrowed(i).storeOp, s.mem.bytes, after.bytes, value, a, x)
    {
      StoredMeans(i.storeOp, s.mem, value, a, x);
    }
  }

  lemma JumpRoundMeans(s: Arch)
    requires Read(s.regFile, 0) == 0
    requires Decode(Fetch(s)).Jal? || Decode(Fetch(s)).Jalr?
    ensures RoundMeant(s, Round(s))
  {
    hide Add, Read, Write, WriteReg, GetWord, Decode, Unsigned, Signed, Sum, Even, Round, WroteOnly, ClearBitZero, Rd,
         Rs1, ImmI, ImmJ, IntegerI, IntegerJ;
    var i, w := Decode(Fetch(s)), Fetch(s);
    DecodedFields(w);
    FieldIntegers(w);
    JumpRound(s);
    PcPlus(s.pc, ImmJ(w));
    RegWrites(s.regFile, i.rd, Add(s.pc, 4));
    if i.Jalr? {
      PcPlus(Read(WriteReg(s.regFile, Add(s.pc, 4), i.rd), i.rs1), i.imm);
    }
  }

  lemma BranchRoundMeans(s: Arch)
    requires Decode(Fetch(s)).Branch?
    ensures RoundMeant(s, Round(s))
  {
    hide Add, Read, Write, GetWord, Decode, Unsigned, Signed, Sum, Condition, ConditionIs, Round, WroteOnly, Rs1, Rs2,
         ImmB, IntegerB;
    var i, w := Decode(Fetch(s)), Fetch(s);
    DecodedFields(w);
    FieldIntegers(w);
    BranchRound(s);
    PcPlus(s.pc, ImmB(w));
    Writes(s.regFile, 0, 0);
    ConditionMeans(i.branchOp, Read(s.regFile, i.rs1), Read(s.regFile, i.rs2));
  }

  lemma OtherRoundMeans(s: Arch)
    requires var i := Decode(Fetch(s)); i.Fence? || i.EnvironmentCall? || i.EnvironmentBreak?
    ensures RoundMeant(s, Round(s))
  {
    hide Round, Handle, Decode, GetWord, Add, Read, Unsigned, WroteOnly, Sum;
    RoundHandles(s);
    FenceRound(Fetch(s), Traced(s));
    SystemRound(Fetch(s), Traced(s));
    PcPlus(s.pc, 0);
    Writes(s.regFile, 0, 0);
  }

  /** The interpreter in integers, for every legal word and every state in which x0 is zero. */
  lemma RoundMeans(s: Arch)
    requires Legal(Fetch(s)) && Read(s.regFile, 0) == 0
    ensures RoundMeant(s, Round(s))
  {
    hide Round, RoundMeant, Decode, GetWord, Read;
    match Decode(Fetch(s))
    case Lui(_, _) => ValueRoundMeans(s);
    case Auipc(_, _) => ValueRoundMeans(s);
    case Jal(_, _) => JumpRoundMeans(s);
    case Jalr(_, _, _) => JumpRoundMeans(s);
    case Branch(_, _, _, _) => BranchRoundMeans(s);
    case Load(_, _, _, _) => ValueRoundMeans(s);
    case Store(_, _, _, _) => StoreRoundMeans(s);
    case OpImm(_, _, _, _) => OpImmRoundMeans(s);
    case Op(_, _, _, _) => OpRoundMeans(s);
    case Fence => OtherRoundMeans(s);
    case EnvironmentCall => OtherRoundMeans(s);
    case EnvironmentBreak => OtherRoundMeans(s);
  }
}
