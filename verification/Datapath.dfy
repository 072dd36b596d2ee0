/** The same decode, execute and memory logic without a pipeline: one whole instruction per step.
    It is the abstract machine of the refinement proof; InstructionSet.dfy relates it to the RISC-V
    manual. */
module Datapath {
  import opened Words
  import opened PipelineInstruction
  import opened ControlSignals
  import opened Memory
  import opened RegisterFile
  import opened Stages
  import opened PipelineStep

  /** Architectural state and the three event streams. */
  datatype Arch = Arch(pc: Word, regFile: RegFile, mem: Mem, execTrace: seq<ExecEvent>)

  datatype StepResult = Next(arch: Arch) | Trap(cause: Cause)

  function Fetch(s: Arch): Word {
    GetWord(s.mem.bytes, s.pc)
  }

  /** The execute record of word w at s.pc when every operand is read from the registers of s. */
  function RecordOf(s: Arch, signals: Signals, w: Word): ExecuteState {
    DecodeStage(signals, w, s.pc, Read(s.regFile, GetRs1(w)), Read(s.regFile, GetRs2(w)), false)
  }

  function ExecuteOf(s: Arch, signals: Signals, w: Word): Executed {
    var e := RecordOf(s, signals, w);
    ExecuteStage(e, e.data1, e.data2)
  }

  /** Where execution continues after w at s.pc. */
  function TargetOf(s: Arch, signals: Signals, w: Word): Word {
    NextPc(ExecuteOf(s, signals, w), signals.isJalr, s.pc, s.pc)
  }

  /** The effect of one execute-stage result on registers and memory. */
  function Commit(x: Executed, next: Word, w: Word, s: Arch): StepResult {
    var done := MemoryStage(x.memory, s.mem);
    if done.None? then Trap(InvalidMemoryMode)
    else
      var (mem, wbD) := done.value;
      Next(Arch(next, Write(s.regFile, x.memory.wbWe, x.memory.wbA, wbD), mem, s.execTrace + [ExecEvent(w, s.pc)]))
  }

  /** One instruction. */
  function Step(s: Arch): StepResult {
    var w := Fetch(s);
    match ControlOf(w)
    case Reject(cause) => Trap(cause)
    case Accept(signals) =>
      var next := TargetOf(s, signals, w);
      if !Aligned(next) then Trap(Misaligned) else Commit(ExecuteOf(s, signals, w), next, w, s)
  }

  /** n instructions. */
  function Steps(s: Arch, n: nat): StepResult {
    if n == 0 then Next(s)
    else
      match Steps(s, n - 1)
      case Next(r) => Step(r)
      case Trap(c) => Trap(c)
  }

  /** The instruction at s redirects the program counter. */
  predicate Taken(s: Arch) {
    var w := Fetch(s);
    ControlOf(w).Accept? && ExecuteOf(s, ControlOf(w).signals, w).pcR
  }

  predicate IsLoad(w: Word) {
    GetOpcode(w) == LOAD
  }

  predicate Accepted(w: Word) {
    ControlOf(w).Accept?
  }

  /** The hazard unit sees a dependence of w on a load into rd. It matches register fields by
      instruction format, so the immediate of an I-type word can match as its rs2 field. */
  predicate LoadConflict(w: Word, rd: RegIdx) {
    rd != 0 &&
    var t := GetInstructionType(GetOpcode(w));
    (HasRs1(t) && GetRs1(w) == rd) || (HasRs2(t) && GetRs2(w) == rd)
  }

  /** The instruction really takes its first operand from the register rs1. */
  predicate UsesRs1(w: Word) {
    var t := GetInstructionType(GetOpcode(w));
    t == RType || t == IType || t == SType || t == BType
  }

  /** The instruction really takes its second operand from the register rs2. */
  predicate UsesRs2(w: Word) {
    var t := GetInstructionType(GetOpcode(w));
    t == RType || t == SType || t == BType
  }

  /** The halted instruction `w` stays in the execute stage while `decoded` is in decode, and the
      hazard unit then classifies `w` by the format of `decoded`. The loaded value still reaches
      every operand that `w` uses. */
  predicate Covered(w: Word, rd: RegIdx, decoded: Word) {
    var t := GetInstructionType(GetOpcode(decoded));
    (UsesRs1(w) && GetRs1(w) == rd ==> HasRs1(t)) &&
    (UsesRs2(w) && GetRs2(w) == rd ==> HasRs2(t))
  }

  /** The pipeline marks a bubble by the word 0, and its trace filter starts from location 0. */
  predicate WellPlaced(s: Arch) {
    s.pc != 0 && Fetch(s) != 0
  }

  /** The state in which a halted consumer of a load is evaluated for the first time: the
      destination register holds the address of the load instead of the loaded value. */
  function Provisional(s: Arch, rd: RegIdx, address: Word): Arch {
    s.(regFile := Poke(s.regFile, rd, address))
  }

  /** If the load at s is followed by a word that depends on it, then the word after that one must
      decode, must not hide the dependence, and the provisional evaluation must stay aligned. */
  predicate LoadUseSafe(s: Arch, next: Arch) {
    var w := Fetch(s);
    var rd := GetRd(w);
    var consumer := Fetch(next);
    ControlOf(w).Accept? && ControlOf(consumer).Accept? && LoadConflict(consumer, rd) ==>
      var after := GetWord(next.mem.bytes, Add(next.pc, 4));
      var address := ExecuteOf(s, ControlOf(w).signals, w).memory.aluRes;
      Accepted(after) && Covered(consumer, rd, after) &&
      Aligned(TargetOf(Provisional(next, rd, address), ControlOf(consumer).signals, consumer))
  }

  /** A store does not change the two words after itself, which are already being fetched. */
  predicate StoreSpares(s: Arch, next: Arch) {
    GetWord(next.mem.bytes, Add(s.pc, 4)) == GetWord(s.mem.bytes, Add(s.pc, 4)) &&
    GetWord(next.mem.bytes, Add(Add(s.pc, 4), 4)) == GetWord(s.mem.bytes, Add(Add(s.pc, 4), 4))
  }

  /** What suffices for the pipeline to follow one instruction of a run; a statement about the run itself. */
  predicate Benign(s: Arch) {
    match Step(s)
    case Trap(c) => c == Ecall || c == Ebreak || c == InvalidInstruction
    case Next(next) =>
      WellPlaced(next) &&
      StoreSpares(s, next) &&
      (Taken(s) ==> Accepted(GetWord(s.mem.bytes, Add(s.pc, 4)))) &&
      (IsLoad(Fetch(s)) ==> LoadUseSafe(s, next))
  }

  /** The instruction at s is a load and the next one depends on it. */
  predicate Stalls(s: Arch) {
    IsLoad(Fetch(s)) && Step(s).Next? && Accepted(Fetch(Step(s).arch)) &&
    LoadConflict(Fetch(Step(s).arch), GetRd(Fetch(s)))
  }

  /** The number of taken transfers among the first n instructions. */
  function TakenCount(s: Arch, n: nat): nat {
    if n == 0 then 0
    else TakenCount(s, n - 1) + (if Steps(s, n - 1).Next? && Taken(Steps(s, n - 1).arch) then 1 else 0)
  }

  /** The number of load-use halts that the first n instructions cause. */
  function StallCount(s: Arch, n: nat): nat {
    if n == 0 then 0
    else StallCount(s, n - 1) + (if Steps(s, n - 1).Next? && Stalls(Steps(s, n - 1).arch) then 1 else 0)
  }

  /** Ticks spent on the first n instructions. */
  function Cycles(s: Arch, n: nat): nat {
    n + 2 * TakenCount(s, n) + StallCount(s, n)
  }

  /** Every instruction of the run from s is benign. */
  ghost predicate BenignRun(s: Arch) {
    WellPlaced(s) && Aligned(s.pc) && Read(s.regFile, 0) == 0 &&
    forall n: nat :: Steps(s, n).Next? ==> Benign(Steps(s, n).arch)
  }
}
