/** `RV32ICoSimulator::RunTest`: both models run one program and their traces are compared
    (co_simulator/co_simulator.cpp:60-103). */
module CoSimulator {
  import opened Words
  import opened Datapath
  import C = ControlSignals
  import M = Memory
  import R = RegisterFile
  import S = PipelineStep
  import Simulation
  import Runs
  import Interpreter
  import InterpreterAgreement
  import CoSimulation
  import InstructionSet
  import T = TraceFormat
  import F = FunctionalModel
  import P = PipelineModel

  const REGFILE_MISMATCH := 4
  const MMU_MISMATCH := 8
  const EXEC_PATH_MISMATCH := 16

  /** The loaded program: entry point, stack pointer in x2, memory. */
  function Loaded(entry: Word, sp: Word, mem: M.Mem): Arch {
    Arch(entry, R.Write(R.CLEAR, true, 2, sp), mem, [])
  }

  /** The bit mask of the streams that differ as files: 4 for registers, 8 for memory, 16 for instructions. */
  method CompareTraces(regs1: T.Stream, regs2: T.Stream, mmu1: T.Stream, mmu2: T.Stream, exec1: T.Stream,
      exec2: T.Stream)
    returns (code: nat)
    ensures code < 32 && code % 4 == 0
    ensures code / 4 % 2 == 0 <==> T.FilesCompareEqual(regs1, regs2)
    ensures code / 8 % 2 == 0 <==> T.FilesCompareEqual(mmu1, mmu2)
    ensures code / 16 % 2 == 0 <==> T.FilesCompareEqual(exec1, exec2)
  {
    hide T.FilesCompareEqual;
    var regs := T.CompareTwoFiles(regs1, regs2);
    var mmu := T.CompareTwoFiles(mmu1, mmu2);
    var exec := T.CompareTwoFiles(exec1, exec2);
    code := (if regs != 0 then REGFILE_MISMATCH else 0) + (if mmu != 0 then MMU_MISMATCH else 0)
          + (if exec != 0 then EXEC_PATH_MISMATCH else 0);
  }

  lemma StartsAgree(entry: Word, sp: Word, mem: M.Mem)
    ensures Interpreter.WriteReg(R.CLEAR, sp, 2) == R.Write(R.CLEAR, true, 2, sp)
    ensures Runs.StartOf(Loaded(entry, sp, mem)) == S.Start(entry, R.Write(R.CLEAR, true, 2, sp), mem)
  {
  }

  /** `FunctionalModel::RunProgram` on the loaded program, for any run that ends. */
  method RunFunctional(entry: Word, sp: Word, mem: M.Mem, ghost n: nat)
    returns (status: F.Status, model: F.FunctionalModel)
    requires var s := Loaded(entry, sp, mem); Interpreter.Rounds(s, n).Goes? && !Interpreter.Rounds(s, n + 1).Goes?
    ensures fresh(model.Repr()) && model.ticksCounter == n + 1 && status != F.GoOn
    ensures model.Did(Interpreter.Rounds(Loaded(entry, sp, mem), n + 1), status)
  {
    hide Interpreter.Rounds, R.Write, Interpreter.WriteReg;
    model := new F.FunctionalModel(mem);
    model.SetPC(entry);
    model.InitSP(sp);
    StartsAgree(entry, sp, mem);
    assert model.State() == Loaded(entry, sp, mem);
    status := model.Run(n);
  }

  /** `PipelineModel::RunProgram` on the loaded program, for any run that ends. */
  method RunPipeline(entry: Word, sp: Word, mem: M.Mem, ghost t: nat) returns (cause: C.Cause, model: P.PipelineModel)
    requires S.Ticks(Runs.StartOf(Loaded(entry, sp, mem)), t).Stopped?
    ensures fresh(model.Repr()) && model.Wired()
    ensures S.Stopped(cause, model.Outcome()) == S.Ticks(Runs.StartOf(Loaded(entry, sp, mem)), t)
  {
    hide S.Ticks, R.Write;
    model := new P.PipelineModel(mem);
    model.SetPC(entry);
    model.InitSP(sp);
    assert model.View() == Runs.StartOf(Loaded(entry, sp, mem));
    cause := model.Run(t);
  }

  /** What the traces of two finished models say, as files. */
  predicate MaskOf(code: nat, end: Arch, final: S.Final) {
    code < 32 && code % 4 == 0 &&
    (code / 4 % 2 == 0 <==> T.FilesCompareEqual(T.RegStream(end.regFile.trace), T.RegStream(final.regFile.trace))) &&
    (code / 8 % 2 == 0 <==> T.FilesCompareEqual(T.MemStream(end.mem.trace), T.MemStream(final.mem.trace))) &&
    (code / 16 % 2 == 0 <==> T.FilesCompareEqual(T.ExecStream(end.execTrace), T.ExecStream(final.execTrace)))
  }

  /** The result of `RunTest` on a program that the interpreter ends in round n + 1 and, if it then returns a
      code, the pipeline within t ticks. None stands for a model that does not return: the interpreter
      terminates the process, or the pipeline rethrows. Otherwise the code is the mask of the traces that
      differ as files. */
  predicate Tested(s: Arch, n: nat, t: nat, code: Option<nat>, end: Arch, final: S.Final) {
    var f, p := Interpreter.Rounds(s, n + 1), S.Ticks(Runs.StartOf(s), t);
    if f.Returns? && p.Stopped? && (p.cause == C.Ecall || p.cause == C.Ebreak) then
      code.Some? && end == f.arch && final == p.final && MaskOf(code.value, end, final)
    else
      code == None
  }

  /** Both models on one program. */
  method RunTest(entry: Word, sp: Word, mem: M.Mem, ghost n: nat, ghost t: nat)
    returns (code: Option<nat>, functional: F.FunctionalModel, pipeline: P.PipelineModel)
    requires var s := Loaded(entry, sp, mem); Interpreter.Rounds(s, n).Goes? && !Interpreter.Rounds(s, n + 1).Goes?
    requires Interpreter.Rounds(Loaded(entry, sp, mem), n + 1).Returns? ==>
      S.Ticks(Runs.StartOf(Loaded(entry, sp, mem)), t).Stopped?
    ensures functional.Valid() && pipeline.Wired() && functional.ticksCounter == n + 1
    ensures Tested(Loaded(entry, sp, mem), n, t, code, functional.State(), pipeline.Outcome())
  {
    hide S.Ticks, Interpreter.Rounds, Runs.StartOf, Loaded, T.RegStream, T.MemStream, T.ExecStream,
         T.FilesCompareEqual;
    code := None;
    var status, cause;
    status, functional := RunFunctional(entry, sp, mem, n);
    if !status.Return? {
      pipeline := new P.PipelineModel(mem);
      return;
    }
    cause, pipeline := RunPipeline(entry, sp, mem, t);
    if cause != C.Ecall && cause != C.Ebreak {
      return;
    }
    var mask := CompareTraces(
      T.RegStream(functional.registers.trace), T.RegStream(pipeline.regFile.trace),
      T.MemStream(functional.mmu.mem.trace), T.MemStream(pipeline.mmu.mem.trace),
      T.ExecStream(functional.execTrace), T.ExecStream(pipeline.execTrace));
    code := Some(mask);
  }

  /** For a program of the fragment that ends after n instructions the co-simulator returns 0, and not by
      accident: the two models have left identical registers, memory and streams. */
  lemma AgreedTest(s: Arch, n: nat, code: Option<nat>, end: Arch, final: S.Final)
    requires CoSimulation.AgreedRun(s) && s.execTrace == []
    requires Steps(s, n).Next? && Step(Steps(s, n).arch).Trap?
    requires Tested(s, n, Cycles(s, n) + 2, code, end, final)
    ensures code == Some(0) && final == S.Final(end.regFile, end.mem, end.execTrace, Cycles(s, n) + 1)
  {
    hide CoSimulation.AgreedRun, Steps, Step, Cycles, S.Ticks, Interpreter.Rounds, Runs.StartOf,
         InstructionSet.IsaSteps, Fetch, T.RegStream, T.MemStream, T.ExecStream, T.FilesCompareEqual;
    var cause, last := CoSimulation.ModelsAgree(s, n);
    SameFiles(T.RegStream(end.regFile.trace), T.MemStream(end.mem.trace), T.ExecStream(end.execTrace));
  }

  lemma SameFiles(a: T.Stream, b: T.Stream, c: T.Stream)
    ensures T.FilesCompareEqual(a, a) && T.FilesCompareEqual(b, b) && T.FilesCompareEqual(c, c)
  {
  }
}
