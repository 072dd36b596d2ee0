/** The two models, run side by side on one program (co_simulator/co_simulator.cpp:60-82). */
module CoSimulation {
  import opened Words
  import opened Memory
  import opened RegisterFile
  import opened ControlSignals
  import opened PipelineStep
  import opened Datapath
  import opened InstructionSet
  import opened Interpreter
  import opened Simulation
  import opened Runs
  import Refinement
  import DecoderAgreement
  import InterpreterAgreement

  /** The instruction at s is one that both models execute as the manual says. */
  predicate Agreed(s: Arch) {
    Executable(Fetch(s)) && InterpreterAgreement.Faithful(s)
  }

  /** The pipeline's datapath executes the word as the manual says. */
  predicate Executable(w: Word) {
    Legal(w) && !(Decode(w).Fence? && Rd(w) != 0)
  }

  /** Every instruction of the run from s is benign for the pipeline and one that it executes. */
  ghost predicate LegalRun(s: Arch) {
    BenignRun(s) && forall n: nat :: Steps(s, n).Next? ==> Executable(Fetch(Steps(s, n).arch))
  }

  /** Every instruction of the run from s is benign for the pipeline and agreed on by both models. */
  ghost predicate AgreedRun(s: Arch) {
    BenignRun(s) && forall n: nat :: Steps(s, n).Next? ==> Agreed(Steps(s, n).arch)
  }

  /** A step keeps x0 at zero and the program counter aligned. */
  lemma StepKeeps(s: Arch)
    requires Read(s.regFile, 0) == 0 && Step(s).Next?
    ensures Read(Step(s).arch.regFile, 0) == 0 && Aligned(Step(s).arch.pc)
  {
    hide Read, Write, Aligned, TargetOf, ExecuteOf, GetWord, ControlOf;
    var w := Fetch(s);
    var x := ExecuteOf(s, ControlOf(w).signals, w);
    forall v {
      ReadAfterWrite(s.regFile, x.memory.wbWe, x.memory.wbA, v, 0);
    }
  }

  lemma {:induction false} RunKeeps(s: Arch, n: nat)
    requires Read(s.regFile, 0) == 0 && Aligned(s.pc) && Steps(s, n).Next?
    ensures Read(Steps(s, n).arch.regFile, 0) == 0 && Aligned(Steps(s, n).arch.pc)
  {
    hide Step, Read, Aligned;
    if n == 0 {
      assert Steps(s, 0) == Next(s);
    } else {
      RunKeeps(s, n - 1);
      StepKeeps(Steps(s, n - 1).arch);
    }
  }

  lemma StepIsManual(s: Arch)
    requires Executable(Fetch(s)) && Aligned(s.pc)
    ensures Step(s) == IsaStep(s)
  {
    hide Step, IsaStep, Legal, Decode, Rd, GetWord, Aligned;
    DecoderAgreement.DatapathIsIsa(s);
  }

  /** The unpipelined datapath runs through the states of the manual. */
  lemma {:induction false} StepsAreManual(s: Arch, n: nat)
    requires LegalRun(s) && Steps(s, n).Next?
    ensures IsaSteps(s, n) == Steps(s, n) && IsaStep(Steps(s, n).arch) == Step(Steps(s, n).arch)
  {
    hide Step, IsaStep, Executable, Benign, Aligned, Read, WellPlaced;
    if n == 0 {
      assert IsaSteps(s, 0) == Next(s) == Steps(s, 0);
    } else {
      StepsAreManual(s, n - 1);
    }
    RunKeeps(s, n);
    StepIsManual(Steps(s, n).arch);
  }

  /** Where the manual goes on from a point of a legal run, the sequential machine goes on as well. */
  lemma {:induction false} StepsFollowManual(s: Arch, k: nat, n: nat)
    requires LegalRun(s) && Steps(s, k).Next? && IsaSteps(Steps(s, k).arch, n).Next?
    ensures Steps(s, k + n) == IsaSteps(Steps(s, k).arch, n)
  {
    hide Step, IsaStep, Executable, Benign, Aligned, Read, WellPlaced, BenignRun, LegalRun;
    if n == 0 {
      assert IsaSteps(Steps(s, k).arch, 0) == Steps(s, k);
    } else {
      StepsFollowManual(s, k, n - 1);
      StepsAreManual(s, k + n - 1);
    }
  }

  /** The pipeline implements RV32I: after any number of ticks it is at a point of the run of the manual,
      as it stands or, once it has stopped, in its final state. */
  lemma PipelineFollowsManual(s: Arch, t: nat) returns (n: nat)
    requires LegalRun(s) && s.execTrace == []
    ensures IsaSteps(s, n).Next?
    ensures match Ticks(StartOf(s), t)
      case Running(p) => Refinement.Inv(p) && IsaSteps(s, n) == Next(Refinement.Abs(p)) && p.ticksCounter == t
      case Stopped(cause, final) =>
        var r := IsaSteps(s, n).arch;
        IsaStep(r) == Trap(cause) && final == Final(r.regFile, r.mem, TrapTrace(r, cause), Cycles(s, n) + 1)
  {
    hide BenignRun, Refinement.Inv, Refinement.Abs, Step, IsaStep, Ticks, StartOf, Cycles, WellPlaced, Executable,
         TrapTrace, Steps, IsaSteps;
    n := RunRefines(s, t);
    StepsAreManual(s, n);
  }

  /** On one agreed instruction the datapath, the manual and the interpreter coincide. */
  lemma StepIsRound(s: Arch)
    requires Agreed(s) && Benign(s) && Aligned(s.pc) && Read(s.regFile, 0) == 0
    ensures Step(s) == IsaStep(s) && IsaStep(s) != Trap(Misaligned) && Round(s) == InterpreterAgreement.ResultOf(s)
  {
    hide Step, IsaStep, Round, InterpreterAgreement.ResultOf, InterpreterAgreement.Faithful, Legal, Decode, Rd,
         GetWord, Aligned, Read, WellPlaced, StoreSpares, Taken, IsLoad, LoadUseSafe;
    DecoderAgreement.DatapathIsIsa(s);
    InterpreterAgreement.InterpreterIsIsa(s);
  }

  /** The pipeline's datapath and the interpreter go through the states of the manual. */
  lemma {:induction false} RoundsFollowSteps(s: Arch, n: nat)
    requires AgreedRun(s) && Steps(s, n).Next?
    ensures Rounds(s, n) == Goes(Steps(s, n).arch) && IsaSteps(s, n) == Steps(s, n)
  {
    hide Step, Round, IsaStep, Agreed, Benign, Aligned, Read, WellPlaced;
    if n == 0 {
      assert Rounds(s, 0) == Goes(s) && IsaSteps(s, 0) == Next(s) == Steps(s, 0);
    } else {
      RoundsFollowSteps(s, n - 1);
      RunKeeps(s, n - 1);
      StepIsRound(Steps(s, n - 1).arch);
    }
  }

  /** Co-simulation: for every program of the fragment that ends after n instructions, the pipeline and
      the interpreter return the same code and leave the registers, the memory and the three streams
      (register writes, memory writes, executed instructions) of n steps of the manual; the ECALL or
      EBREAK itself is only recorded as executed. */
  lemma ModelsAgree(s: Arch, n: nat) returns (cause: Cause, end: Arch)
    requires AgreedRun(s) && s.execTrace == []
    requires Steps(s, n).Next? && Step(Steps(s, n).arch).Trap?
    ensures cause == Ecall || cause == Ebreak
    ensures IsaSteps(s, n).Next? && IsaSteps(s, n + 1) == Trap(cause)
    ensures var r := IsaSteps(s, n).arch; end == r.(execTrace := r.execTrace + [ExecEvent(Fetch(r), r.pc)])
    ensures Rounds(s, n + 1) == Returns(cause, end)
    ensures Ticks(StartOf(s), Cycles(s, n) + 2)
         == Stopped(cause, Final(end.regFile, end.mem, end.execTrace, Cycles(s, n) + 1))
  {
    hide Step, Round, IsaStep, Benign, Aligned, Read, WellPlaced, Steps, Ticks, Cycles, StartOf, Decode, Rd, Fetch;
    var r := Steps(s, n).arch;
    RoundsFollowSteps(s, n);
    RunKeeps(s, n);
    StepIsRound(r);
    RunHalts(s, n);
    LegalTraps(r);
    cause := Step(r).cause;
    end := r.(execTrace := r.execTrace + [ExecEvent(Fetch(r), r.pc)]);
  }

  /** The only legal words that do not execute are ECALL and EBREAK. */
  lemma LegalTraps(s: Arch)
    requires Legal(Fetch(s)) && IsaStep(s).Trap? && IsaStep(s) != Trap(Misaligned)
    ensures IsaStep(s).cause == Ecall || IsaStep(s).cause == Ebreak
  {
    hide Decode, GetWord, Aligned, Read, Write, Add, Arith, Condition, LoadValue, StoreTo, ClearBitZero;
  }
}
