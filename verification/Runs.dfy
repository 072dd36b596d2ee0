/** Whole runs of the pipeline: refinement of the datapath, exact cycle counts, the final state. */
module Runs {
  import opened Words
  import opened PipelineInstruction
  import opened ControlSignals
  import opened Memory
  import opened RegisterFile
  import opened Stages
  import opened PipelineStep
  import opened Datapath
  import opened Refinement
  import opened Simulation

  /** The machine that is about to run from s. */
  function StartOf(s: Arch): Pipeline {
    Start(s.pc, s.regFile, s.mem)
  }

  lemma StartRefines(s: Arch)
    requires Aligned(s.pc) && Read(s.regFile, 0) == 0 && s.execTrace == []
    ensures Inv(StartOf(s)) && Abs(StartOf(s)) == s && Credit(StartOf(s)) == 0
  {
    hide Read, Write, Aligned, StoreValue, GetData, ControlOf;
    WriteZero(s.regFile, false, 0);
  }

  lemma PortsDoNotMatter(p: Pipeline, q: Pipeline)
    requires q == p.(ports := q.ports)
    ensures OperandA(q) == OperandA(p) && OperandB(q) == OperandB(p) && NextNow(q) == NextNow(p)
    ensures MemoryStageOk(q) == MemoryStageOk(p)
    ensures MemoryStageOk(p) ==> AbsMem(q) == AbsMem(p) && AbsRegs(q) == AbsRegs(p)
  {
    hide ExecuteStage, NextPc, MemoryStage, Write;
  }

  /** The address that `Run` puts on the data memory unit changes nothing. */
  lemma PrepareRefines(p: Pipeline)
    requires Inv(p)
    ensures var q := Prepare(p);
      Inv(q) && Abs(q) == Abs(p) && Credit(q) == Credit(p) && q.ticksCounter == p.ticksCounter && Fill(q) == Fill(p)
  {
    hide Read, Write, Aligned, MemoryStage, ControlOf, GetWord, NextNow, Covered, GetFunct3, OperandA, OperandB,
         AbsMem, AbsRegs, GetRs1, GetRs2, GetOpcode, GetInstructionType, SourceA, MemoryStageOk, LoadConflict;
    PortsDoNotMatter(p, Prepare(p));
  }

  /** After any number of ticks the machine is at some point of the run of the datapath, and the
      ticks are those of the executed instructions plus those spent on younger ones. */
  predicate AtPoint(s: Arch, n: nat, o: Outcome) {
    match o
    case Running(p) =>
      Inv(p) && WellPlaced(Abs(p)) && Steps(s, n) == Next(Abs(p)) && p.ticksCounter == Cycles(s, n) + Credit(p)
    case Stopped(cause, final) =>
      Steps(s, n).Next? && StopsAt(o, Steps(s, n).arch, final.ticksCounter) &&
      final.ticksCounter == Cycles(s, n) + 1
  }

  /** The refinement theorem: every run of the pipeline, of any length, is a run of the datapath. */
  lemma {:induction false} RunRefines(s: Arch, t: nat) returns (n: nat)
    requires BenignRun(s) && s.execTrace == []
    ensures var o := Ticks(StartOf(s), t); AtPoint(s, n, o) && (o.Running? ==> o.p.ticksCounter == t)
  {
    hide Inv, WellPlaced, Abs, Step, Benign, Prepare, Tick, Aligned, Read, Cycles, StartOf, Credit;
    if t == 0 {
      StartRefines(s);
      StartsAtPoint(s);
      n := 0;
    } else {
      n := RunRefines(s, t - 1);
      if Ticks(StartOf(s), t - 1).Running? {
        var p := Ticks(StartOf(s), t - 1).p;
        n := PointMoves(s, n, p);
      }
    }
  }

  lemma StartsAtPoint(s: Arch)
    requires BenignRun(s) && s.execTrace == []
    ensures AtPoint(s, 0, Running(StartOf(s))) && StartOf(s).ticksCounter == 0
  {
    hide Inv, WellPlaced, Abs, Step, Benign, Aligned, Read, Credit;
    StartRefines(s);
  }

  lemma OneMore(s: Arch, n: nat)
    requires Steps(s, n).Next?
    ensures Steps(s, n + 1) == Step(Steps(s, n).arch)
    ensures Cycles(s, n + 1) == Cycles(s, n) + Cost(Steps(s, n).arch)
  {
    hide Step, Taken, Stalls;
  }

  /** One iteration of the loop of `Run` moves from one point of the run to the next. */
  lemma PointMoves(s: Arch, n: nat, p: Pipeline) returns (m: nat)
    requires BenignRun(s) && AtPoint(s, n, Running(p))
    ensures AtPoint(s, m, Tick(Prepare(p))) && n <= m <= n + 1
    ensures Tick(Prepare(p)).Running? ==> Tick(Prepare(p)).p.ticksCounter == p.ticksCounter + 1
  {
    PrepareRefines(p);
    var q := Prepare(p);
    assert MemoryStageOk(p) && MemoryStageOk(q);
    assert Steps(s, n).Next? && Benign(Abs(p));
    hide Inv, WellPlaced, Abs, Halted, Step, StopsAt, Benign, Prepare, Tick, Taken, Stalls, Accepted, Aligned, Read,
         Steps, Cycles, MemoryStageOk, BenignRun;
    TickRefines(q);
    OneMore(s, n);
    m := if Fill(q) == 2 && Commits(q) then n + 1 else n;
    StopCredit(q);
  }

  lemma StopCredit(q: Pipeline)
    ensures Fill(q) > 0 && !Halted(q) ==> Credit(q) == Fill(q) && (Commits(q) <==> Fill(q) == 2)
  {
  }

  /** Instructions cost one to three ticks. */
  lemma {:induction false} CyclesGrow(s: Arch, m: nat, n: nat)
    requires m <= n
    ensures Cycles(s, m) + (n - m) <= Cycles(s, n) <= Cycles(s, m) + 3 * (n - m)
    decreases n - m
  {
    hide Taken, Stalls, Steps;
    if m == n {
      assert Cycles(s, m) == Cycles(s, n);
    } else {
      CyclesGrow(s, m, n - 1);
      if Steps(s, n - 1).Next? && Taken(Steps(s, n - 1).arch) {
        LoadsRunOn(Steps(s, n - 1).arch);
      }
    }
  }

  lemma {:induction false} StepsBefore(s: Arch, m: nat, n: nat)
    requires Steps(s, m).Next? && n <= m
    ensures Steps(s, n).Next?
    decreases m - n
  {
    hide Step;
    if n == m {
      assert Steps(s, n).Next?;
    } else {
      StepsBefore(s, m - 1, n);
    }
  }

  /** Among any three consecutive ticks at least one executes an instruction. */
  lemma Progress(s: Arch, t: nat) returns (n: nat, m: nat)
    requires BenignRun(s) && s.execTrace == [] && Ticks(StartOf(s), t + 3).Running?
    ensures Ticks(StartOf(s), t).Running?
    ensures AtPoint(s, n, Ticks(StartOf(s), t)) && AtPoint(s, m, Ticks(StartOf(s), t + 3)) && n < m
  {
    hide Inv, WellPlaced, Abs, Halted, Step, StopsAt, Benign, Prepare, Tick, Taken, Stalls, Accepted, Aligned, Read,
         Steps, Cycles, MemoryStageOk, BenignRun, StartOf;
    assert Ticks(StartOf(s), t + 2).Running? && Ticks(StartOf(s), t + 1).Running? && Ticks(StartOf(s), t).Running?;
    n := RunRefines(s, t);
    m := RunRefines(s, t + 3);
    CreditBounds(Ticks(StartOf(s), t).p);
    CreditBounds(Ticks(StartOf(s), t + 3).p);
    if m <= n {
      CyclesGrow(s, m, n);
    }
  }

  lemma CreditBounds(p: Pipeline)
    requires Inv(p)
    ensures 0 <= Credit(p) <= 2 && (Credit(p) == 2 ==> Fill(p) == 2 && !Halted(p))
  {
  }

  /** The machine goes on from the n-th to the next point of the run. */
  lemma {:induction false} NextPoint(s: Arch, n: nat, t: nat, p: Pipeline) returns (u: nat)
    requires BenignRun(s) && Steps(s, n + 1).Next?
    requires Ticks(StartOf(s), t) == Running(p) && AtPoint(s, n, Running(p))
    ensures t < u <= t + 3 - Credit(p) && AtPoint(s, n + 1, Ticks(StartOf(s), u))
    decreases 2 - Credit(p)
  {
    var m := PointMoves(s, n, p);
    CreditOf(s, n, p);
    hide Inv, WellPlaced, Abs, Step, Benign, Prepare, Tick, Aligned, Read, Cycles, StartOf, Credit, BenignRun,
         AtPoint;
    assert Ticks(StartOf(s), t + 1) == Tick(Prepare(p));
    if m == n + 1 {
      u := t + 1;
    } else if Tick(Prepare(p)).Stopped? {
      StopIsEnd(Tick(Prepare(p)), s, n);
    } else {
      CreditOf(s, n, Tick(Prepare(p)).p);
      u := NextPoint(s, n, t + 1, Tick(Prepare(p)).p);
    }
  }

  lemma CreditOf(s: Arch, n: nat, p: Pipeline)
    requires AtPoint(s, n, Running(p))
    ensures 0 <= Credit(p) <= 2 && p.ticksCounter == Cycles(s, n) + Credit(p)
  {
    hide Abs, Step, Benign, Steps, Cycles;
    CreditBounds(p);
  }

  /** Every point of the run is reached, and in time. */
  lemma {:induction false} Reaches(s: Arch, n: nat) returns (t: nat)
    requires BenignRun(s) && s.execTrace == [] && Steps(s, n).Next?
    ensures AtPoint(s, n, Ticks(StartOf(s), t)) && t <= 3 * n
  {
    hide Inv, WellPlaced, Abs, Step, Benign, Prepare, Tick, Aligned, Read, Cycles, StartOf, Credit, BenignRun,
         AtPoint;
    if n == 0 {
      StartsAtPoint(s);
      t := 0;
    } else {
      t := Reaches(s, n - 1);
      if Ticks(StartOf(s), t).Stopped? {
        StopIsEnd(Ticks(StartOf(s), t), s, n - 1);
      } else {
        CreditOf(s, n - 1, Ticks(StartOf(s), t).p);
        t := NextPoint(s, n - 1, t, Ticks(StartOf(s), t).p);
      }
    }
  }

  /** A state that holds a decoded instruction is not at the end of the run. */
  lemma ExecutingIsNotStopping(p: Pipeline)
    requires Inv(p) && Fill(p) == 2
    ensures Accepted(Fetch(Abs(p)))
  {
    hide ControlOf, GetWord, AbsMem, AbsRegs, MemoryStageOk, Aligned, Read;
  }

  lemma BenignTrap(s: Arch)
    requires Benign(s) && Step(s).Trap?
    ensures !Accepted(Fetch(s))
  {
    hide ControlOf, GetWord, ExecuteOf, TargetOf, Aligned, MemoryStage, Write;
  }

  /** A run has at most one end. */
  lemma EndIsLast(s: Arch, n: nat, m: nat)
    requires Steps(s, n).Next? && Step(Steps(s, n).arch).Trap? && Steps(s, m).Next?
    ensures m <= n
  {
    hide Step;
    if m > n {
      StepsBefore(s, m, n + 1);
    }
  }

  lemma StopIsEnd(o: Outcome, s: Arch, n: nat)
    requires AtPoint(s, n, o) && o.Stopped?
    ensures Steps(s, n).Next? && Step(Steps(s, n).arch).Trap?
    ensures StopsAt(o, Steps(s, n).arch, Cycles(s, n) + 1)
  {
    hide Step, Steps, Cycles, TrapTrace;
  }

  /** The machine does not run on past the end. */
  lemma StopsInTime(s: Arch, n: nat, m: nat, p: Pipeline)
    requires Steps(s, n).Next? && Step(Steps(s, n).arch).Trap? && Benign(Steps(s, n).arch)
    requires AtPoint(s, m, Running(p))
    ensures p.ticksCounter < Cycles(s, n) + 2
  {
    EndIsLast(s, n, m);
    BenignTrap(Steps(s, n).arch);
    CreditBounds(p);
    if m == n && Fill(p) == 2 {
      ExecutingIsNotStopping(p);
    }
    hide Inv, WellPlaced, Abs, Halted, Step, Benign, Steps, Cycles, Credit, Accepted;
    CyclesGrow(s, m, n);
  }

  /** A machine that is still running has not used up its time. */
  lemma RunningIsEarly(s: Arch, n: nat, t: nat)
    requires BenignRun(s) && s.execTrace == []
    requires Steps(s, n).Next? && Step(Steps(s, n).arch).Trap?
    requires Ticks(StartOf(s), t).Running?
    ensures t < Cycles(s, n) + 2
  {
    hide Inv, WellPlaced, Abs, Benign, Step, Aligned, Read, Steps, Cycles, Ticks, Credit, StartOf, AtPoint;
    var m := RunRefines(s, t);
    StopsInTime(s, n, m, Ticks(StartOf(s), t).p);
  }

  /** A machine that has stopped has stopped at the end of the run. */
  lemma StoppedIsEnd(s: Arch, n: nat, t: nat)
    requires BenignRun(s) && s.execTrace == []
    requires Steps(s, n).Next? && Step(Steps(s, n).arch).Trap?
    requires Ticks(StartOf(s), t).Stopped?
    ensures StopsAt(Ticks(StartOf(s), t), Steps(s, n).arch, Cycles(s, n) + 1)
  {
    hide Inv, WellPlaced, Abs, Benign, Step, Aligned, Read, Steps, Cycles, Ticks, Credit, StartOf, AtPoint, StopsAt;
    var m := RunRefines(s, t);
    StopIsEnd(Ticks(StartOf(s), t), s, m);
    EndIsLast(s, n, m);
    EndIsLast(s, m, n);
  }

  /** Exact running time and final state: when the run of the datapath ends after n instructions, the
      machine stops in tick number Cycles(n) + 2, with `ticks_counter` equal to Cycles(n) + 1, and
      leaves the registers, the memory and the three traces of the datapath. */
  lemma RunHalts(s: Arch, n: nat)
    requires BenignRun(s) && s.execTrace == []
    requires Steps(s, n).Next? && Step(Steps(s, n).arch).Trap?
    ensures StopsAt(Ticks(StartOf(s), Cycles(s, n) + 2), Steps(s, n).arch, Cycles(s, n) + 1)
  {
    hide BenignRun, Step, Steps, Cycles, Ticks, StartOf, StopsAt;
    var t := Cycles(s, n) + 2;
    if Ticks(StartOf(s), t).Running? {
      RunningIsEarly(s, n, t);
    } else {
      StoppedIsEnd(s, n, t);
    }
  }
}
