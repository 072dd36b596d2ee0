/** The multiplication routine of the compiled workloads
    (examples/matrix_mult/matrix_mult.dis:298-307), run on the RV32I reference semantics. */
module Mulsi3 {
  import opened Words
  import opened Memory
  import opened RegisterFile
  import opened ControlSignals
  import opened Datapath
  import opened InstructionSet
  import opened PipelineStep
  import opened Runs
  import opened CoSimulation
  import opened Integers
  import Interpreter
  import InterpreterAgreement
  import DecoderAgreement

  const RA: RegIdx := 1
  const A0: RegIdx := 10
  const A1: RegIdx := 11
  const A2: RegIdx := 12
  const A3: RegIdx := 13

  /** The nine words at 0x104d8. */
  predicate Loaded(b: Bytes) {
    GetWord(b, 0x104d8) == 0x0005_0613 && // mv   a2,a0
    GetWord(b, 0x104dc) == 0x0000_0513 && // li   a0,0
    GetWord(b, 0x104e0) == 0x0015_f693 && // andi a3,a1,1
    GetWord(b, 0x104e4) == 0x0006_8463 && // beqz a3,0x104ec
    GetWord(b, 0x104e8) == 0x00c5_0533 && // add  a0,a0,a2
    GetWord(b, 0x104ec) == 0x0015_d593 && // srli a1,a1,1
    GetWord(b, 0x104f0) == 0x0016_1613 && // slli a2,a2,1
    GetWord(b, 0x104f4) == 0xfe05_96e3 && // bnez a1,0x104e0
    GetWord(b, 0x104f8) == 0x0000_8067    // ret
  }

  lemma DecodedEntry()
    ensures Decode(0x0005_0613) == OpImm(ADD, A2, A0, 0)
    ensures Decode(0x0000_0513) == OpImm(ADD, A0, 0, 0)
    ensures Decode(0x0000_8067) == Jalr(0, RA, 0)
  {
  }

  lemma DecodedAdd()
    ensures Decode(0x0015_f693) == OpImm(AND, A3, A1, 1)
    ensures Decode(0x0006_8463) == Branch(BEQ, A3, 0, 8)
    ensures Decode(0x00c5_0533) == Op(ADD, A0, A0, A2)
  {
  }

  lemma DecodedShift()
    ensures Decode(0x0015_d593) == OpImm(SRL, A1, A1, 1)
    ensures Decode(0x0016_1613) == OpImm(SLL, A2, A2, 1)
    ensures Decode(0xfe05_96e3) == Branch(BNE, A1, 0, 0xffff_ffec)
  {
  }

  /** Only the program counter and register rd have changed. */
  ghost predicate Sets(s: Arch, t: Arch, pc: Word, rd: RegIdx, value: Word) {
    t.pc == pc && t.mem == s.mem && Read(t.regFile, rd) == value &&
    forall r: RegIdx :: r != rd ==> Read(t.regFile, r) == Read(s.regFile, r)
  }

  lemma WriteSets(s: Arch, t: Arch, pc: Word, rd: RegIdx, value: Word)
    requires t == Arch(pc, Write(s.regFile, true, rd, value), s.mem, t.execTrace) && rd != 0
    ensures Sets(s, t, pc, rd, value)
  {
    hide Read, Write;
    forall r: RegIdx
      ensures Read(t.regFile, r) == if r == rd then value else Read(s.regFile, r)
    {
      ReadAfterWrite(s.regFile, true, rd, value, r);
    }
  }

  lemma OpImmStep(s: Arch, op: ArithOp, rd: RegIdx, rs1: RegIdx, imm: Word) returns (t: Arch)
    requires Decode(Fetch(s)) == OpImm(op, rd, rs1, imm) && rd != 0 && Aligned(s.pc)
    ensures IsaStep(s) == Next(t) && Sets(s, t, Add(s.pc, 4), rd, Arith(op, Read(s.regFile, rs1), imm))
  {
    AlignedNext(s.pc);
    hide Read, Write, Aligned, Add, Arith, Sets, Decode, GetWord;
    t := IsaStep(s).arch;
    WriteSets(s, t, Add(s.pc, 4), rd, Arith(op, Read(s.regFile, rs1), imm));
  }

  lemma OpStep(s: Arch, op: ArithOp, rd: RegIdx, rs1: RegIdx, rs2: RegIdx) returns (t: Arch)
    requires Decode(Fetch(s)) == Op(op, rd, rs1, rs2) && rd != 0 && Aligned(s.pc)
    ensures IsaStep(s) == Next(t)
    ensures Sets(s, t, Add(s.pc, 4), rd, Arith(op, Read(s.regFile, rs1), Read(s.regFile, rs2)))
  {
    AlignedNext(s.pc);
    hide Read, Write, Aligned, Add, Arith, Sets, Decode, GetWord;
    t := IsaStep(s).arch;
    WriteSets(s, t, Add(s.pc, 4), rd, Arith(op, Read(s.regFile, rs1), Read(s.regFile, rs2)));
  }

  lemma BranchStep(s: Arch, op: BranchOp, rs1: RegIdx, imm: Word) returns (t: Arch)
    requires Decode(Fetch(s)) == Branch(op, rs1, 0, imm) && Aligned(s.pc) && Aligned(Add(s.pc, imm))
    ensures IsaStep(s) == Next(t) && t.mem == s.mem && t.regFile == s.regFile
    ensures t.pc == if Condition(op, Read(s.regFile, rs1), Read(s.regFile, 0)) then Add(s.pc, imm) else Add(s.pc, 4)
  {
    AlignedNext(s.pc);
    hide Read, Aligned, Add, Condition, Decode, GetWord;
    t := IsaStep(s).arch;
  }

  // ----- the arithmetic of one round -----

  /** Multiplication modulo 2^32. */
  function Times(a: Word, b: Word): Word {
    a * b
  }

  lemma Distributes(a: Word, b: Word)
    ensures Times(a, b + 1) == Add(a * b, a)
  {
  }

  lemma TimesNext(a: Word, b: Word)
    ensures Times(a, b + 1) == Add(Times(a, b), a)
  {
    hide Add;
    Distributes(a, b);
  }

  lemma OneLess(a: Word, b: Word) returns (c: Word)
    requires b != 0
    ensures Unsigned(c) == Unsigned(b) - 1 >= 0 && Times(a, b) == Add(Times(a, c), a)
  {
    hide Unsigned, Times, Add;
    c := b - 1;
    Previous(b);
    TimesNext(a, c);
  }

  /** It is the product of the integers, modulo 2^32. */
  lemma {:induction false} TimesMeans(a: Word, b: Word)
    ensures Unsigned(Times(a, b)) == (Unsigned(a) * Unsigned(b)) % 0x1_0000_0000
    decreases Unsigned(b)
  {
    hide Unsigned, Times, Add;
    ZeroMeans();
    if b == 0 {
      TimesZero(a);
    } else {
      var c := OneLess(a, b);
      TimesMeans(a, c);
      AddMeans(Times(a, c), a);
      AddModulo(Unsigned(a), Unsigned(b));
    }
  }

  lemma AddModulo(x: int, y: int)
    ensures ((x * (y - 1)) % 0x1_0000_0000 + x) % 0x1_0000_0000 == (x * y) % 0x1_0000_0000
  {
    var m := 0x1_0000_0000;
    var t, r := Division(x * (y - 1), m);
    var u, v := Division(r + x, m);
    assert x * y == x * (y - 1) + x;
    Quotient(x * y, m, t + u, v);
  }

  lemma Halves(b: Word)
    ensures var q := ShiftRight(b, 1); b == if And(b, 1) == 0 then q + q else q + q + 1
  {
  }

  lemma Doubles(a: Word)
    ensures ShiftLeft(a, 1) == a + a
  {
  }

  lemma TimesEven(a: Word, q: Word)
    ensures Times(a, q + q) == Times(a + a, q)
  {
  }

  lemma TimesOdd(a: Word, q: Word)
    ensures Times(a, q + q + 1) == Add(a, (a + a) * q)
  {
  }

  lemma AddZero(a: Word)
    ensures Add(0, a) == a && Add(a, 0) == a
  {
  }

  lemma TimesZero(a: Word)
    ensures Times(a, 0) == 0
  {
  }

  lemma AddAssociates(a: Word, b: Word, c: Word)
    ensures Add(a, b + c) == Add(a + b, c)
  {
  }

  lemma TimesOddFolded(a: Word, q: Word)
    ensures Times(a, q + q + 1) == Add(a, Times(a + a, q))
  {
    hide Add;
    TimesOdd(a, q);
  }

  lemma EvenTimes(a: Word, b: Word, d: Word, q: Word)
    requires b == q + q && d == a + a
    ensures Times(a, b) == Times(d, q)
  {
    hide Times;
    TimesEven(a, q);
  }

  lemma OddTimes(a: Word, b: Word, d: Word, q: Word)
    requires b == q + q + 1 && d == a + a
    ensures Times(a, b) == Add(a, Times(d, q))
  {
    hide Times, Add;
    TimesOddFolded(a, q);
  }

  lemma HalfTimes(a: Word, b: Word, d: Word, q: Word)
    requires d == ShiftLeft(a, 1) && q == ShiftRight(b, 1)
    ensures Times(a, b) == if And(b, 1) == 0 then Times(d, q) else Add(a, Times(d, q))
  {
    hide Times, Add, ShiftLeft, ShiftRight, And;
    Halves(b);
    Doubles(a);
    if And(b, 1) == 0 {
      EvenTimes(a, b, d, q);
    } else {
      OddTimes(a, b, d, q);
    }
  }

  /** Shift and add. */
  lemma TimesStep(a: Word, b: Word)
    ensures Times(a, b) == Add(if And(b, 1) == 0 then 0 else a, Times(ShiftLeft(a, 1), ShiftRight(b, 1)))
  {
    hide Times, Add, ShiftLeft, ShiftRight, And;
    HalfTimes(a, b, ShiftLeft(a, 1), ShiftRight(b, 1));
    AddZero(Times(ShiftLeft(a, 1), ShiftRight(b, 1)));
  }

  // ----- at most 32 rounds -----

  /** Halving b k times leaves 0. */
  predicate Fits(b: Word, k: nat) {
    if k == 0 then b == 0 else Fits(ShiftRight(b, 1), k - 1)
  }

  lemma FitsUp(b: Word, half: Word, k: nat)
    requires half == ShiftRight(b, 1) && Fits(half, k)
    ensures Fits(b, k + 1)
  {
  }

  lemma {:induction false} FitsEight(b: Word, k: nat)
    requires Fits(b >> 8, k)
    ensures Fits(b, k + 8)
  {
    hide Fits;
    FitsUp(b >> 7, b >> 8, k);
    FitsUp(b >> 6, b >> 7, k + 1);
    FitsUp(b >> 5, b >> 6, k + 2);
    FitsUp(b >> 4, b >> 5, k + 3);
    FitsUp(b >> 3, b >> 4, k + 4);
    FitsUp(b >> 2, b >> 3, k + 5);
    FitsUp(b >> 1, b >> 2, k + 6);
    FitsUp(b, b >> 1, k + 7);
  }

  lemma WordFits(b: Word)
    ensures Fits(b, 32)
  {
    FitsEight(b >> 24, 0);
    FitsEight(b >> 16, 8);
    FitsEight(b >> 8, 16);
    FitsEight(b, 24);
  }

  // ----- the routine -----

  /** a0, a1 and a2 have these values, a3 any, and everything else is as in s. */
  ghost predicate Holds(s: Arch, t: Arch, a0: Word, a1: Word, a2: Word) {
    t.mem == s.mem && Read(t.regFile, A0) == a0 && Read(t.regFile, A1) == a1 && Read(t.regFile, A2) == a2 &&
    forall r: RegIdx :: r != A0 && r != A1 && r != A2 && r != A3 ==> Read(t.regFile, r) == Read(s.regFile, r)
  }

  lemma Addresses()
    ensures Add(0x104d8, 4) == 0x104dc && Add(0x104dc, 4) == 0x104e0 && Add(0x104e0, 4) == 0x104e4
    ensures Add(0x104e4, 4) == 0x104e8 && Add(0x104e4, 8) == 0x104ec && Add(0x104e8, 4) == 0x104ec
    ensures Add(0x104ec, 4) == 0x104f0 && Add(0x104f0, 4) == 0x104f4 && Add(0x104f4, 4) == 0x104f8
    ensures Add(0x104f4, 0xffff_ffec) == 0x104e0
    ensures Aligned(0x104d8) && Aligned(0x104dc) && Aligned(0x104e0) && Aligned(0x104e4) && Aligned(0x104e8)
    ensures Aligned(0x104ec) && Aligned(0x104f0) && Aligned(0x104f4) && Aligned(0x104f8)
  {
  }

  lemma ArithByOne(a: Word, b: Word)
    ensures Arith(AND, a, 1) == And(a, 1) && Arith(SRL, a, 1) == ShiftRight(a, 1) && Arith(SLL, a, 1) == ShiftLeft(a, 1)
    ensures Arith(ADD, a, b) == Add(a, b) && Arith(ADD, a, 0) == a
    ensures Condition(BEQ, a, b) == (a == b) && Condition(BNE, a, b) == (a != b)
  {
    hide SignedLess, Below, ShiftRightArithmetic, Sub, Or, Xor;
  }

  /** andi, beqz and, when the bit is set, add. */
  lemma ConditionalAdd(s: Arch) returns (t: Arch, n: nat)
    requires Loaded(s.mem.bytes) && s.pc == 0x104e0 && Read(s.regFile, 0) == 0
    ensures IsaSteps(s, n) == Next(t) && n <= 3 && t.pc == 0x104ec
    ensures var bit := And(Read(s.regFile, A1), 1);
      Holds(s, t, Add(Read(s.regFile, A0), if bit == 0 then 0 else Read(s.regFile, A2)), Read(s.regFile, A1),
        Read(s.regFile, A2))
  {
    Addresses();
    DecodedAdd();
    hide IsaStep, Add, And, Aligned, Arith, Condition, Decode, GetWord, Read;
    var s1 := OpImmStep(s, AND, A3, A1, 1);
    ArithByOne(Read(s.regFile, A1), 0);
    var s2 := BranchStep(s1, BEQ, A3, 8);
    ArithByOne(Read(s1.regFile, A3), Read(s1.regFile, 0));
    AddZero(Read(s.regFile, A0));
    assert IsaSteps(s, 0) == Next(s) && IsaSteps(s, 1) == Next(s1) && IsaSteps(s, 2) == Next(s2);
    if And(Read(s.regFile, A1), 1) == 0 {
      t, n := s2, 2;
    } else {
      t := OpStep(s2, ADD, A0, A0, A2);
      n := 3;
      ArithByOne(Read(s2.regFile, A0), Read(s2.regFile, A2));
    }
  }

  /** srli, slli and bnez. */
  lemma ShiftAndLoop(s: Arch) returns (t: Arch)
    requires Loaded(s.mem.bytes) && s.pc == 0x104ec && Read(s.regFile, 0) == 0
    ensures IsaSteps(s, 3) == Next(t)
    ensures var rest := ShiftRight(Read(s.regFile, A1), 1);
      t.pc == (if rest != 0 then 0x104e0 else 0x104f8) &&
      Holds(s, t, Read(s.regFile, A0), rest, ShiftLeft(Read(s.regFile, A2), 1))
  {
    Addresses();
    DecodedShift();
    hide IsaStep, Add, And, ShiftLeft, ShiftRight, Aligned, Arith, Condition, Decode, GetWord, Read;
    var s1 := OpImmStep(s, SRL, A1, A1, 1);
    ArithByOne(Read(s.regFile, A1), 0);
    var s2 := OpImmStep(s1, SLL, A2, A2, 1);
    ArithByOne(Read(s1.regFile, A2), 0);
    t := BranchStep(s2, BNE, A1, 0xffff_ffec);
    ArithByOne(Read(s2.regFile, A1), Read(s2.regFile, 0));
    assert IsaSteps(s, 0) == Next(s) && IsaSteps(s, 1) == Next(s1) && IsaSteps(s, 2) == Next(s2);
  }

  lemma {:induction false} StepsAppend(s: Arch, m: nat, r: Arch, n: nat)
    requires IsaSteps(s, m) == Next(r)
    ensures IsaSteps(s, m + n) == IsaSteps(r, n)
  {
    hide IsaStep;
    if n == 0 {
      assert IsaSteps(r, 0) == Next(r);
    } else {
      StepsAppend(s, m, r, n - 1);
    }
  }

  /** The loop, from any accumulator: a0 becomes a0 + a2 * a1 in at most k rounds of six instructions. */
  lemma {:induction false} Loop(s: Arch, k: nat) returns (t: Arch, n: nat)
    requires Loaded(s.mem.bytes) && s.pc == 0x104e0 && Read(s.regFile, 0) == 0
    requires k > 0 && Fits(Read(s.regFile, A1), k)
    ensures IsaSteps(s, n) == Next(t) && n <= 6 * k && t.pc == 0x104f8
    ensures Holds(s, t, Add(Read(s.regFile, A0), Times(Read(s.regFile, A2), Read(s.regFile, A1))), 0,
      Read(t.regFile, A2))
    decreases k
  {
    var a, b, c := Read(s.regFile, A0), Read(s.regFile, A1), Read(s.regFile, A2);
    hide IsaStep, Add, And, ShiftLeft, ShiftRight, Times, GetWord, Read;
    var s1, n1 := ConditionalAdd(s);
    var s2 := ShiftAndLoop(s1);
    StepsAppend(s, n1, s1, 3);
    RoundAdds(a, b, c);
    if ShiftRight(b, 1) == 0 {
      t, n := s2, n1 + 3;
      TimesZero(ShiftLeft(c, 1));
      AddZero(Add(a, if And(b, 1) == 0 then 0 else c));
    } else {
      FitsMore(b, k);
      var n2;
      t, n2 := Loop(s2, k - 1);
      n := n1 + 3 + n2;
      StepsAppend(s, n1 + 3, s2, n2);
    }
  }

  lemma RoundAdds(a: Word, b: Word, c: Word)
    ensures Add(a, Times(c, b)) == Add(Add(a, if And(b, 1) == 0 then 0 else c),
      Times(ShiftLeft(c, 1), ShiftRight(b, 1)))
  {
    var x := if And(b, 1) == 0 then 0 else c;
    var y := Times(ShiftLeft(c, 1), ShiftRight(b, 1));
    AddFolds(a, x, y);
    hide Times, Add, ShiftLeft, ShiftRight, And;
    TimesStep(c, b);
  }

  lemma AddFolds(a: Word, x: Word, y: Word)
    ensures Add(a, Add(x, y)) == Add(Add(a, x), y)
  {
    hide Add;
    AddIs(x, y);
    AddIs(a, x);
    AddAssociates(a, x, y);
  }

  lemma AddIs(a: Word, b: Word)
    ensures Add(a, b) == a + b
  {
  }

  lemma FitsMore(b: Word, k: nat)
    requires Fits(b, k) && k > 0 && ShiftRight(b, 1) != 0
    ensures k > 1 && Fits(ShiftRight(b, 1), k - 1)
  {
    hide ShiftRight;
  }

  /** Called with any two words, the routine reaches its return after at most 2 + 6 * 32 instructions with
      the product modulo 2^32 in a0 and 0 in a1; memory and all registers except a0 to a3 are untouched. */
  lemma Multiplies(s: Arch) returns (t: Arch, n: nat)
    requires Loaded(s.mem.bytes) && s.pc == 0x104d8 && Read(s.regFile, 0) == 0
    ensures IsaSteps(s, n) == Next(t) && n <= 194 && t.pc == 0x104f8
    ensures Holds(s, t, Times(Read(s.regFile, A0), Read(s.regFile, A1)), 0, Read(t.regFile, A2))
  {
    Addresses();
    DecodedEntry();
    var a, b := Read(s.regFile, A0), Read(s.regFile, A1);
    hide IsaStep, Add, And, Aligned, Arith, Condition, Decode, GetWord, Read, Times;
    var s1 := OpImmStep(s, ADD, A2, A0, 0);
    ArithByOne(a, 0);
    var s2 := OpImmStep(s1, ADD, A0, 0, 0);
    ArithByOne(0, 0);
    assert IsaSteps(s, 0) == Next(s) && IsaSteps(s, 1) == Next(s1) && IsaSteps(s, 2) == Next(s2);
    WordFits(b);
    var n2;
    t, n2 := Loop(s2, 32);
    n := 2 + n2;
    StepsAppend(s, 2, s2, n2);
    AddZero(Times(a, b));
  }

  /** The return goes to the caller's address, without its lowest bit, if that is aligned. */
  lemma Returns(s: Arch)
    requires Loaded(s.mem.bytes) && s.pc == 0x104f8
    ensures var target := ClearBitZero(Read(s.regFile, RA));
      if Aligned(target) then
        IsaStep(s).Next? && IsaStep(s).arch.pc == target && IsaStep(s).arch.regFile == s.regFile &&
          IsaStep(s).arch.mem == s.mem
      else IsaStep(s) == Trap(Misaligned)
    ensures var address := Unsigned(Read(s.regFile, RA));
      if (address - address % 2) % 4 == 0 then
        IsaStep(s).Next? && Unsigned(IsaStep(s).arch.pc) == address - address % 2
      else IsaStep(s) == Trap(Misaligned)
    ensures Aligned(Read(s.regFile, RA)) ==> IsaStep(s).Next? && IsaStep(s).arch.pc == Read(s.regFile, RA)
  {
    ReturnAddress(Read(s.regFile, RA));
    DecodedEntry();
    hide Add, Aligned, ClearBitZero, Decode, GetWord, Read, Unsigned;
    AddZero(Read(s.regFile, RA));
  }

  /** Where a return to a goes. */
  lemma ReturnAddress(a: Word)
    ensures Unsigned(ClearBitZero(a)) == Unsigned(a) - Unsigned(a) % 2
    ensures Aligned(ClearBitZero(a)) <==> (Unsigned(a) - Unsigned(a) % 2) % 4 == 0
    ensures Aligned(a) ==> ClearBitZero(a) == a
  {
    hide ClearBitZero, Aligned, Unsigned;
    ClearBitZeroMeans(a);
    AlignedMeans(ClearBitZero(a));
    AlignedStays(a);
  }

  /** The same on the pipeline: when a benign program of legal words calls the routine after k instructions, the
      pipeline reaches, after some tick t, the state in which the product is in a0. */
  lemma MultipliesOnPipeline(s0: Arch, k: nat) returns (n: nat, t: nat, r: Arch)
    requires LegalRun(s0) && s0.execTrace == [] && Steps(s0, k).Next?
    requires var s := Steps(s0, k).arch; Loaded(s.mem.bytes) && s.pc == 0x104d8
    ensures n <= 194 && Steps(s0, k + n) == Next(r) && r.pc == 0x104f8
    ensures var s := Steps(s0, k).arch;
      Holds(s, r, Times(Read(s.regFile, A0), Read(s.regFile, A1)), 0, Read(r.regFile, A2))
    ensures t <= 3 * (k + n) && AtPoint(s0, k + n, Ticks(StartOf(s0), t))
  {
    hide IsaSteps, Times, GetWord, Read, Ticks, StartOf, AtPoint, Step, Holds, Aligned, WellPlaced, Benign;
    var s := Steps(s0, k).arch;
    RunKeeps(s0, k);
    r, n := Multiplies(s);
    StepsFollowManual(s0, k, n);
    t := Reaches(s0, k + n);
  }

  // ----- the routine keeps within the fragment -----

  predicate AtRoutine(pc: Word) {
    pc == 0x104d8 || pc == 0x104dc || pc == 0x104e0 || pc == 0x104e4 || pc == 0x104e8 || pc == 0x104ec ||
    pc == 0x104f0 || pc == 0x104f4 || pc == 0x104f8
  }

  predicate RoutineWord(w: Word) {
    w == 0x0005_0613 || w == 0x0000_0513 || w == 0x0015_f693 || w == 0x0006_8463 || w == 0x00c5_0533 ||
    w == 0x0015_d593 || w == 0x0016_1613 || w == 0xfe05_96e3 || w == 0x0000_8067
  }

  /** The decoder of the pipeline accepts the word, and it is not a load. */
  predicate Plain(w: Word) {
    Accepted(w) && !IsLoad(w) && w != 0
  }

  lemma PlainEntry()
    ensures Plain(0x0005_0613) && Plain(0x0000_0513) && Plain(0x0000_8067)
  {
  }

  lemma PlainAdd()
    ensures Plain(0x0015_f693) && Plain(0x0006_8463) && Plain(0x00c5_0533)
  {
  }

  lemma PlainShift()
    ensures Plain(0x0015_d593) && Plain(0x0016_1613) && Plain(0xfe05_96e3)
  {
  }

  /** Every word of the routine is one that both models execute as the manual says. */
  lemma RoutineAgreed(s: Arch)
    requires RoutineWord(Fetch(s))
    ensures Plain(Fetch(s)) && Agreed(s)
  {
    DecodedEntry();
    DecodedAdd();
    DecodedShift();
    PlainEntry();
    PlainAdd();
    PlainShift();
    hide Decode, Plain, Read, Add, GetWord, Rd;
  }

  lemma WordsOfRoutine(b: Bytes, pc: Word)
    requires Loaded(b) && AtRoutine(pc)
    ensures pc != 0 && Aligned(pc) && RoutineWord(GetWord(b, pc))
    ensures pc != 0x104f8 ==> AtRoutine(Add(pc, 4))
  {
    hide GetWord, Add, Aligned;
    Addresses();
  }

  /** Before its return the routine stays in itself and keeps memory and the return address. */
  lemma StaysInRoutine(s: Arch) returns (t: Arch)
    requires Loaded(s.mem.bytes) && AtRoutine(s.pc) && s.pc != 0x104f8
    ensures IsaStep(s) == Next(t) && AtRoutine(t.pc) && t.mem == s.mem && Read(t.regFile, RA) == Read(s.regFile, RA)
  {
    Addresses();
    DecodedEntry();
    DecodedAdd();
    DecodedShift();
    hide IsaStep, Add, Aligned, Arith, Condition, Decode, GetWord, Read;
    if s.pc == 0x104d8 {
      t := OpImmStep(s, ADD, A2, A0, 0);
    } else if s.pc == 0x104dc {
      t := OpImmStep(s, ADD, A0, 0, 0);
    } else if s.pc == 0x104e0 {
      t := OpImmStep(s, AND, A3, A1, 1);
    } else if s.pc == 0x104e4 {
      t := BranchStep(s, BEQ, A3, 8);
    } else if s.pc == 0x104e8 {
      t := OpStep(s, ADD, A0, A0, A2);
    } else if s.pc == 0x104ec {
      t := OpImmStep(s, SRL, A1, A1, 1);
    } else if s.pc == 0x104f0 {
      t := OpImmStep(s, SLL, A2, A2, 1);
    } else {
      t := BranchStep(s, BNE, A1, 0xffff_ffec);
    }
  }

  /** The caller of the routine: the return address is aligned, and neither it nor the word there is zero; the
      word behind the routine decodes. */
  predicate Callable(s: Arch) {
    var target := ClearBitZero(Read(s.regFile, RA));
    Loaded(s.mem.bytes) && Aligned(target) && target != 0 && GetWord(s.mem.bytes, target) != 0 &&
    Accepted(GetWord(s.mem.bytes, 0x104fc))
  }

  /** Every instruction of the routine is benign for the pipeline and agreed on by both models, and leads to
      another one of the routine, or back to the caller. */
  lemma RoutineIsAgreed(s: Arch) returns (t: Arch)
    requires Callable(s) && AtRoutine(s.pc)
    ensures Agreed(s) && Benign(s) && Step(s) == IsaStep(s) == Next(t)
    ensures t.mem == s.mem && Read(t.regFile, RA) == Read(s.regFile, RA) && Callable(t)
    ensures if s.pc == 0x104f8 then t.pc == ClearBitZero(Read(s.regFile, RA)) else AtRoutine(t.pc)
    ensures s.pc == 0x104f8 && Aligned(Read(s.regFile, RA)) ==> t.pc == Read(s.regFile, RA)
  {
    hide GetWord, Add, Aligned, AtRoutine, RoutineWord, Agreed, IsaStep, Step, ClearBitZero, Read, Loaded, Benign,
         ControlOf, IsLoad;
    WordsOfRoutine(s.mem.bytes, s.pc);
    RoutineAgreed(s);
    AgreedIsManual(s);
    assert Add(0x104f8, 4) == 0x104fc by { EndOfRoutine(); }
    AlignedStays(Read(s.regFile, RA));
    if s.pc == 0x104f8 {
      Returns(s);
      t := IsaStep(s).arch;
    } else {
      t := StaysInRoutine(s);
      WordsOfRoutine(t.mem.bytes, t.pc);
      RoutineAgreed(t);
      WordsOfRoutine(s.mem.bytes, Add(s.pc, 4));
      RoutineAgreed(s.(pc := Add(s.pc, 4)));
    }
    PlainIsBenign(s, t);
  }

  lemma EndOfRoutine()
    ensures Add(0x104f8, 4) == 0x104fc
  {
  }

  lemma AgreedIsManual(s: Arch)
    requires Agreed(s) && Aligned(s.pc)
    ensures Step(s) == IsaStep(s)
  {
    hide Step, IsaStep, Executable, InterpreterAgreement.Faithful, Aligned, GetWord;
    StepIsManual(s);
  }

  lemma PlainIsBenign(s: Arch, t: Arch)
    requires Step(s) == Next(t) && t.mem == s.mem && Plain(Fetch(s)) && WellPlaced(t)
    requires Accepted(GetWord(s.mem.bytes, Add(s.pc, 4)))
    ensures Benign(s)
  {
    hide Step, GetWord, Add, Taken, ControlOf, LoadUseSafe, WellPlaced, IsLoad;
  }

  // ----- the routine as a program -----

  /** The routine is about to run, called from an ECALL. */
  predicate Called(s: Arch) {
    Callable(s) && s.pc == 0x104d8 && Read(s.regFile, 0) == 0 && s.execTrace == [] &&
    GetWord(s.mem.bytes, ClearBitZero(Read(s.regFile, RA))) == 0x73
  }

  /** At an instruction of the routine, or back at the ECALL. */
  predicate Within(s: Arch, t: Arch) {
    t.mem == s.mem && Read(t.regFile, RA) == Read(s.regFile, RA) &&
    (AtRoutine(t.pc) || t.pc == ClearBitZero(Read(s.regFile, RA)))
  }

  lemma {:induction false} StaysWithin(s: Arch, n: nat)
    requires Called(s) && Steps(s, n).Next?
    ensures Within(s, Steps(s, n).arch)
    ensures Benign(Steps(s, n).arch) && Agreed(Steps(s, n).arch)
  {
    hide GetWord, Aligned, AtRoutine, Agreed, Step, ClearBitZero, Read, Loaded, Benign, ControlOf;
    if n == 0 {
      EntryIsRoutine();
    } else {
      StaysWithin(s, n - 1);
      var r := Steps(s, n - 1).arch;
      if AtRoutine(r.pc) {
        var t := RoutineIsAgreed(r);
      } else {
        CallerTraps(r);
      }
    }
    var r := Steps(s, n).arch;
    if AtRoutine(r.pc) {
      var t := RoutineIsAgreed(r);
    } else {
      CallerTraps(r);
    }
  }

  lemma EntryIsRoutine()
    ensures AtRoutine(0x104d8)
  {
  }

  lemma CallerTraps(s: Arch)
    requires Fetch(s) == 0x73
    ensures Step(s) == Trap(Ecall) && Agreed(s) && Benign(s)
  {
    hide GetWord, ControlOf, Decode, Step, WellPlaced, StoreSpares;
    DecoderAgreement.SystemWords();
    RejectedTraps(s);
  }

  lemma RejectedTraps(s: Arch)
    requires ControlOf(Fetch(s)) == Reject(Ecall)
    ensures Step(s) == Trap(Ecall)
  {
    hide GetWord, ControlOf;
  }

  lemma CalledIsAgreed(s: Arch)
    requires Called(s)
    ensures AgreedRun(s)
  {
    hide GetWord, Aligned, Agreed, Step, ClearBitZero, Read, Benign, ControlOf, Steps;
    Addresses();
    assert s.pc != 0;
    forall n: nat | Steps(s, n).Next?
      ensures Benign(Steps(s, n).arch) && Agreed(Steps(s, n).arch)
    {
      StaysWithin(s, n);
    }
  }

  lemma ReturnsToCaller(s: Arch, r: Arch, m: nat)
    requires Called(s) && IsaSteps(s, m) == Next(r) && r.pc == 0x104f8 && r.mem == s.mem
    requires Read(r.regFile, RA) == Read(s.regFile, RA)
    ensures IsaSteps(s, m + 1).Next?
    ensures var t := IsaSteps(s, m + 1).arch;
      t.pc == ClearBitZero(Read(s.regFile, RA)) && t.regFile == r.regFile && t.mem == s.mem
  {
    hide GetWord, Aligned, ClearBitZero, Read, ControlOf, IsaStep;
    Returns(r);
  }

  lemma AgreedFollows(s: Arch, n: nat)
    requires AgreedRun(s) && IsaSteps(s, n).Next?
    ensures Steps(s, n) == IsaSteps(s, n)
  {
    hide Step, IsaStep, Executable, Benign, Aligned, Read, WellPlaced, BenignRun, InterpreterAgreement.Faithful;
    assert Steps(s, 0) == Next(s);
    StepsFollowManual(s, 0, n);
  }

  /** The manual ends as the sequential machine does. */
  lemma SameEnd(s: Arch, n: nat)
    requires AgreedRun(s) && Steps(s, n).Next? && IsaSteps(s, n) == Steps(s, n)
    ensures IsaSteps(s, n + 1) == Step(Steps(s, n).arch)
  {
    hide Step, IsaStep, Agreed, Benign, Aligned, Read, WellPlaced;
    RunKeeps(s, n);
    AgreedIsManual(Steps(s, n).arch);
  }

  /** The routine as a whole program: called from any ECALL with any two words, both models end with that ECALL
      and leave the product modulo 2^32 in a0. */
  lemma BothMultiply(s: Arch) returns (n: nat, end: Arch)
    requires Called(s)
    ensures n <= 195 && AgreedRun(s) && Interpreter.Rounds(s, n + 1) == Interpreter.Returns(Ecall, end)
    ensures Ticks(StartOf(s), Cycles(s, n) + 2)
         == Stopped(Ecall, Final(end.regFile, end.mem, end.execTrace, Cycles(s, n) + 1))
    ensures Unsigned(end.pc) == Unsigned(Read(s.regFile, RA)) - Unsigned(Read(s.regFile, RA)) % 2
    ensures Aligned(Read(s.regFile, RA)) ==> end.pc == Read(s.regFile, RA)
    ensures end.mem == s.mem
    ensures Read(end.regFile, A0) == Times(Read(s.regFile, A0), Read(s.regFile, A1))
  {
    hide GetWord, Aligned, Step, ClearBitZero, Read, ControlOf, Steps, IsaSteps, AgreedRun, Times, Interpreter.Rounds,
         Ticks, StartOf, Cycles, Unsigned;
    CalledIsAgreed(s);
    ReturnAddress(Read(s.regFile, RA));
    var r, m := Multiplies(s);
    n := m + 1;
    ReturnsToCaller(s, r, m);
    AgreedFollows(s, n);
    SameEnd(s, n);
    CallerTraps(Steps(s, n).arch);
    var cause;
    cause, end := ModelsAgree(s, n);
  }
}
