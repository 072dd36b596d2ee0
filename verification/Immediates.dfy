/** The immediates of section 2.3 of the RISC-V manual, Volume I, as integers, and the integers that they reach
    (models/pipeline/pipeline/instruction.h:77-183, models/functional/instruction.h:191-313). */
module Immediates {
  import opened Words
  import opened Integers
  import opened InstructionSet
  import opened Encoding
  import P = PipelineInstruction
  import F = FunctionalInstruction
  import DecoderAgreement
  import InterpreterAgreement

  // ----- inst[high:low] -----

  /** The number in the bits from high down to low. */
  function Bits(w: Word, high: nat, low: nat): (n: nat)
    requires high >= low
    ensures n < Pow2(high + 1 - low)
  {
    Unsigned(w) / Pow2(low) % Pow2(high + 1 - low)
  }

  /** The same bits cut out by two shifts. */
  function Slice(w: Word, left: Word, right: Word): Word
    requires left < 32 && right < 32
  {
    ShiftRight(ShiftLeft(w, left), right)
  }

  lemma Doubled(a: int, b: int)
    ensures 2 * (a * b) == (2 * a) * b
  {
  }

  lemma {:induction false} Pow2Adds(m: nat, n: nat)
    ensures Pow2(m + n) == Pow2(m) * Pow2(n)
  {
    if m == 0 {
      assert Pow2(0) == 1;
    } else {
      Pow2Adds(m - 1, n);
      Doubled(Pow2(m - 1), Pow2(n));
    }
  }

  lemma Pow2Values()
    ensures Pow2(1) == 2 && Pow2(4) == 0x10 && Pow2(5) == 0x20 && Pow2(6) == 0x40 && Pow2(8) == 0x100 && Pow2(7) == 0x80
    ensures Pow2(10) == 0x400 && Pow2(11) == 0x800 && Pow2(12) == 0x1000 && Pow2(20) == 0x10_0000 &&
      Pow2(32) == 0x1_0000_0000
    ensures Pow2(0) == 1
  {
    assert Pow2(4) == 0x10 && Pow2(8) == 0x100;
    Pow2Adds(8, 2);
    Pow2Adds(8, 3);
    Pow2Adds(8, 4);
    Pow2Adds(12, 8);
    Pow2Adds(12, 20);
  }

  /** (x * p mod p * m * k) / (p * m) == x / m mod k */
  lemma CutOut(x: nat, p: nat, m: nat, k: nat)
    requires p > 0 && m > 0 && k > 0
    ensures p * m * k > 0 && p * m > 0 && (x * p) % (p * m * k) / (p * m) == x / m % k
  {
    var d, r := Division(x, m);
    var e, s := Division(d, k);
    Positive(p, m);
    Positive(p * m, k);
    Bounded(p, m, r);
    Bounded(p * m, k, s);
    assert x * p == (p * m * k) * e + (p * m * s + p * r) by {
      assert x == m * (k * e + s) + r;
      assert x * p == p * (m * (k * e + s)) + p * r;
      assert p * (m * (k * e + s)) == (p * m) * (k * e + s) == (p * m) * (k * e) + (p * m) * s;
      assert (p * m) * (k * e) == (p * m * k) * e;
    }
    assert p * m * s + p * r < p * m * k by {
      assert p * m * s + p * m == p * m * (s + 1);
      AtMost(p * m, s + 1, k);
    }
    Quotient(x * p, p * m * k, e, p * m * s + p * r);
    Quotient(p * m * s + p * r, p * m, s, p * r);
  }

  lemma Positive(a: int, b: int)
    requires a > 0 && b > 0
    ensures a * b > 0
  {
  }

  lemma Bounded(a: int, b: int, c: int)
    requires a > 0 && 0 <= c < b
    ensures 0 <= a * c < a * b
  {
    assert a * (b - c) > 0;
    assert a * c >= 0;
  }

  lemma AtMost(a: int, b: int, c: int)
    requires a > 0 && b <= c
    ensures a * b <= a * c
  {
    assert a * (c - b) >= 0;
  }

  lemma SliceMeans(w: Word, left: Word, right: Word, high: nat, low: nat)
    requires left < 32 && right < 32 && 31 >= high >= low && Unsigned(left) == 31 - high &&
      Unsigned(right) == 31 - high + low
    ensures Unsigned(Slice(w, left, right)) == Bits(w, high, low)
  {
    hide Unsigned, ShiftLeft, ShiftRight, Pow2;
    ShiftLeftMeans(w, left);
    ShiftRightMeans(ShiftLeft(w, left), right);
    Pow2Adds(31 - high, low);
    Pow2Adds(31 - high + low, high + 1 - low);
    Pow2Values();
    CutOut(Unsigned(w), Pow2(31 - high), Pow2(low), Pow2(high + 1 - low));
  }

  /** Two words that agree on a slice agree on the number in it. */
  lemma SameBits(imm: Word, iLeft: Word, iRight: Word, iHigh: nat, iLow: nat,
                 w: Word, left: Word, right: Word, high: nat, low: nat)
    requires iLeft < 32 && iRight < 32 && 31 >= iHigh >= iLow
    requires Unsigned(iLeft) == 31 - iHigh && Unsigned(iRight) == 31 - iHigh + iLow
    requires left < 32 && right < 32 && 31 >= high >= low
    requires Unsigned(left) == 31 - high && Unsigned(right) == 31 - high + low
    requires (imm << iLeft) >> iRight == (w << left) >> right
    ensures Bits(imm, iHigh, iLow) == Bits(w, high, low)
  {
    hide Unsigned, Slice, Bits;
    SliceIs(imm, iLeft, iRight);
    SliceIs(w, left, right);
    SliceMeans(imm, iLeft, iRight, iHigh, iLow);
    SliceMeans(w, left, right, high, low);
  }

  lemma SliceIs(w: Word, left: Word, right: Word)
    requires left < 32 && right < 32
    ensures Slice(w, left, right) == (w << left) >> right
  {
  }

  lemma Amounts()
    ensures Unsigned(0) == 0 && Unsigned(1) == 1 && Unsigned(11) == 11 && Unsigned(12) == 12 && Unsigned(19) == 19
    ensures Unsigned(20) == 20 && Unsigned(21) == 21 && Unsigned(22) == 22 && Unsigned(24) == 24 && Unsigned(25) == 25
    ensures Unsigned(26) == 26 && Unsigned(27) == 27 && Unsigned(28) == 28 && Unsigned(31) == 31
  {
  }

  // ----- fields of the immediates -----

  lemma RawI(w: Word)
    ensures (ImmI(w) << 20) >> 20 == (w << 0) >> 20
    ensures ImmI(w) >> 11 == 0 || ImmI(w) >> 11 == 0x1f_ffff
  {
  }

  lemma RawS(w: Word)
    ensures (ImmS(w) << 20) >> 25 == (w << 0) >> 25 && (ImmS(w) << 27) >> 27 == (w << 20) >> 27
    ensures ImmS(w) >> 11 == 0 || ImmS(w) >> 11 == 0x1f_ffff
  {
  }

  lemma RawB(w: Word)
    ensures (ImmB(w) << 19) >> 31 == (w << 0) >> 31 && (ImmB(w) << 20) >> 31 == (w << 24) >> 31
    ensures (ImmB(w) << 21) >> 26 == (w << 1) >> 26 && (ImmB(w) << 27) >> 28 == (w << 20) >> 28 && ImmB(w) & 1 == 0
    ensures ImmB(w) >> 12 == 0 || ImmB(w) >> 12 == 0xf_ffff
  {
  }

  lemma RawU(w: Word)
    ensures (ImmU(w) << 0) >> 12 == (w << 0) >> 12
  {
  }

  lemma RawLowU(w: Word)
    ensures (ImmU(w) << 20) >> 20 == 0
  {
  }

  lemma RawJ(w: Word)
    ensures (ImmJ(w) << 11) >> 31 == (w << 0) >> 31 && (ImmJ(w) << 12) >> 24 == (w << 12) >> 24
    ensures (ImmJ(w) << 20) >> 31 == (w << 11) >> 31 && (ImmJ(w) << 21) >> 22 == (w << 1) >> 22 && ImmJ(w) & 1 == 0
    ensures ImmJ(w) >> 20 == 0 || ImmJ(w) >> 20 == 0xfff
  {
  }

  // ----- the integers -----

  lemma Tops()
    ensures Unsigned(0x1f_ffff) == 0x1f_ffff && Unsigned(0xf_ffff) == 0xf_ffff && Unsigned(0xfff) == 0xfff
  {
  }

  lemma TopBits(imm: Word, n: Word)
    requires n < 32
    ensures Unsigned(imm >> n) == Unsigned(imm) / Pow2(Unsigned(n))
  {
    hide Unsigned, Pow2;
    ShiftRightMeans(imm, n);
    ShiftIs(imm, n);
  }

  lemma ShiftIs(w: Word, n: Word)
    requires n < 32
    ensures ShiftRight(w, n) == w >> n
  {
  }

  lemma Digit(n: int, a: int, b: int)
    requires a > 0 && b > 0
    ensures a * b > 0 && n % (a * b) == a * (n / a % b) + n % a
  {
    var q, r := Division(n, a);
    var t, u := Division(q, b);
    Positive(a, b);
    Bounded(a, b, u);
    assert n == (a * b) * t + (a * u + r) by {
      assert n == a * (b * t + u) + r;
      assert a * (b * t + u) == (a * b) * t + a * u;
    }
    assert a * u + r < a * b by {
      assert a * u + a == a * (u + 1);
      AtMost(a, u + 1, b);
    }
    Quotient(n, a * b, t, a * u + r);
  }

  lemma DigitsS(n: int)
    ensures n % 0x1000 == 32 * (n / 32 % 128) + n % 32
  {
    Digit(n, 32, 128);
  }

  lemma DigitsB(n: int)
    requires n % 2 == 0
    ensures n % 0x2000 == 0x1000 * (n / 0x1000 % 2) + 0x800 * (n / 0x800 % 2) + 32 * (n / 32 % 64) + 2 * (n / 2 % 16)
  {
    Digit(n, 0x1000, 2);
    Digit(n, 0x800, 2);
    Digit(n, 32, 64);
    Digit(n, 2, 16);
  }

  lemma DigitsJ(n: int)
    requires n % 2 == 0
    ensures n % 0x20_0000
         == 0x10_0000 * (n / 0x10_0000 % 2) + 0x1000 * (n / 0x1000 % 256) + 0x800 * (n / 0x800 % 2) + 2 * (n / 2 % 1024)
  {
    Digit(n, 0x10_0000, 2);
    Digit(n, 0x1000, 256);
    Digit(n, 0x800, 2);
    Digit(n, 2, 1024);
  }

  /** When all bits from its sign bit up are equal, a word is the value of its low bits. */
  lemma SignedOf(imm: Word, half: int, t: int)
    requires 0 < half <= 0x4000_0000 && t >= 0 && half * (2 * t + 1) + half == 0x1_0000_0000
    requires Unsigned(imm) / half == 0 || Unsigned(imm) / half == 2 * t + 1
    ensures Signed(imm) == TwosComplement(Unsigned(imm) % (2 * half), half)
  {
    hide Unsigned;
    var n := Unsigned(imm);
    var q, r := Division(n, half);
    if q == 0 {
      Quotient(n, 2 * half, 0, r);
    } else {
      assert half * (2 * t + 1) == (2 * half) * t + half;
      Quotient(n, 2 * half, t, half + r);
    }
  }

  lemma FieldsI(w: Word)
    ensures Bits(ImmI(w), 11, 0) == Bits(w, 31, 20)
  {
    hide Unsigned, Bits, ImmI;
    Amounts();
    RawI(w);
    SameBits(ImmI(w), 20, 20, 11, 0, w, 0, 20, 31, 20);
  }

  lemma TopI(w: Word)
    ensures Unsigned(ImmI(w)) / 0x800 == 0 || Unsigned(ImmI(w)) / 0x800 == 0x1f_ffff
  {
    hide Unsigned, ImmI, Pow2;
    Amounts();
    Tops();
    Pow2Values();
    RawI(w);
    TopBits(ImmI(w), 11);
  }

  lemma FieldsS(w: Word)
    ensures Bits(ImmS(w), 11, 5) == Bits(w, 31, 25)
    ensures Bits(ImmS(w), 4, 0) == Bits(w, 11, 7)
  {
    hide Unsigned, Bits, ImmS;
    Amounts();
    RawS(w);
    SameBits(ImmS(w), 20, 25, 11, 5, w, 0, 25, 31, 25);
    SameBits(ImmS(w), 27, 27, 4, 0, w, 20, 27, 11, 7);
  }

  lemma TopS(w: Word)
    ensures Unsigned(ImmS(w)) / 0x800 == 0 || Unsigned(ImmS(w)) / 0x800 == 0x1f_ffff
  {
    hide Unsigned, ImmS, Pow2;
    Amounts();
    Tops();
    Pow2Values();
    RawS(w);
    TopBits(ImmS(w), 11);
  }


  lemma FieldsB(w: Word)
    ensures Bits(ImmB(w), 12, 12) == Bits(w, 31, 31)
    ensures Bits(ImmB(w), 11, 11) == Bits(w, 7, 7)
    ensures Bits(ImmB(w), 10, 5) == Bits(w, 30, 25)
    ensures Bits(ImmB(w), 4, 1) == Bits(w, 11, 8)
  {
    hide Unsigned, Bits, ImmB;
    Amounts();
    RawB(w);
    SameBits(ImmB(w), 19, 31, 12, 12, w, 0, 31, 31, 31);
    SameBits(ImmB(w), 20, 31, 11, 11, w, 24, 31, 7, 7);
    SameBits(ImmB(w), 21, 26, 10, 5, w, 1, 26, 30, 25);
    SameBits(ImmB(w), 27, 28, 4, 1, w, 20, 28, 11, 8);
  }

  lemma TopB(w: Word)
    ensures Unsigned(ImmB(w)) / 0x1000 == 0 || Unsigned(ImmB(w)) / 0x1000 == 0xf_ffff
  {
    hide Unsigned, ImmB, Pow2;
    Amounts();
    Tops();
    Pow2Values();
    RawB(w);
    TopBits(ImmB(w), 12);
  }


  lemma FieldsU(w: Word)
    ensures Bits(ImmU(w), 31, 12) == Bits(w, 31, 12)
  {
    hide Unsigned, Bits, ImmU;
    Amounts();
    RawU(w);
    SameBits(ImmU(w), 0, 12, 31, 12, w, 0, 12, 31, 12);
  }


  lemma FieldsJ(w: Word)
    ensures Bits(ImmJ(w), 20, 20) == Bits(w, 31, 31)
    ensures Bits(ImmJ(w), 19, 12) == Bits(w, 19, 12)
    ensures Bits(ImmJ(w), 11, 11) == Bits(w, 20, 20)
    ensures Bits(ImmJ(w), 10, 1) == Bits(w, 30, 21)
  {
    hide Unsigned, Bits, ImmJ;
    Amounts();
    RawJ(w);
    SameBits(ImmJ(w), 11, 31, 20, 20, w, 0, 31, 31, 31);
    SameBits(ImmJ(w), 12, 24, 19, 12, w, 12, 24, 19, 12);
    SameBits(ImmJ(w), 20, 31, 11, 11, w, 11, 31, 20, 20);
    SameBits(ImmJ(w), 21, 22, 10, 1, w, 1, 22, 30, 21);
  }

  lemma TopJ(w: Word)
    ensures Unsigned(ImmJ(w)) / 0x10_0000 == 0 || Unsigned(ImmJ(w)) / 0x10_0000 == 0xfff
  {
    hide Unsigned, ImmJ, Pow2;
    Amounts();
    Tops();
    Pow2Values();
    RawJ(w);
    TopBits(ImmJ(w), 20);
  }

  lemma EvenBJ(w: Word)
    ensures Unsigned(ImmB(w)) % 2 == 0 && Unsigned(ImmJ(w)) % 2 == 0
  {
    hide Unsigned, ImmB, ImmJ;
    RawB(w);
    RawJ(w);
    Amounts();
    LowBitMeans(ImmB(w));
    LowBitMeans(ImmJ(w));
  }

  lemma LowU(w: Word)
    ensures Unsigned(ImmU(w)) % 0x1000 == 0
  {
    hide Unsigned, ImmU, Pow2, Bits;
    Amounts();
    Pow2Values();
    RawLowU(w);
    SliceIs(ImmU(w), 20, 20);
    SliceMeans(ImmU(w), 20, 20, 11, 0);
    BitsAre(ImmU(w), 11, 0, 1, 0x1000);
  }

  lemma BitsAre(w: Word, high: nat, low: nat, below: int, range: int)
    requires high >= low && Pow2(low) == below && Pow2(high + 1 - low) == range
    ensures Bits(w, high, low) == Unsigned(w) / below % range
  {
    hide Unsigned, Pow2;
  }

  // ----- the five immediates -----

  /** I: inst[31:20], signed. */
  function IntegerI(w: Word): (v: int)
    ensures -2048 <= v <= 2047
  {
    Pow2Values();
    TwosComplement(Bits(w, 31, 20), 0x800)
  }

  /** S: inst[31:25], inst[11:7], signed. */
  function IntegerS(w: Word): (v: int)
    ensures -2048 <= v <= 2047
  {
    Pow2Values();
    TwosComplement(32 * Bits(w, 31, 25) + Bits(w, 11, 7), 0x800)
  }

  /** B: inst[31], inst[7], inst[30:25], inst[11:8], 0, signed. */
  function IntegerB(w: Word): (v: int)
    ensures -4096 <= v <= 4094 && v % 2 == 0
  {
    Pow2Values();
    TwosComplement(
      0x1000 * Bits(w, 31, 31) + 0x800 * Bits(w, 7, 7) + 32 * Bits(w, 30, 25) + 2 * Bits(w, 11, 8), 0x1000)
  }

  /** U: inst[31:12] and twelve zeros. */
  function IntegerU(w: Word): (v: int)
    ensures 0 <= v < 0x1_0000_0000 && v % 4096 == 0
  {
    Pow2Values();
    0x1000 * Bits(w, 31, 12)
  }

  /** J: inst[31], inst[19:12], inst[20], inst[30:21], 0, signed. */
  function IntegerJ(w: Word): (v: int)
    ensures -0x10_0000 <= v <= 0xf_fffe && v % 2 == 0
  {
    Pow2Values();
    TwosComplement(
      0x10_0000 * Bits(w, 31, 31) + 0x1000 * Bits(w, 19, 12) + 0x800 * Bits(w, 20, 20) + 2 * Bits(w, 30, 21),
      0x10_0000)
  }

  lemma ImmediateI(w: Word)
    ensures Signed(ImmI(w)) == IntegerI(w)
  {
    hide Unsigned, ImmI, Signed, Pow2, Bits;
    Pow2Values();
    FieldsI(w);
    TopI(w);
    BitsAre(ImmI(w), 11, 0, 1, 0x1000);
    SignedOf(ImmI(w), 0x800, 0xf_ffff);
  }

  lemma ImmediateS(w: Word)
    ensures Signed(ImmS(w)) == IntegerS(w)
  {
    hide Unsigned, ImmS, Signed, Pow2, Bits;
    Pow2Values();
    FieldsS(w);
    TopS(w);
    BitsAre(ImmS(w), 11, 5, 32, 128);
    BitsAre(ImmS(w), 4, 0, 1, 32);
    DigitsS(Unsigned(ImmS(w)));
    SignedOf(ImmS(w), 0x800, 0xf_ffff);
  }

  lemma ImmediateB(w: Word)
    ensures Signed(ImmB(w)) == IntegerB(w)
  {
    hide Unsigned, ImmB, ImmJ, Signed, Pow2, Bits;
    Pow2Values();
    FieldsB(w);
    TopB(w);
    EvenBJ(w);
    BitsAre(ImmB(w), 12, 12, 0x1000, 2);
    BitsAre(ImmB(w), 11, 11, 0x800, 2);
    BitsAre(ImmB(w), 10, 5, 32, 64);
    BitsAre(ImmB(w), 4, 1, 2, 16);
    DigitsB(Unsigned(ImmB(w)));
    SignedOf(ImmB(w), 0x1000, 0x7_ffff);
  }

  lemma ImmediateU(w: Word)
    ensures Unsigned(ImmU(w)) == IntegerU(w)
  {
    hide Unsigned, ImmU, Pow2, Bits;
    Pow2Values();
    FieldsU(w);
    LowU(w);
    BitsAre(ImmU(w), 31, 12, 0x1000, 0x10_0000);
  }

  lemma ImmediateJ(w: Word)
    ensures Signed(ImmJ(w)) == IntegerJ(w)
  {
    hide Unsigned, ImmB, ImmJ, Signed, Pow2, Bits;
    Pow2Values();
    FieldsJ(w);
    TopJ(w);
    EvenBJ(w);
    BitsAre(ImmJ(w), 20, 20, 0x10_0000, 2);
    BitsAre(ImmJ(w), 19, 12, 0x1000, 256);
    BitsAre(ImmJ(w), 11, 11, 0x800, 2);
    BitsAre(ImmJ(w), 10, 1, 2, 1024);
    DigitsJ(Unsigned(ImmJ(w)));
    SignedOf(ImmJ(w), 0x10_0000, 0x7ff);
  }

  /** The pipeline's immediate block yields the integer of the format of the opcode. */
  lemma BlockMeans(w: Word)
    ensures var imm := P.ImmediateExtensionBlock(w);
      match P.GetInstructionType(P.GetOpcode(w))
      case IType => Signed(imm) == IntegerI(w)
      case SType => Signed(imm) == IntegerS(w)
      case BType => Signed(imm) == IntegerB(w)
      case UType => Unsigned(imm) == IntegerU(w)
      case JType => Signed(imm) == IntegerJ(w)
      case RType | UNKNOWN => imm == 0
  {
    NoImmediate(w);
    hide Signed, Unsigned, IntegerI, IntegerS, IntegerB, IntegerU, IntegerJ, ImmI, ImmS, ImmB, ImmU, ImmJ,
         P.ImmediateExtensionBlock, P.GetInstructionType, P.GetOpcode;
    DecoderAgreement.ImmediatesAgree(w);
    ImmediateI(w);
    ImmediateS(w);
    ImmediateB(w);
    ImmediateU(w);
    ImmediateJ(w);
  }

  lemma NoImmediate(w: Word)
    ensures var t := P.GetInstructionType(P.GetOpcode(w));
      t == P.RType || t == P.UNKNOWN ==> P.ImmediateExtensionBlock(w) == 0
  {
    hide P.GetOpcode, P.GetInstructionType;
  }

  /** The getters of the interpreter yield these integers. */
  lemma GettersMean(w: Word)
    ensures Signed(F.TypeIImm(w)) == IntegerI(w) && Signed(F.TypeSImm(w)) == IntegerS(w)
    ensures Signed(F.TypeBImm(w)) == IntegerB(w) && Unsigned(F.TypeUImm(w)) == IntegerU(w)
    ensures Signed(F.TypeJImm(w)) == IntegerJ(w)
  {
    hide Signed, Unsigned, IntegerI, IntegerS, IntegerB, IntegerU, IntegerJ, ImmI, ImmS, ImmB, ImmU, ImmJ, F.TypeIImm,
         F.TypeSImm, F.TypeBImm, F.TypeUImm, F.TypeJImm;
    InterpreterAgreement.TypeIAgrees(w);
    InterpreterAgreement.TypeSAgrees(w);
    InterpreterAgreement.TypeBAgrees(w);
    InterpreterAgreement.TypeUAgrees(w);
    InterpreterAgreement.TypeJAgrees(w);
    ImmediateI(w);
    ImmediateS(w);
    ImmediateB(w);
    ImmediateU(w);
    ImmediateJ(w);
  }

  // ----- the integers that the immediates reach -----

  lemma Limits()
    ensures Unsigned(0x800) == 0x800 && Unsigned(0x1000) == 0x1000 && Unsigned(0x2000) == 0x2000
    ensures Unsigned(0x10_0000) == 0x10_0000 && Unsigned(0x20_0000) == 0x20_0000
  {
  }

  /** The range test of an adder and a comparator. */
  lemma WithinMeans(imm: Word, bound: Word, full: Word, half: int)
    requires 0 < half <= 0x4000_0000 && Unsigned(bound) == half && Unsigned(full) == 2 * half
    ensures Below(Add(imm, bound), full) <==> -half <= Signed(imm) < half
  {
    hide Unsigned, Below, Add;
    AddMeans(imm, bound);
    BelowMeans(Add(imm, bound), full);
  }

  lemma FitTests(imm: Word)
    ensures Fits12(imm) <==> Below(Add(imm, 0x800), 0x1000)
    ensures FitsBranch(imm) <==> imm & 1 == 0 && Below(Add(imm, 0x1000), 0x2000)
    ensures FitsJump(imm) <==> imm & 1 == 0 && Below(Add(imm, 0x10_0000), 0x20_0000)
  {
  }

  lemma UpperTest(imm: Word)
    ensures FitsUpper(imm) <==> Slice(imm, 20, 20) == 0
  {
    SliceIs(imm, 20, 20);
    assert imm & 0xfff == 0 <==> (imm << 20) >> 20 == 0;
    hide Slice;
  }

  lemma EvenMeans(imm: Word)
    ensures imm & 1 == 0 <==> Signed(imm) % 2 == 0
  {
    hide Unsigned;
    LowBitMeans(imm);
    Amounts();
    BelowMeans(imm & 1, 0);
  }

  /** The conditions on immediates in Encoding are these ranges of integers. */
  lemma FitsMean(imm: Word)
    ensures Fits12(imm) <==> -2048 <= Signed(imm) <= 2047
    ensures FitsBranch(imm) <==> Signed(imm) % 2 == 0 && -4096 <= Signed(imm) <= 4094
    ensures FitsJump(imm) <==> Signed(imm) % 2 == 0 && -0x10_0000 <= Signed(imm) <= 0xf_fffe
    ensures FitsUpper(imm) <==> Unsigned(imm) % 4096 == 0
  {
    hide Unsigned, Signed, Below, Add, Fits12, FitsBranch, FitsJump, FitsUpper, Pow2, Bits, Slice;
    Limits();
    FitTests(imm);
    EvenMeans(imm);
    WithinMeans(imm, 0x800, 0x1000, 0x800);
    WithinMeans(imm, 0x1000, 0x2000, 0x1000);
    WithinMeans(imm, 0x10_0000, 0x20_0000, 0x10_0000);
    UpperTest(imm);
    Amounts();
    Pow2Values();
    SliceMeans(imm, 20, 20, 11, 0);
    BitsAre(imm, 11, 0, 1, 0x1000);
    BelowMeans(Slice(imm, 20, 20), 0);
  }

  /** Every number below 2^32 is the value of a word. */
  lemma {:induction false} WordOf(v: int) returns (w: Word)
    requires 0 <= v < 0x1_0000_0000
    ensures Unsigned(w) == v
    decreases v
  {
    hide Unsigned;
    ZeroMeans();
    if v == 0 {
      w := 0;
    } else {
      w := WordOf(v - 1);
      NextMeans(w);
      w := w + 1;
    }
  }

  lemma SignedWordOf(v: int) returns (w: Word)
    requires -0x8000_0000 <= v < 0x8000_0000
    ensures Signed(w) == v
  {
    hide Unsigned;
    w := WordOf(if v < 0 then v + 0x1_0000_0000 else v);
  }

  /** Branches reach exactly the even offsets from -4096 to 4094. */
  lemma BranchOffsets(v: int)
    ensures (exists w: Word :: Opcode(w) == 0x63 && Signed(ImmB(w)) == v) <==> v % 2 == 0 && -4096 <= v <= 4094
  {
    hide Signed, ImmI, ImmS, ImmB, ImmU, ImmJ, Opcode, BWord, Fits12, FitsBranch, FitsUpper, FitsJump;
    if v % 2 == 0 && -4096 <= v <= 4094 {
      var imm := SignedWordOf(v);
      FitsMean(imm);
      BFields(imm, 0, 0, 0, 0x63);
      assert Signed(ImmB(BWord(imm, 0, 0, 0, 0x63))) == v;
    }
    if w: Word :| Opcode(w) == 0x63 && Signed(ImmB(w)) == v {
      ImmediatesInRange(w);
      FitsMean(ImmB(w));
    }
  }

  /** JAL reaches exactly the even offsets from -2^20 to 2^20 - 2. */
  lemma JumpOffsets(v: int)
    ensures (exists w: Word :: Opcode(w) == 0x6f && Signed(ImmJ(w)) == v) <==> v % 2 == 0 && -0x10_0000 <= v <= 0xf_fffe
  {
    hide Signed, ImmI, ImmS, ImmB, ImmU, ImmJ, Opcode, JWord, Fits12, FitsBranch, FitsUpper, FitsJump;
    if v % 2 == 0 && -0x10_0000 <= v <= 0xf_fffe {
      var imm := SignedWordOf(v);
      FitsMean(imm);
      JFields(imm, 0, 0x6f);
      assert Signed(ImmJ(JWord(imm, 0, 0x6f))) == v;
    }
    if w: Word :| Opcode(w) == 0x6f && Signed(ImmJ(w)) == v {
      ImmediatesInRange(w);
      FitsMean(ImmJ(w));
    }
  }

  /** I- and S-type immediates reach exactly the numbers from -2048 to 2047. */
  lemma ShortImmediates(v: int)
    ensures (exists w: Word :: Opcode(w) == 0x13 && Signed(ImmI(w)) == v) <==> -2048 <= v <= 2047
    ensures (exists w: Word :: Opcode(w) == 0x23 && Signed(ImmS(w)) == v) <==> -2048 <= v <= 2047
  {
    hide Signed, ImmI, ImmS, ImmB, ImmU, ImmJ, Opcode, IWord, SWord, Fits12, FitsBranch, FitsUpper, FitsJump, Funct7;
    if -2048 <= v <= 2047 {
      var imm := SignedWordOf(v);
      FitsMean(imm);
      IFields(imm, 0, 0, 0, 0x13);
      assert Signed(ImmI(IWord(imm, 0, 0, 0, 0x13))) == v;
      SFields(imm, 0, 0, 0, 0x23);
      assert Signed(ImmS(SWord(imm, 0, 0, 0, 0x23))) == v;
    }
    if w: Word :| Opcode(w) == 0x13 && Signed(ImmI(w)) == v {
      ImmediatesInRange(w);
      FitsMean(ImmI(w));
    }
    if w: Word :| Opcode(w) == 0x23 && Signed(ImmS(w)) == v {
      ImmediatesInRange(w);
      FitsMean(ImmS(w));
    }
  }
}
