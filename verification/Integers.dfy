/** The integers that machine words stand for: positional values of the bytes, and two's complement. */
module Integers {
  import opened Words
  import opened Memory

  // ----- the bytes of a word, lowest first -----

  function Byte0(w: Word): bv8 { (w & 0xff) as bv8 }

  function Byte1(w: Word): bv8 { ((w >> 8) & 0xff) as bv8 }

  function Byte2(w: Word): bv8 { ((w >> 16) & 0xff) as bv8 }

  function Byte3(w: Word): bv8 { ((w >> 24) & 0xff) as bv8 }

  // ----- unsigned and signed values -----

  function Unsigned8(b: bv8): (n: nat)
    ensures n < 0x100
  {
    b as nat
  }

  function Unsigned16(h: bv16): (n: nat)
    ensures n < 0x1_0000
  {
    Unsigned8(LowByte(h)) + 0x100 * Unsigned8(HighByte(h))
  }

  function Unsigned(w: Word): (n: nat)
    ensures n < 0x1_0000_0000
  {
    Unsigned8(Byte0(w)) + 0x100 * Unsigned8(Byte1(w)) + 0x1_0000 * Unsigned8(Byte2(w)) +
      0x100_0000 * Unsigned8(Byte3(w))
  }

  /** The number that n stands for when its highest bit has the weight -half instead of half. */
  function TwosComplement(n: int, half: int): (r: int)
    requires 0 <= n < 2 * half
    ensures -half <= r < half
  {
    if n < half then n else n - 2 * half
  }

  function Signed8(b: bv8): int {
    TwosComplement(Unsigned8(b), 0x80)
  }

  function Signed16(h: bv16): int {
    TwosComplement(Unsigned16(h), 0x8000)
  }

  function Signed(w: Word): int {
    TwosComplement(Unsigned(w), 0x8000_0000)
  }

  // ----- comparisons -----

  lemma Compare8(a: bv8, b: bv8)
    ensures a < b <==> Unsigned8(a) < Unsigned8(b)
    ensures a == b <==> Unsigned8(a) == Unsigned8(b)
  {
  }

  lemma CompareTop(a: Word, b: Word)
    ensures a < b <==> a >> 24 < b >> 24 || (a >> 24 == b >> 24 && a & 0xff_ffff < b & 0xff_ffff)
  {
  }

  lemma CompareThree(a: Word, b: Word)
    ensures a & 0xff_ffff < b & 0xff_ffff <==>
      (a >> 16) & 0xff < (b >> 16) & 0xff || ((a >> 16) & 0xff == (b >> 16) & 0xff && a & 0xffff < b & 0xffff)
  {
  }

  lemma CompareTwo(a: Word, b: Word)
    ensures a & 0xffff < b & 0xffff <==>
      (a >> 8) & 0xff < (b >> 8) & 0xff || ((a >> 8) & 0xff == (b >> 8) & 0xff && a & 0xff < b & 0xff)
  {
  }

  lemma CompareBytes(a: Word, b: Word)
    ensures a >> 24 < b >> 24 <==> Byte3(a) < Byte3(b)
    ensures (a >> 16) & 0xff < (b >> 16) & 0xff <==> Byte2(a) < Byte2(b)
    ensures (a >> 8) & 0xff < (b >> 8) & 0xff <==> Byte1(a) < Byte1(b)
    ensures a & 0xff < b & 0xff <==> Byte0(a) < Byte0(b)
  {
  }

  lemma EqualBytes(a: Word, b: Word)
    ensures a >> 24 == b >> 24 <==> Byte3(a) == Byte3(b)
    ensures (a >> 16) & 0xff == (b >> 16) & 0xff <==> Byte2(a) == Byte2(b)
    ensures (a >> 8) & 0xff == (b >> 8) & 0xff <==> Byte1(a) == Byte1(b)
    ensures a & 0xff == b & 0xff <==> Byte0(a) == Byte0(b)
    ensures a == b <==> Byte3(a) == Byte3(b) && Byte2(a) == Byte2(b) && Byte1(a) == Byte1(b) && Byte0(a) == Byte0(b)
  {
  }

  /** Words are ordered by their bytes, the highest first. */
  lemma BelowByBytes(a: Word, b: Word)
    ensures Below(a, b) <==>
      Byte3(a) < Byte3(b) || (Byte3(a) == Byte3(b) && (Byte2(a) < Byte2(b) || (Byte2(a) == Byte2(b) &&
      (Byte1(a) < Byte1(b) || (Byte1(a) == Byte1(b) && Byte0(a) < Byte0(b))))))
  {
    hide Byte0, Byte1, Byte2, Byte3;
    CompareTop(a, b);
    CompareThree(a, b);
    CompareTwo(a, b);
    CompareBytes(a, b);
    EqualBytes(a, b);
  }

  /** Unsigned comparison compares the unsigned values. */
  lemma BelowMeans(a: Word, b: Word)
    ensures Below(a, b) <==> Unsigned(a) < Unsigned(b)
    ensures a == b <==> Unsigned(a) == Unsigned(b)
  {
    hide Byte0, Byte1, Byte2, Byte3, Below, Unsigned8;
    BelowByBytes(a, b);
    EqualBytes(a, b);
    Compare8(Byte0(a), Byte0(b));
    Compare8(Byte1(a), Byte1(b));
    Compare8(Byte2(a), Byte2(b));
    Compare8(Byte3(a), Byte3(b));
  }

  /** The sign bit. */
  predicate Negative(w: Word) {
    w & 0x8000_0000 != 0
  }

  lemma HalfWay()
    ensures Unsigned(0x8000_0000) == 0x8000_0000
  {
  }

  lemma SignBit(w: Word)
    ensures Negative(w) <==> !Below(w, 0x8000_0000)
  {
  }

  /** The sign bit tells negative numbers. */
  lemma NegativeMeans(w: Word)
    ensures Negative(w) <==> Signed(w) < 0
    ensures Signed(w) == if Negative(w) then Unsigned(w) - 0x1_0000_0000 else Unsigned(w)
  {
    hide Negative, Below, Unsigned;
    SignBit(w);
    HalfWay();
    BelowMeans(w, 0x8000_0000);
  }

  lemma SignedLessBySign(a: Word, b: Word)
    ensures SignedLess(a, b) <==> if Negative(a) == Negative(b) then Below(a, b) else Negative(a)
  {
    SignBits(a, b);
  }

  lemma SignBits(a: Word, b: Word)
    ensures a & 0x8000_0000 == b & 0x8000_0000 <==> Negative(a) == Negative(b)
  {
  }

  /** Signed comparison compares the signed values. */
  lemma SignedLessMeans(a: Word, b: Word)
    ensures SignedLess(a, b) <==> Signed(a) < Signed(b)
  {
    hide Negative, Below, Unsigned, SignedLess, Signed;
    SignedLessBySign(a, b);
    BelowMeans(a, b);
    NegativeMeans(a);
    NegativeMeans(b);
  }

  // ----- addition, by counting up -----

  lemma Next8(b: bv8)
    ensures Unsigned8(b + 1) == if b == 0xff then 0 else Unsigned8(b) + 1
    ensures Unsigned8(b) == 0xff <==> b == 0xff
  {
  }

  lemma NextBytes(w: Word)
    ensures Byte0(w + 1) == Byte0(w) + 1
    ensures Byte1(w + 1) == if Byte0(w) == 0xff then Byte1(w) + 1 else Byte1(w)
    ensures Byte2(w + 1) == if Byte0(w) == 0xff && Byte1(w) == 0xff then Byte2(w) + 1 else Byte2(w)
    ensures Byte3(w + 1) == if Byte0(w) == 0xff && Byte1(w) == 0xff && Byte2(w) == 0xff then Byte3(w) + 1 else Byte3(w)
  {
  }

  lemma NextMeans(w: Word)
    ensures Unsigned(w + 1) == if Unsigned(w) == 0xffff_ffff then 0 else Unsigned(w) + 1
  {
    hide Byte0, Byte1, Byte2, Byte3, Unsigned8;
    NextBytes(w);
    Next8(Byte0(w));
    Next8(Byte1(w));
    Next8(Byte2(w));
    Next8(Byte3(w));
  }

  lemma ZeroMeans()
    ensures Unsigned(0) == 0 && Unsigned(1) == 1 && Unsigned(0xffff_ffff) == 0xffff_ffff
  {
  }

  lemma Previous(w: Word)
    requires w != 0
    ensures Unsigned(w) > 0 && Unsigned(w - 1) == Unsigned(w) - 1
  {
    hide Unsigned;
    ZeroMeans();
    NextMeans(w - 1);
    BelowMeans(w, 0);
  }

  lemma Shuffle(a: Word, b: Word)
    ensures Add(a + 1, b - 1) == Add(a, b) && Add(a, 0) == a
  {
  }

  /** Addition wraps at 2^32. */
  lemma {:induction false} AddMeans(a: Word, b: Word)
    ensures Unsigned(Add(a, b)) == (Unsigned(a) + Unsigned(b)) % 0x1_0000_0000
    decreases Unsigned(b)
  {
    hide Unsigned, Add;
    ZeroMeans();
    Shuffle(a, b);
    if b != 0 {
      Previous(b);
      NextMeans(a);
      AddMeans(a + 1, b - 1);
    }
  }

  lemma SubUndoes(a: Word, b: Word)
    ensures Add(a - b, b) == a && Sub(a, b) == a - b
  {
  }

  lemma SubMeans(a: Word, b: Word)
    ensures Unsigned(Sub(a, b)) == (Unsigned(a) - Unsigned(b)) % 0x1_0000_0000
  {
    hide Unsigned, Add, Sub;
    SubUndoes(a, b);
    AddMeans(a - b, b);
  }

  // ----- shifts -----

  function Pow2(n: nat): (p: nat)
    ensures p > 0
  {
    if n == 0 then 1 else 2 * Pow2(n - 1)
  }

  lemma ComplementSum(w: Word)
    ensures Add(!w, w) == 0xffff_ffff
  {
  }

  lemma ComplementMeans(w: Word)
    ensures Unsigned(!w) == 0xffff_ffff - Unsigned(w) && Signed(!w) == -1 - Signed(w)
  {
    hide Unsigned, Add;
    ComplementSum(w);
    ZeroMeans();
    AddMeans(!w, w);
  }

  lemma HalfSum(w: Word)
    ensures w == Add(Add(w >> 1, w >> 1), w & 1) && (w & 1 == 0 || w & 1 == 1) && w >> 1 < 0x8000_0000
  {
  }

  lemma DoubleSum(w: Word)
    ensures w << 1 == Add(w, w)
  {
  }

  lemma HalfMeans(w: Word)
    ensures Unsigned(w >> 1) == Unsigned(w) / 2
  {
    hide Unsigned, Add;
    ZeroMeans();
    HalfSum(w);
    AddMeans(w >> 1, w >> 1);
    AddMeans(Add(w >> 1, w >> 1), w & 1);
    HalfWay();
    BelowMeans(w >> 1, 0x8000_0000);
  }

  lemma OrderTimes(d: int, a: int)
    requires d > 0
    ensures (a >= 1 ==> d * a >= d) && (a <= -1 ==> d * a <= 0 - d)
  {
    if a >= 1 {
      assert d * (a - 1) >= 0;
    } else if a <= -1 {
      assert d * (0 - a - 1) >= 0;
    }
  }

  lemma Division(x: int, d: int) returns (t: int, r: int)
    requires d > 0
    ensures x == d * t + r && 0 <= r < d && t == x / d && r == x % d
  {
    t, r := x / d, x % d;
  }

  lemma Quotient(x: int, d: int, q: int, r: int)
    requires d > 0 && x == d * q + r && 0 <= r < d
    ensures x / d == q && x % d == r
  {
    var t, u := Division(x, d);
    assert d * (t - q) == r - u;
    OrderTimes(d, t - q);
  }

  lemma DivideTwice(x: int, p: int)
    requires p > 0
    ensures (x / 2) / p == x / (2 * p)
  {
    var y, b := Division(x, 2);
    var q, r := Division(y, p);
    assert 2 * (p * q) == (2 * p) * q;
    Quotient(x, 2 * p, q, 2 * r + b);
  }

  lemma RightOnce(a: Word, n: Word)
    requires 0 < n < 32
    ensures n - 1 < 32 && ShiftRight(a, n) == ShiftRight(a >> 1, n - 1)
  {
  }

  lemma LeftOnce(a: Word, n: Word)
    requires 0 < n < 32
    ensures n - 1 < 32 && ShiftLeft(a, n) == ShiftLeft(a << 1, n - 1)
  {
  }

  /** One place less to shift, of half the number or of its double. */
  lemma OnePlace(a: Word, n: Word) returns (half: Word, double: Word, m: Word)
    requires 0 < n < 32
    ensures m < 32 && Unsigned(m) == Unsigned(n) - 1 >= 0
    ensures ShiftRight(a, n) == ShiftRight(half, m) && Unsigned(half) == Unsigned(a) / 2
    ensures ShiftLeft(a, n) == ShiftLeft(double, m) && Unsigned(double) == (2 * Unsigned(a)) % 0x1_0000_0000
  {
    hide Unsigned, Add, ShiftRight, ShiftLeft;
    half, double, m := a >> 1, a << 1, n - 1;
    Previous(n);
    RightOnce(a, n);
    LeftOnce(a, n);
    HalfMeans(a);
    DoubleSum(a);
    AddMeans(a, a);
  }

  lemma NoPlace(a: Word)
    ensures ShiftRight(a, 0) == a && ShiftLeft(a, 0) == a
  {
  }

  /** A logical right shift divides. */
  lemma {:induction false} ShiftRightMeans(a: Word, n: Word)
    requires n < 32
    ensures Unsigned(ShiftRight(a, n)) == Unsigned(a) / Pow2(Unsigned(n))
    decreases Unsigned(n)
  {
    hide Unsigned, ShiftRight, ShiftLeft;
    ZeroMeans();
    if n == 0 {
      NoPlace(a);
    } else {
      var half, _, m := OnePlace(a, n);
      ShiftRightMeans(half, m);
      DivideTwice(Unsigned(a), Pow2(Unsigned(m)));
    }
  }

  /** A left shift multiplies, modulo 2^32. */
  lemma {:induction false} ShiftLeftMeans(a: Word, n: Word)
    requires n < 32
    ensures Unsigned(ShiftLeft(a, n)) == (Unsigned(a) * Pow2(Unsigned(n))) % 0x1_0000_0000
    decreases Unsigned(n)
  {
    hide Unsigned, ShiftRight, ShiftLeft;
    ZeroMeans();
    if n == 0 {
      NoPlace(a);
      Quotient(Unsigned(a), 0x1_0000_0000, 0, Unsigned(a));
    } else {
      var _, double, m := OnePlace(a, n);
      ShiftLeftMeans(double, m);
      DoubleModulo(Unsigned(a), Pow2(Unsigned(m)));
    }
  }

  lemma DoubleModulo(x: int, p: int)
    ensures ((2 * x) % 0x1_0000_0000 * p) % 0x1_0000_0000 == (x * (2 * p)) % 0x1_0000_0000
  {
    TimesModulo(2 * x, p);
    assert (2 * x) * p == x * (2 * p);
  }

  lemma TimesModulo(x: int, p: int)
    ensures ((x % 0x1_0000_0000) * p) % 0x1_0000_0000 == (x * p) % 0x1_0000_0000
  {
    var m := 0x1_0000_0000;
    var t, r := Division(x, m);
    var u, v := Division(r * p, m);
    assert x * p == m * (t * p + u) + v;
    Quotient(x * p, m, t * p + u, v);
  }

  lemma ArithmeticShift(a: Word, n: Word)
    requires n < 32
    ensures ShiftRightArithmetic(a, n) == if Negative(a) then !ShiftRight(!a, n) else ShiftRight(a, n)
  {
    hide ShiftRight;
  }

  lemma NegativeDivision(x: int, p: int)
    requires p > 0
    ensures -1 - ((-1 - x) / p) == x / p
  {
    var q, r := Division(-1 - x, p);
    assert x == p * (-1 - q) + (p - 1 - r);
    Quotient(x, p, -1 - q, p - 1 - r);
  }

  /** An arithmetic right shift divides the signed value and rounds down. */
  lemma ShiftRightArithmeticMeans(a: Word, n: Word)
    requires n < 32
    ensures Signed(ShiftRightArithmetic(a, n)) == Signed(a) / Pow2(Unsigned(n))
  {
    hide Unsigned, Signed, ShiftRightArithmetic, ShiftRight, Negative, Pow2;
    ArithmeticShift(a, n);
    NegativeMeans(a);
    SmallIsSigned(a);
    if Negative(a) {
      ComplementMeans(a);
      ComplementMeans(ShiftRight(!a, n));
      ShiftRightMeans(!a, n);
      SmallQuotient(-1 - Signed(a), Pow2(Unsigned(n)));
      SmallIsSigned(!a);
      SmallIsSigned(ShiftRight(!a, n));
      NegativeDivision(Signed(a), Pow2(Unsigned(n)));
    } else {
      ShiftRightMeans(a, n);
      SmallQuotient(Signed(a), Pow2(Unsigned(n)));
      SmallIsSigned(ShiftRight(a, n));
    }
  }

  lemma QuotientBounds(x: int, p: int, q: int, r: int)
    requires x >= 0 && p > 0 && x == p * q + r && 0 <= r < p
    ensures 0 <= q <= x
  {
    OrderTimes(p, q);
    if q >= 1 {
      NotNegative(p - 1, q);
      assert (p - 1) * q == p * q - q;
    }
  }

  lemma NotNegative(a: int, b: int)
    requires a >= 0 && b >= 0
    ensures a * b >= 0
  {
  }

  lemma SmallQuotient(x: int, p: int)
    requires x >= 0 && p > 0
    ensures 0 <= x / p <= x
  {
    var q, r := Division(x, p);
    QuotientBounds(x, p, q, r);
  }

  lemma SmallIsSigned(w: Word)
    ensures -0x8000_0000 <= Signed(w) < 0x8000_0000
    ensures Unsigned(w) < 0x8000_0000 ==> Signed(w) == Unsigned(w)
    ensures Signed(w) >= 0 ==> Signed(w) == Unsigned(w)
  {
  }

  // ----- bits and masks -----

  lemma LowParts(w: Word)
    ensures w == Add(ShiftLeft(ShiftRight(w, 5), 5), w & 0x1f) && w & 0x1f < 32 && ShiftRight(w, 1) == w >> 1
  {
  }

  lemma FiveMeans()
    ensures Unsigned(5) == 5 && Unsigned(32) == 32 && Pow2(5) == 32
  {
    assert Pow2(3) == 8;
  }

  lemma LowBitMeans(w: Word)
    ensures Unsigned(w & 1) == Unsigned(w) % 2
  {
    hide Unsigned, Add;
    ZeroMeans();
    HalfSum(w);
    HalfMeans(w);
    AddMeans(w >> 1, w >> 1);
    AddMeans(Add(w >> 1, w >> 1), w & 1);
  }

  lemma LowFiveMean(w: Word)
    ensures Unsigned(w & 0x1f) == Unsigned(w) % 32
  {
    hide Unsigned, Add, ShiftLeft, ShiftRight;
    FiveMeans();
    LowParts(w);
    ShiftRightMeans(w, 5);
    ShiftLeftMeans(ShiftRight(w, 5), 5);
    AddMeans(ShiftLeft(ShiftRight(w, 5), 5), w & 0x1f);
    BelowMeans(w & 0x1f, 32);
  }

  lemma WithoutBitZero(a: Word)
    ensures Add(ClearBitZero(a), a & 1) == a && !Below(a, ClearBitZero(a))
  {
  }

  /** A jump target loses its lowest bit and nothing else. */
  lemma ClearBitZeroMeans(a: Word)
    ensures Unsigned(ClearBitZero(a)) == Unsigned(a) - Unsigned(a) % 2
  {
    hide Unsigned, Add, ClearBitZero, Below;
    WithoutBitZero(a);
    LowBitMeans(a);
    AddMeans(ClearBitZero(a), a & 1);
    BelowMeans(a, ClearBitZero(a));
  }

  lemma AlignedStays(a: Word)
    ensures Aligned(a) ==> ClearBitZero(a) == a
  {
  }

  lemma AlignedBits(a: Word)
    ensures Aligned(a) <==> a & 1 == 0 && (a >> 1) & 1 == 0
  {
  }

  lemma LowBitIs(a: Word)
    ensures a & 1 == 0 <==> Unsigned(a) % 2 == 0
  {
    hide Unsigned;
    ZeroMeans();
    LowBitMeans(a);
    BelowMeans(a & 1, 0);
  }

  /** Aligned addresses are the multiples of four. */
  lemma AlignedMeans(a: Word)
    ensures Aligned(a) <==> Unsigned(a) % 4 == 0
  {
    hide Unsigned, Aligned;
    AlignedBits(a);
    LowBitIs(a);
    LowBitIs(a >> 1);
    HalfMeans(a);
  }

  /** Adding a word is adding its signed integer, modulo 2^32. */
  lemma AddSignedMeans(a: Word, b: Word)
    ensures Unsigned(Add(a, b)) == (Unsigned(a) + Signed(b)) % 0x1_0000_0000
  {
    hide Unsigned, Add;
    AddMeans(a, b);
    if Unsigned(b) >= 0x8000_0000 {
      var t, r := Division(Unsigned(a) + Unsigned(b), 0x1_0000_0000);
      Quotient(Unsigned(a) + Unsigned(b) - 0x1_0000_0000, 0x1_0000_0000, t - 1, r);
    }
  }

  /** Bit number n of the binary notation. */
  predicate Bit(w: Word, n: Word) {
    (Unsigned(w) / Pow2(Unsigned(n))) % 2 == 1
  }

  lemma BitMeans(w: Word, n: Word)
    requires n < 32
    ensures Bit(w, n) <==> ShiftRight(w, n) & 1 == 1
  {
    hide Unsigned, ShiftRight;
    ShiftRightMeans(w, n);
    LowBitMeans(ShiftRight(w, n));
    ZeroMeans();
    BelowMeans(ShiftRight(w, n) & 1, 1);
  }

  lemma AndIs(a: Word, b: Word)
    ensures And(a, b) == a & b
  {
  }

  lemma AndShiftOnce(a: Word, b: Word)
    ensures (a & b) >> 1 == (a >> 1) & (b >> 1)
  {
  }

  lemma {:induction false} AndShift(a: Word, b: Word, n: Word)
    requires n < 32
    ensures ShiftRight(And(a, b), n) == And(ShiftRight(a, n), ShiftRight(b, n))
    decreases Unsigned(n)
  {
    hide Unsigned, ShiftRight, And;
    if n == 0 {
      NoPlace(And(a, b));
      NoPlace(a);
      NoPlace(b);
    } else {
      Previous(n);
      RightOnce(And(a, b), n);
      RightOnce(a, n);
      RightOnce(b, n);
      AndIs(a, b);
      AndShiftOnce(a, b);
      AndIs(a >> 1, b >> 1);
      AndShift(a >> 1, b >> 1, n - 1);
    }
  }

  lemma OrIs(a: Word, b: Word)
    ensures Or(a, b) == a | b
  {
  }

  lemma OrShiftOnce(a: Word, b: Word)
    ensures (a | b) >> 1 == (a >> 1) | (b >> 1)
  {
  }

  lemma {:induction false} OrShift(a: Word, b: Word, n: Word)
    requires n < 32
    ensures ShiftRight(Or(a, b), n) == Or(ShiftRight(a, n), ShiftRight(b, n))
    decreases Unsigned(n)
  {
    hide Unsigned, ShiftRight, Or;
    if n == 0 {
      NoPlace(Or(a, b));
      NoPlace(a);
      NoPlace(b);
    } else {
      Previous(n);
      RightOnce(Or(a, b), n);
      RightOnce(a, n);
      RightOnce(b, n);
      OrIs(a, b);
      OrShiftOnce(a, b);
      OrIs(a >> 1, b >> 1);
      OrShift(a >> 1, b >> 1, n - 1);
    }
  }

  lemma XorIs(a: Word, b: Word)
    ensures Xor(a, b) == a ^ b
  {
  }

  lemma XorShiftOnce(a: Word, b: Word)
    ensures (a ^ b) >> 1 == (a >> 1) ^ (b >> 1)
  {
  }

  lemma {:induction false} XorShift(a: Word, b: Word, n: Word)
    requires n < 32
    ensures ShiftRight(Xor(a, b), n) == Xor(ShiftRight(a, n), ShiftRight(b, n))
    decreases Unsigned(n)
  {
    hide Unsigned, ShiftRight, Xor;
    if n == 0 {
      NoPlace(Xor(a, b));
      NoPlace(a);
      NoPlace(b);
    } else {
      Previous(n);
      RightOnce(Xor(a, b), n);
      RightOnce(a, n);
      RightOnce(b, n);
      XorIs(a, b);
      XorShiftOnce(a, b);
      XorIs(a >> 1, b >> 1);
      XorShift(a >> 1, b >> 1, n - 1);
    }
  }

  lemma LowBits(x: Word, y: Word)
    ensures And(x, y) & 1 == 1 <==> x & 1 == 1 && y & 1 == 1
    ensures Or(x, y) & 1 == 1 <==> x & 1 == 1 || y & 1 == 1
    ensures Xor(x, y) & 1 == 1 <==> (x & 1 == 1) != (y & 1 == 1)
  {
  }

  /** The bitwise operations work on every bit of the binary notation. */
  lemma BitwiseMeans(a: Word, b: Word, n: Word)
    requires n < 32
    ensures Bit(And(a, b), n) <==> Bit(a, n) && Bit(b, n)
    ensures Bit(Or(a, b), n) <==> Bit(a, n) || Bit(b, n)
    ensures Bit(Xor(a, b), n) <==> Bit(a, n) != Bit(b, n)
  {
    hide Bit, And, Or, Xor, ShiftRight;
    BitMeans(a, n);
    BitMeans(b, n);
    BitMeans(And(a, b), n);
    BitMeans(Or(a, b), n);
    BitMeans(Xor(a, b), n);
    AndShift(a, b, n);
    OrShift(a, b, n);
    XorShift(a, b, n);
    LowBits(ShiftRight(a, n), ShiftRight(b, n));
  }

  // ----- words put together from bytes, and extended bytes and half-words -----

  lemma JoinedBytes(low: bv8, high: bv8)
    ensures LowByte(JoinBytes(low, high)) == low && HighByte(JoinBytes(low, high)) == high
  {
  }

  lemma JoinBytesMeans(low: bv8, high: bv8)
    ensures Unsigned16(JoinBytes(low, high)) == Unsigned8(low) + 0x100 * Unsigned8(high)
  {
    hide LowByte, HighByte, JoinBytes, Unsigned8;
    JoinedBytes(low, high);
  }

  lemma JoinedHalves(low: bv16, high: bv16)
    ensures Byte0(JoinHalves(low, high)) == LowByte(low) && Byte1(JoinHalves(low, high)) == HighByte(low)
    ensures Byte2(JoinHalves(low, high)) == LowByte(high) && Byte3(JoinHalves(low, high)) == HighByte(high)
  {
  }

  lemma JoinHalvesMeans(low: bv16, high: bv16)
    ensures Unsigned(JoinHalves(low, high)) == Unsigned16(low) + 0x1_0000 * Unsigned16(high)
  {
    hide LowByte, HighByte, JoinHalves, Unsigned8, Byte0, Byte1, Byte2, Byte3;
    JoinedHalves(low, high);
  }

  lemma ZeroExtendedBytes(b: bv8, h: bv16)
    ensures Byte0(ZeroExtend8(b)) == b && Byte1(ZeroExtend8(b)) == 0 && Byte2(ZeroExtend8(b)) == 0 &&
      Byte3(ZeroExtend8(b)) == 0
    ensures Byte0(ZeroExtend16(h)) == LowByte(h) && Byte1(ZeroExtend16(h)) == HighByte(h)
    ensures Byte2(ZeroExtend16(h)) == 0 && Byte3(ZeroExtend16(h)) == 0
  {
  }

  lemma ExtremeBytes()
    ensures Unsigned8(0) == 0 && Unsigned8(0xff) == 0xff && Unsigned8(0x80) == 0x80
  {
  }

  lemma ZeroExtendMeans(b: bv8, h: bv16)
    ensures Unsigned(ZeroExtend8(b)) == Unsigned8(b) && Unsigned(ZeroExtend16(h)) == Unsigned16(h)
  {
    hide LowByte, HighByte, ZeroExtend8, ZeroExtend16, Unsigned8, Byte0, Byte1, Byte2, Byte3;
    ExtremeBytes();
    ZeroExtendedBytes(b, h);
  }

  lemma SignExtendedByte(b: bv8)
    ensures var fill := if b < 0x80 then 0 else 0xff; var w := SignExtendFromByte(b);
      Byte0(w) == b && Byte1(w) == fill && Byte2(w) == fill && Byte3(w) == fill
  {
  }

  lemma SignExtendedHalf(h: bv16)
    ensures var fill := if HighByte(h) < 0x80 then 0 else 0xff; var w := SignExtendFromByte2(h);
      Byte0(w) == LowByte(h) && Byte1(w) == HighByte(h) && Byte2(w) == fill && Byte3(w) == fill
  {
  }

  lemma SignExtendByteMeans(b: bv8)
    ensures Signed(SignExtendFromByte(b)) == Signed8(b)
  {
    hide SignExtendFromByte, Unsigned8, Byte0, Byte1, Byte2, Byte3;
    ExtremeBytes();
    Compare8(b, 0x80);
    SignExtendedByte(b);
  }

  lemma SignExtendHalfMeans(h: bv16)
    ensures Signed(SignExtendFromByte2(h)) == Signed16(h)
  {
    hide SignExtendFromByte2, Unsigned8, LowByte, HighByte, Byte0, Byte1, Byte2, Byte3;
    ExtremeBytes();
    Compare8(HighByte(h), 0x80);
    SignExtendedHalf(h);
  }
}
