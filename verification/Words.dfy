/** Machine words and the two's-complement operations that C++ performs through
    `static_cast<int32_t>`. */
module Words {
  type Word = bv32
  type RegIdx = bv5

  datatype Option<+T> = None | Some(value: T)

  /** `static_cast<int32_t>(a) < static_cast<int32_t>(b)` */
  predicate SignedLess(a: Word, b: Word) {
    if (a & 0x8000_0000) != (b & 0x8000_0000) then a & 0x8000_0000 != 0 else a < b
  }

  /** `static_cast<int32_t>(a) >> n`, an arithmetic shift, for 0 <= n < 32 */
  function ShiftRightArithmetic(a: Word, n: Word): Word
    requires n < 32
  {
    if a & 0x8000_0000 != 0 then !ShiftRight(!a, n) else ShiftRight(a, n)
  }

  function ShiftLeft(a: Word, n: Word): Word
    requires n < 32
  {
    a << n
  }

  function ShiftRight(a: Word, n: Word): Word
    requires n < 32
  {
    a >> n
  }

  /** A 4-byte aligned address: `a % sizeof(uint32_t) == 0` */
  predicate Aligned(a: Word) {
    a & 3 == 0
  }

  /** The adder of models/pipeline/modules/gates.h; sums wrap at 32 bits. */
  function Add(lhs: Word, rhs: Word): Word {
    lhs + rhs
  }

  /** `static_cast<uint32_t>` of an unsigned char or short */
  function ZeroExtend8(b: bv8): Word {
    b as Word
  }

  function ZeroExtend16(h: bv16): Word {
    h as Word
  }

  function Sub(lhs: Word, rhs: Word): Word {
    lhs - rhs
  }

  function And(lhs: Word, rhs: Word): Word {
    lhs & rhs
  }

  function Or(lhs: Word, rhs: Word): Word {
    lhs | rhs
  }

  function Xor(lhs: Word, rhs: Word): Word {
    lhs ^ rhs
  }

  /** Unsigned comparison. */
  predicate Below(lhs: Word, rhs: Word) {
    lhs < rhs
  }

  /** A jump target with bit 0 cleared. */
  function ClearBitZero(a: Word): Word {
    a & 0xffff_fffe
  }

  lemma AddFourDiffers(a: Word)
    ensures Add(a, 4) != a
  {
  }

  lemma AlignedNext(a: Word)
    requires Aligned(a)
    ensures Aligned(Add(a, 4))
  {
  }
}
