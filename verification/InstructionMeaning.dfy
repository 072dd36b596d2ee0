/** The reference semantics in integers: what section 2 of the RISC-V manual, Volume I, says about operands,
    results, memory and immediates, in terms of the numbers that the words stand for. */
module InstructionMeaning {
  import opened Words
  import opened Memory
  import opened Integers
  import opened InstructionSet
  import opened MemoryCoherence
  import DecoderAgreement
  import InterpreterAgreement
  import Interpreter
  import Alu

  // ----- section 2.4: computation -----

  /** r is the result of the operation. Sums and left shifts are modulo 2^32, shifts use the low five bits of
      b, arithmetic shifts round down, and the logical operations work bit by bit. */
  ghost predicate ArithIs(op: ArithOp, a: Word, b: Word, r: Word) {
    match op
    case ADD => Unsigned(r) == (Unsigned(a) + Unsigned(b)) % 0x1_0000_0000
    case SUB => Unsigned(r) == (Unsigned(a) - Unsigned(b)) % 0x1_0000_0000
    case SLL => Unsigned(r) == (Unsigned(a) * Pow2(Unsigned(b) % 32)) % 0x1_0000_0000
    case SLT => Unsigned(r) == if Signed(a) < Signed(b) then 1 else 0
    case SLTU => Unsigned(r) == if Unsigned(a) < Unsigned(b) then 1 else 0
    case SRL => Unsigned(r) == Unsigned(a) / Pow2(Unsigned(b) % 32)
    case SRA => Signed(r) == Signed(a) / Pow2(Unsigned(b) % 32)
    case XOR => forall n: Word :: n < 32 ==> (Bit(r, n) <==> Bit(a, n) != Bit(b, n))
    case OR => forall n: Word :: n < 32 ==> (Bit(r, n) <==> Bit(a, n) || Bit(b, n))
    case AND => forall n: Word :: n < 32 ==> (Bit(r, n) <==> Bit(a, n) && Bit(b, n))
  }

  lemma LowFiveIsSmall(b: Word)
    ensures b & 0x1f < 32
  {
  }

  lemma BitwiseIs(op: ArithOp, a: Word, b: Word)
    requires op == XOR || op == OR || op == AND
    ensures ArithIs(op, a, b, Arith(op, a, b))
  {
    hide Bit, And, Or, Xor, Unsigned, Signed;
    forall n: Word | n < 32
      ensures Bit(And(a, b), n) <==> Bit(a, n) && Bit(b, n)
      ensures Bit(Or(a, b), n) <==> Bit(a, n) || Bit(b, n)
      ensures Bit(Xor(a, b), n) <==> Bit(a, n) != Bit(b, n)
    {
      BitwiseMeans(a, b, n);
    }
  }

  lemma ShiftIs(op: ArithOp, a: Word, b: Word)
    requires op == SLL || op == SRL || op == SRA
    ensures ArithIs(op, a, b, Arith(op, a, b))
  {
    hide Bit, Unsigned, Signed, ShiftLeft, ShiftRight, ShiftRightArithmetic, Pow2;
    LowFiveIsSmall(b);
    LowFiveMean(b);
    ShiftLeftMeans(a, b & 0x1f);
    ShiftRightMeans(a, b & 0x1f);
    ShiftRightArithmeticMeans(a, b & 0x1f);
  }

  /** The reference computes the integers that the manual describes. */
  lemma ArithMeans(op: ArithOp, a: Word, b: Word)
    ensures ArithIs(op, a, b, Arith(op, a, b))
  {
    if op == XOR || op == OR || op == AND {
      BitwiseIs(op, a, b);
    } else if op == SLL || op == SRL || op == SRA {
      ShiftIs(op, a, b);
    } else {
      hide Bit, Unsigned, Signed, Add, Sub, SignedLess, Below;
      ZeroMeans();
      AddMeans(a, b);
      SubMeans(a, b);
      SignedLessMeans(a, b);
      BelowMeans(a, b);
    }
  }

  /** And so does the arithmetic unit of the pipeline. */
  lemma AluMeans(op: ArithOp, a: Word, b: Word)
    ensures ArithIs(op, a, b, Alu.ALU(DecoderAgreement.ToAlu(op), a, b))
  {
    hide ArithIs, Alu.ALU, Arith;
    DecoderAgreement.ArithAgrees(op, a, b);
    ArithMeans(op, a, b);
  }

  /** And so do the handlers of the interpreter, of registers and of immediates. */
  lemma ComputedMeans(op: ArithOp, a: Word, b: Word)
    ensures ArithIs(op, a, b, Interpreter.Computed(InterpreterAgreement.OpNameOf(op), a, b))
    ensures op != SUB ==> ArithIs(op, a, b, Interpreter.Computed(InterpreterAgreement.OpImmNameOf(op), a, b))
  {
    hide ArithIs, Interpreter.Computed, Arith, InterpreterAgreement.OpNameOf, InterpreterAgreement.OpImmNameOf;
    ArithMeans(op, a, b);
    InterpreterAgreement.ComputedOp(op, a, b);
    if op != SUB {
      InterpreterAgreement.ComputedOpImm(op, a, b);
    }
  }

  // ----- section 2.5: conditional branches -----

  predicate ConditionIs(op: BranchOp, a: Word, b: Word) {
    match op
    case BEQ => Unsigned(a) == Unsigned(b)
    case BNE => Unsigned(a) != Unsigned(b)
    case BLT => Signed(a) < Signed(b)
    case BGE => Signed(a) >= Signed(b)
    case BLTU => Unsigned(a) < Unsigned(b)
    case BGEU => Unsigned(a) >= Unsigned(b)
  }

  lemma ConditionMeans(op: BranchOp, a: Word, b: Word)
    ensures Condition(op, a, b) <==> ConditionIs(op, a, b)
  {
    hide Unsigned, Signed, SignedLess, Below;
    SignedLessMeans(a, b);
    BelowMeans(a, b);
  }

  lemma NoComparison(a: Word, b: Word)
    ensures !Alu.Cmp(Alu.CmpControl.NOP, a, b)
  {
  }

  /** The comparator of the pipeline compares these integers, and without a comparison it yields false. */
  lemma CmpMeans(op: BranchOp, a: Word, b: Word)
    ensures Alu.Cmp(DecoderAgreement.ToCmp(op), a, b) <==> ConditionIs(op, a, b)
    ensures !Alu.Cmp(Alu.CmpControl.NOP, a, b)
  {
    NoComparison(a, b);
    hide ConditionIs, Alu.Cmp, Condition;
    DecoderAgreement.CompareAgrees(op, a, b);
    ConditionMeans(op, a, b);
  }

  /** And so do the branch handlers of the interpreter. */
  lemma TakenMeans(op: BranchOp, a: Word, b: Word)
    ensures Interpreter.BranchTaken(InterpreterAgreement.BranchNameOf(op), a, b) <==> ConditionIs(op, a, b)
  {
    hide ConditionIs, Condition, Interpreter.BranchTaken, InterpreterAgreement.BranchNameOf;
    ConditionMeans(op, a, b);
    InterpreterAgreement.BranchesAgree(op, a, b);
  }

  // ----- section 2.6: loads and stores -----

  /** The number that a sequence of bytes stands for, the first one lowest. */
  function LittleEndian(bytes: seq<bv8>): nat {
    if bytes == [] then 0 else Unsigned8(bytes[0]) + 0x100 * LittleEndian(bytes[1..])
  }

  lemma LittleEndianOf(b0: bv8, b1: bv8, b2: bv8, b3: bv8)
    ensures LittleEndian([b0]) == Unsigned8(b0)
    ensures LittleEndian([b0, b1]) == Unsigned8(b0) + 0x100 * Unsigned8(b1)
    ensures LittleEndian([b0, b1, b2, b3])
         == Unsigned8(b0) + 0x100 * Unsigned8(b1) + 0x1_0000 * Unsigned8(b2) + 0x100_0000 * Unsigned8(b3)
  {
    hide Unsigned8, LittleEndian;
    LittleEndianEmpty();
    assert [b0] + [] == [b0] && [b1] + [] == [b1] && [b3] + [] == [b3] && [b0] + [b1] == [b0, b1];
    LittleEndianStep(b3, []);
    LittleEndianStep(b2, [b3]);
    LittleEndianStep(b1, [b2, b3]);
    LittleEndianStep(b0, [b1, b2, b3]);
    LittleEndianStep(b1, []);
    LittleEndianStep(b0, [b1]);
    LittleEndianStep(b0, []);
    assert [b2] + [b3] == [b2, b3] && [b1] + [b2, b3] == [b1, b2, b3] && [b0] + [b1, b2, b3] == [b0, b1, b2, b3];
  }

  lemma LittleEndianEmpty()
    ensures LittleEndian([]) == 0
  {
  }

  lemma LittleEndianStep(b: bv8, rest: seq<bv8>)
    ensures LittleEndian([b] + rest) == Unsigned8(b) + 0x100 * LittleEndian(rest)
  {
    assert ([b] + rest)[1..] == rest;
  }

  function LoadWidth(op: LoadOp): nat {
    match op
    case LB | LBU => 1
    case LH | LHU => 2
    case LW => 4
  }

  /** r is what a load of these bytes puts into its register. */
  predicate LoadIs(op: LoadOp, bytes: seq<bv8>, r: Word)
    requires |bytes| == LoadWidth(op)
  {
    match op
    case LB => Signed(r) == if LittleEndian(bytes) < 0x80 then LittleEndian(bytes) else LittleEndian(bytes) - 0x100
    case LH => Signed(r) == if LittleEndian(bytes) < 0x8000 then LittleEndian(bytes) else LittleEndian(bytes) - 0x1_0000
    case LW | LBU | LHU => Unsigned(r) == LittleEndian(bytes)
  }

  /** The bytes from address a on. */
  function BytesAt(b: Bytes, a: Word, width: nat): (bytes: seq<bv8>)
    requires width == 1 || width == 2 || width == 4
    ensures |bytes| == width
  {
    if width == 1 then [GetByte(b, a)]
    else if width == 2 then [GetByte(b, a), GetByte(b, Add(a, 1))]
    else [GetByte(b, a), GetByte(b, Add(a, 1)), GetByte(b, Add(a, 2)), GetByte(b, Add(a, 3))]
  }

  lemma HalfValue(b: Bytes, a: Word)
    ensures Unsigned16(GetHalf(b, a)) == Unsigned8(GetByte(b, a)) + 0x100 * Unsigned8(GetByte(b, Add(a, 1)))
  {
    hide GetByte, Add, JoinBytes, Unsigned8, Unsigned16;
    JoinBytesMeans(GetByte(b, a), GetByte(b, Add(a, 1)));
  }

  lemma WordValue(b: Bytes, a: Word)
    ensures Unsigned(GetWord(b, a)) == LittleEndian(BytesAt(b, a, 4))
  {
    hide GetByte, GetHalf, Add, JoinHalves, Unsigned8, Unsigned16, Unsigned, LittleEndian;
    AddressesDiffer(a);
    HalfValue(b, a);
    HalfValue(b, Add(a, 2));
    JoinHalvesMeans(GetHalf(b, a), GetHalf(b, Add(a, 2)));
    LittleEndianOf(GetByte(b, a), GetByte(b, Add(a, 1)), GetByte(b, Add(a, 2)), GetByte(b, Add(a, 3)));
  }

  /** A load combines the bytes at its address and extends them as its name says. */
  lemma LoadMeans(op: LoadOp, b: Bytes, a: Word)
    ensures LoadIs(op, BytesAt(b, a, LoadWidth(op)), LoadValue(op, b, a))
  {
    hide GetByte, GetHalf, GetWord, Add, Unsigned8, Unsigned16, Unsigned, Signed, LittleEndian, SignExtend8,
         SignExtend16, SignExtendFromByte, SignExtendFromByte2, ZeroExtend8, ZeroExtend16;
    var byte, half := GetByte(b, a), GetHalf(b, a);
    LittleEndianOf(byte, GetByte(b, Add(a, 1)), 0, 0);
    HalfValue(b, a);
    WordValue(b, a);
    DecoderAgreement.SignExtends(byte, half);
    SignExtendByteMeans(byte);
    SignExtendHalfMeans(half);
    ZeroExtendMeans(byte, half);
  }

  // ----- loads after any stores -----

  /** The bytes most recently stored from address a on. */
  function LastBytes(m: Mem, stores: seq<Store>, a: Word, width: nat): (bytes: seq<bv8>)
    requires width == 1 || width == 2 || width == 4
    ensures |bytes| == width
  {
    if width == 1 then [LastByte(m, stores, a)]
    else if width == 2 then [LastByte(m, stores, a), LastByte(m, stores, Add(a, 1))]
    else [LastByte(m, stores, a), LastByte(m, stores, Add(a, 1)), LastByte(m, stores, Add(a, 2)),
      LastByte(m, stores, Add(a, 3))]
  }

  lemma BytesAfter(m: Mem, stores: seq<Store>, a: Word, width: nat)
    requires forall st :: st in stores ==> Valid(st)
    requires width == 1 || width == 2 || width == 4
    ensures BytesAt(After(m, stores).bytes, a, width) == LastBytes(m, stores, a, width)
  {
    hide GetByte, LastByte, After, Add;
    Coherent(m, stores, a);
    Coherent(m, stores, Add(a, 1));
    Coherent(m, stores, Add(a, 2));
    Coherent(m, stores, Add(a, 3));
  }

  /** Memory coherence: after any sequence of byte, half-word and word stores, overlapping or not, a load in any
      mode yields the number made of the bytes stored last at its addresses; other modes fail. */
  lemma LoadAfterStores(m: Mem, stores: seq<Store>, mode: bv3, a: Word)
    requires forall st :: st in stores ==> Valid(st)
    ensures match DecodeLoad(mode)
      case Some(op) =>
        GetData(After(m, stores).bytes, mode, a).Some? &&
        LoadIs(op, LastBytes(m, stores, a, LoadWidth(op)), GetData(After(m, stores).bytes, mode, a).value)
      case None => GetData(After(m, stores).bytes, mode, a) == None
  {
    if DecodeLoad(mode).Some? {
      hide GetData, LoadValue, LoadIs, After, BytesAt, LastBytes;
      var op := DecodeLoad(mode).value;
      DecoderAgreement.LoadValues(After(m, stores).bytes, mode, a);
      LoadMeans(op, After(m, stores).bytes, a);
      BytesAfter(m, stores, a, LoadWidth(op));
    }
  }

  // ----- the bytes that a store writes -----

  lemma PartsOfWord(w: Word)
    ensures LowByte(LowHalf(w)) == Byte0(w) && HighByte(LowHalf(w)) == Byte1(w)
    ensures LowByte(HighHalf(w)) == Byte2(w) && HighByte(HighHalf(w)) == Byte3(w)
  {
  }

  lemma Digits(b0: int, b1: int, b2: int, b3: int)
    requires 0 <= b0 < 0x100 && 0 <= b1 < 0x100 && 0 <= b2 < 0x100 && 0 <= b3 < 0x100
    ensures var n := b0 + 0x100 * b1 + 0x1_0000 * b2 + 0x100_0000 * b3;
      b0 == n % 0x100 && b1 == n / 0x100 % 0x100 && b2 == n / 0x1_0000 % 0x100 && b3 == n / 0x100_0000 % 0x100
  {
    var n := b0 + 0x100 * b1 + 0x1_0000 * b2 + 0x100_0000 * b3;
    Quotient(n, 0x100, b1 + 0x100 * b2 + 0x1_0000 * b3, b0);
    Quotient(n, 0x1_0000, b2 + 0x100 * b3, b0 + 0x100 * b1);
    Quotient(n, 0x100_0000, b3, b0 + 0x100 * b1 + 0x1_0000 * b2);
    Quotient(b1 + 0x100 * b2 + 0x1_0000 * b3, 0x100, b2 + 0x100 * b3, b1);
    Quotient(b2 + 0x100 * b3, 0x100, b3, b2);
    Quotient(b3, 0x100, 0, b3);
  }

  /** The i-th byte of a word is the i-th digit of its value to the base 256. */
  lemma StoredDigits(w: Word)
    ensures Unsigned8(LowByte(LowHalf(w))) == Unsigned(w) % 0x100
    ensures Unsigned8(HighByte(LowHalf(w))) == Unsigned(w) / 0x100 % 0x100
    ensures Unsigned8(LowByte(HighHalf(w))) == Unsigned(w) / 0x1_0000 % 0x100
    ensures Unsigned8(HighByte(HighHalf(w))) == Unsigned(w) / 0x100_0000 % 0x100
  {
    hide LowByte, HighByte, LowHalf, HighHalf, Byte0, Byte1, Byte2, Byte3, Unsigned8;
    PartsOfWord(w);
    Digits(Unsigned8(Byte0(w)), Unsigned8(Byte1(w)), Unsigned8(Byte2(w)), Unsigned8(Byte3(w)));
  }

  /** What address x holds after a store of value at a: a digit of the value, or what it held before. */
  predicate StoreIs(op: StoreOp, before: Bytes, after: Bytes, value: Word, a: Word, x: Word) {
    var n := Unsigned(value);
    if x == a then Unsigned8(GetByte(after, x)) == n % 0x100
    else if op != SB && x == Add(a, 1) then Unsigned8(GetByte(after, x)) == n / 0x100 % 0x100
    else if op == SW && x == Add(a, 2) then Unsigned8(GetByte(after, x)) == n / 0x1_0000 % 0x100
    else if op == SW && x == Add(a, 3) then Unsigned8(GetByte(after, x)) == n / 0x100_0000 % 0x100
    else GetByte(after, x) == GetByte(before, x)
  }

  function StoreMode(op: StoreOp): bv3 {
    match op case SB => 0 case SH => 1 case SW => 2
  }

  lemma StoreModes(op: StoreOp)
    ensures DecodeStore(StoreMode(op)) == Some(op)
  {
  }

  /** A store writes the low bytes of the value and nothing else. */
  lemma StoreMeans(op: StoreOp, m: Mem, value: Word, a: Word, x: Word)
    ensures StoreIs(op, m.bytes, StoreTo(op, m, value, a).bytes, value, a, x)
  {
    hide GetByte, LowByte, HighByte, LowHalf, HighHalf, Unsigned, Unsigned8, StoreTo, StoreValue, Add, DecodeStore;
    var st := Store.Store(StoreMode(op), value, a);
    StoreModes(op);
    DecoderAgreement.StoreValues(m, StoreMode(op), value, a);
    StoreWrites(m, st, x);
    StoredDigits(value);
  }

  // ----- the record of a store -----

  /** The record of a store: its width code, its address and the part of the value that is stored. */
  predicate RecordIs(op: StoreOp, value: Word, a: Word, e: MemEvent) {
    e.vaddr == a &&
    match op
    case SB => e.code == 0 && Unsigned(e.value) == Unsigned(value) % 0x100
    case SH => e.code == 1 && Unsigned(e.value) == Unsigned(value) % 0x1_0000
    case SW => e.code == 2 && Unsigned(e.value) == Unsigned(value)
  }

  /** One store appends one record. */
  predicate AppendsRecord(op: StoreOp, before: seq<MemEvent>, after: seq<MemEvent>, value: Word, a: Word) {
    |after| == |before| + 1 && after[..|before|] == before && RecordIs(op, value, a, after[|before|])
  }

  lemma SetRecords(m: Mem, byte: bv8, half: bv16, word: Word, a: Word)
    ensures SetByte(m, byte, a).trace == m.trace + [MemEvent(0, a, ZeroExtend8(byte))]
    ensures SetHalf(m, half, a).trace == m.trace + [MemEvent(1, a, ZeroExtend16(half))]
    ensures SetWord(m, word, a).trace == m.trace + [MemEvent(2, a, word)]
  {
    hide PutByte, PutHalf, PutWord;
  }

  lemma TwoDigits(n: int)
    ensures n % 0x1_0000 == n % 0x100 + 0x100 * (n / 0x100 % 0x100)
  {
    var t, r := Division(n, 0x100);
    var u, v := Division(t, 0x100);
    Quotient(n, 0x1_0000, u, r + 0x100 * v);
  }

  lemma RecordedParts(value: Word)
    ensures Unsigned(ZeroExtend8(ToByte(value))) == Unsigned(value) % 0x100
    ensures Unsigned(ZeroExtend16(LowHalf(value))) == Unsigned(value) % 0x1_0000
  {
    hide ZeroExtend8, ZeroExtend16, ToByte, LowHalf, LowByte, HighByte, Unsigned, Unsigned8, Unsigned16;
    StoredByte(value);
    StoredDigits(value);
    ZeroExtendMeans(ToByte(value), LowHalf(value));
    HalfOf(value);
    TwoDigits(Unsigned(value));
  }

  lemma HalfOf(value: Word)
    ensures Unsigned16(LowHalf(value))
         == Unsigned8(LowByte(LowHalf(value))) + 0x100 * Unsigned8(HighByte(LowHalf(value)))
  {
    hide LowByte, HighByte, LowHalf, Unsigned8;
  }

  /** The record of every store of the reference semantics. */
  lemma StoreRecords(op: StoreOp, m: Mem, value: Word, a: Word)
    ensures AppendsRecord(op, m.trace, StoreTo(op, m, value, a).trace, value, a)
  {
    hide SetByte, SetHalf, SetWord, ZeroExtend8, ZeroExtend16, ToByte, LowHalf, Unsigned;
    SetRecords(m, ToByte(value), LowHalf(value), value, a);
    RecordedParts(value);
  }

  /** The data memory unit of the pipeline: bytes and record of each mode, and failure for the others. */
  lemma StoreValueMeans(m: Mem, mode: bv3, value: Word, a: Word, x: Word)
    ensures match DecodeStore(mode)
      case Some(op) =>
        StoreValue(m, mode, value, a).Some? &&
        StoreIs(op, m.bytes, StoreValue(m, mode, value, a).value.bytes, value, a, x) &&
        AppendsRecord(op, m.trace, StoreValue(m, mode, value, a).value.trace, value, a)
      case None => StoreValue(m, mode, value, a) == None
  {
    if DecodeStore(mode).Some? {
      hide StoreIs, AppendsRecord, StoreTo, StoreValue;
      var op := DecodeStore(mode).value;
      DecoderAgreement.StoreValues(m, mode, value, a);
      StoreMeans(op, m, value, a, x);
      StoreRecords(op, m, value, a);
    }
  }

  /** The store handlers of the interpreter; SH acts as SB in its bytes and in its record. */
  lemma StoredMeans(op: StoreOp, m: Mem, value: Word, a: Word, x: Word)
    ensures var width := if op == SH then SB else op;
      var after := Interpreter.Stored(InterpreterAgreement.StoreNameOf(op), m, value, a);
      StoreIs(width, m.bytes, after.bytes, value, a, x) && AppendsRecord(width, m.trace, after.trace, value, a)
  {
    hide StoreIs, AppendsRecord, SetByte, SetHalf, SetWord, ToByte, LowHalf;
    var width := if op == SH then SB else op;
    StoreMeans(width, m, value, a, x);
    StoreRecords(width, m, value, a);
  }

  /** The load handlers of the interpreter: every byte and half-word is taken as a non-negative number. */
  lemma LoadedMeans(op: LoadOp, b: Bytes, a: Word)
    ensures Unsigned(Interpreter.Loaded(InterpreterAgreement.LoadNameOf(op), b, a))
         == LittleEndian(BytesAt(b, a, LoadWidth(op)))
  {
    hide GetByte, GetHalf, GetWord, Add, Unsigned8, Unsigned16, Unsigned, LittleEndian, ZeroExtend8, ZeroExtend16;
    var byte, half := GetByte(b, a), GetHalf(b, a);
    LittleEndianOf(byte, GetByte(b, Add(a, 1)), 0, 0);
    HalfValue(b, a);
    WordValue(b, a);
    ZeroExtendMeans(byte, half);
  }

  /** The memory trace after any stores: one record for each, in order. */
  lemma {:induction false} RecordsAfter(m: Mem, stores: seq<Store>)
    requires forall st :: st in stores ==> Valid(st)
    ensures var t := After(m, stores).trace;
      |t| == |m.trace| + |stores| && t[..|m.trace|] == m.trace &&
      forall i :: 0 <= i < |stores| ==>
        DecodeStore(stores[i].mode).Some? &&
        RecordIs(DecodeStore(stores[i].mode).value, stores[i].value, stores[i].address, t[|m.trace| + i])
  {
    hide RecordIs, StoreValue, StoreIs;
    if stores == [] {
      assert After(m, []) == m;
    } else {
      var n := |stores| - 1;
      var rest := stores[..n];
      RecordsAfter(m, rest);
      var last := stores[n];
      assert last in stores && Valid(last);
      StoreValueMeans(After(m, rest), last.mode, last.value, last.address, 0);
      assert After(m, stores) == StoreValue(After(m, rest), last.mode, last.value, last.address).value;
      var t, u := After(m, rest).trace, After(m, stores).trace;
      assert u[..|t|] == t;
      forall i | 0 <= i < |stores|
        ensures DecodeStore(stores[i].mode).Some?
        ensures RecordIs(DecodeStore(stores[i].mode).value, stores[i].value, stores[i].address, u[|m.trace| + i])
      {
        if i < n {
          assert stores[i] == rest[i] && u[|m.trace| + i] == t[|m.trace| + i];
        }
      }
      assert u[..|m.trace|] == t[..|m.trace|];
    }
  }
}
