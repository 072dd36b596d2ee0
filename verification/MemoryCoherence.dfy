/** Loads see the last stores: the byte memory behind `DataMemUnit`
    (models/pipeline/modules/data_mem_unit.h:72-129, models/shared/mmu_fixed_offset.h:45-75). */
module MemoryCoherence {
  import opened Words
  import opened Memory

  /** A store request on the ports of the data memory unit. */
  datatype Store = Store(mode: bv3, value: Word, address: Word)

  predicate Valid(st: Store) {
    st.mode == 0 || st.mode == 1 || st.mode == 2
  }

  /** The byte that a store puts at address x, if any: little-endian, wrapping around at the top. */
  function Written(st: Store, x: Word): Option<bv8> {
    var low, high := LowHalf(st.value), HighHalf(st.value);
    if x == st.address then Some(LowByte(low))
    else if st.mode != 0 && x == Add(st.address, 1) then Some(HighByte(low))
    else if st.mode == 2 && x == Add(st.address, 2) then Some(LowByte(high))
    else if st.mode == 2 && x == Add(st.address, 3) then Some(HighByte(high))
    else None
  }

  lemma StoreSucceeds(m: Mem, st: Store)
    requires Valid(st)
    ensures StoreValue(m, st.mode, st.value, st.address).Some?
  {
    hide SetByte, SetHalf, SetWord;
  }

  /** The memory after a sequence of stores. */
  function After(m: Mem, stores: seq<Store>): Mem
    requires forall st :: st in stores ==> Valid(st)
  {
    if stores == [] then m
    else
      var last := stores[|stores| - 1];
      StoreSucceeds(After(m, stores[..|stores| - 1]), last);
      StoreValue(After(m, stores[..|stores| - 1]), last.mode, last.value, last.address).value
  }

  /** The byte most recently stored at x, or the initial one. */
  function LastByte(m: Mem, stores: seq<Store>, x: Word): bv8 {
    if stores == [] then GetByte(m.bytes, x)
    else
      var last := Written(stores[|stores| - 1], x);
      if last.Some? then last.value else LastByte(m, stores[..|stores| - 1], x)
  }

  lemma ByteWrites(b: Bytes, value: bv8, a: Word, x: Word)
    ensures GetByte(PutByte(b, value, a), x) == if x == a then value else GetByte(b, x)
  {
  }

  lemma HalfWrites(b: Bytes, value: bv16, a: Word, x: Word)
    ensures GetByte(PutHalf(b, value, a), x)
         == if x == a then LowByte(value) else if x == Add(a, 1) then HighByte(value) else GetByte(b, x)
  {
    hide GetByte, PutByte, LowByte, HighByte, Add;
    AddressesDiffer(a);
    ByteWrites(b, LowByte(value), a, x);
    ByteWrites(PutByte(b, LowByte(value), a), HighByte(value), Add(a, 1), x);
  }

  lemma AddressesDiffer(a: Word)
    ensures a != Add(a, 1) && a != Add(a, 2) && a != Add(a, 3) && Add(a, 1) != Add(a, 2) && Add(a, 1) != Add(a, 3)
    ensures Add(a, 2) != Add(a, 3) && Add(Add(a, 2), 1) == Add(a, 3)
  {
  }

  lemma WordWrites(b: Bytes, value: Word, a: Word, x: Word)
    ensures GetByte(PutWord(b, value, a), x)
         == if x == a then LowByte(LowHalf(value)) else if x == Add(a, 1) then HighByte(LowHalf(value))
            else if x == Add(a, 2) then LowByte(HighHalf(value)) else if x == Add(a, 3) then HighByte(HighHalf(value))
            else GetByte(b, x)
  {
    hide GetByte, PutHalf, LowByte, HighByte, LowHalf, HighHalf, Add;
    AddressesDiffer(a);
    HalfWrites(b, LowHalf(value), a, x);
    HalfWrites(PutHalf(b, LowHalf(value), a), HighHalf(value), Add(a, 2), x);
  }

  lemma StoredByte(value: Word)
    ensures ToByte(value) == LowByte(LowHalf(value))
  {
  }

  lemma SetBytes(m: Mem, byte: bv8, half: bv16, word: Word, a: Word)
    ensures SetByte(m, byte, a).bytes == PutByte(m.bytes, byte, a)
    ensures SetHalf(m, half, a).bytes == PutHalf(m.bytes, half, a)
    ensures SetWord(m, word, a).bytes == PutWord(m.bytes, word, a)
  {
    hide PutByte, PutHalf, PutWord;
  }

  /** The bytes after a store. */
  lemma StoredBytes(m: Mem, st: Store)
    requires Valid(st)
    ensures StoreValue(m, st.mode, st.value, st.address).Some?
    ensures StoreValue(m, st.mode, st.value, st.address).value.bytes ==
      if st.mode == 0 then PutByte(m.bytes, LowByte(LowHalf(st.value)), st.address)
      else if st.mode == 1 then PutHalf(m.bytes, LowHalf(st.value), st.address)
      else PutWord(m.bytes, st.value, st.address)
  {
    hide PutByte, PutHalf, PutWord, LowByte, LowHalf, ToByte, SetByte, SetHalf, SetWord;
    StoredByte(st.value);
    SetBytes(m, LowByte(LowHalf(st.value)), LowHalf(st.value), st.value, st.address);
  }

  /** One store changes exactly the bytes it covers. */
  lemma StoreWrites(m: Mem, st: Store, x: Word)
    requires Valid(st)
    ensures StoreValue(m, st.mode, st.value, st.address).Some?
    ensures GetByte(StoreValue(m, st.mode, st.value, st.address).value.bytes, x)
         == if Written(st, x).Some? then Written(st, x).value else GetByte(m.bytes, x)
  {
    hide GetByte, PutByte, PutHalf, PutWord, LowByte, HighByte, LowHalf, HighHalf, Add, StoreValue;
    StoredBytes(m, st);
    ByteWrites(m.bytes, LowByte(LowHalf(st.value)), st.address, x);
    HalfWrites(m.bytes, LowHalf(st.value), st.address, x);
    WordWrites(m.bytes, st.value, st.address, x);
  }

  /** After any stores, memory holds at every address the byte stored there last. */
  lemma {:induction false} Coherent(m: Mem, stores: seq<Store>, x: Word)
    requires forall st :: st in stores ==> Valid(st)
    ensures GetByte(After(m, stores).bytes, x) == LastByte(m, stores, x)
  {
    hide GetByte, StoreValue, Written;
    if stores == [] {
      assert After(m, []) == m;
    } else {
      var rest := stores[..|stores| - 1];
      Coherent(m, rest, x);
      StoreWrites(After(m, rest), stores[|stores| - 1], x);
    }
  }

  /** Memory that nobody has written reads as zero. */
  lemma FreshIsZero(a: Word)
    ensures GetByte(map[], a) == 0 && GetHalf(map[], a) == 0 && GetWord(map[], a) == 0
  {
  }

  // ----- words -----

  lemma Joins(h: bv16, w: Word)
    ensures JoinBytes(LowByte(h), HighByte(h)) == h && JoinHalves(LowHalf(w), HighHalf(w)) == w
  {
  }

  lemma HalfRoundTrip(b: Bytes, h: bv16, a: Word)
    ensures GetHalf(PutHalf(b, h, a), a) == h
  {
    hide GetByte, PutHalf, LowByte, HighByte, Add, JoinBytes;
    AddressesDiffer(a);
    HalfWrites(b, h, a, a);
    HalfWrites(b, h, a, Add(a, 1));
    Joins(h, 0);
  }

  /** Disjoint half-words do not disturb each other. */
  lemma HalfKeeps(b: Bytes, h: bv16, a: Word)
    ensures GetHalf(PutHalf(b, h, Add(a, 2)), a) == GetHalf(b, a)
  {
    hide GetByte, PutHalf, LowByte, HighByte, Add, JoinBytes;
    AddressesDiffer(a);
    HalfWrites(b, h, Add(a, 2), a);
    HalfWrites(b, h, Add(a, 2), Add(a, 1));
  }

  lemma WordRoundTrip(b: Bytes, w: Word, a: Word)
    ensures GetWord(PutWord(b, w, a), a) == w
  {
    hide GetHalf, PutHalf, LowHalf, HighHalf, Add, JoinHalves;
    HalfRoundTrip(b, LowHalf(w), a);
    HalfKeeps(PutHalf(b, LowHalf(w), a), HighHalf(w), a);
    HalfRoundTrip(PutHalf(b, LowHalf(w), a), HighHalf(w), Add(a, 2));
    Joins(0, w);
  }

  /** The address x is none of the four bytes of the word at a. */
  predicate Outside(x: Word, a: Word) {
    x != a && x != Add(a, 1) && x != Add(a, 2) && x != Add(a, 3)
  }

  /** A word that does not overlap the stored one is as before. */
  lemma WordKeeps(b: Bytes, w: Word, a: Word, c: Word)
    requires Outside(c, a) && Outside(Add(c, 1), a) && Outside(Add(c, 2), a) && Outside(Add(c, 3), a)
    ensures GetWord(PutWord(b, w, a), c) == GetWord(b, c)
  {
    hide GetByte, PutWord, JoinBytes, JoinHalves, LowByte, HighByte, LowHalf, HighHalf, Add;
    AddressesDiffer(c);
    WordWrites(b, w, a, c);
    WordWrites(b, w, a, Add(c, 1));
    WordWrites(b, w, a, Add(c, 2));
    WordWrites(b, w, a, Add(c, 3));
  }
}
