/** The byte memory behind both models (models/shared/mmu_fixed_offset.h) together with the
    stream of store records it writes, and the load/store unit of the pipeline
    (models/pipeline/modules/data_mem_unit.h).

    Bytes that were never written read as zero, as fresh anonymous pages do. */
module Memory {
  import opened Words

  /** A byte address. */
  datatype Location = Location(address: Word)

  type Bytes = map<Location, bv8>

  /** One record of the memory trace: width code (0 byte, 1 half, 2 word), address, value. */
  datatype MemEvent = MemEvent(code: bv8, vaddr: Word, value: Word)

  datatype Mem = Mem(bytes: Bytes, trace: seq<MemEvent>)

  function GetByte(b: Bytes, a: Word): bv8 {
    if Location(a) in b then b[Location(a)] else 0
  }

  function JoinBytes(low: bv8, high: bv8): bv16 {
    low as bv16 | ((high as bv16) << 8)
  }

  function JoinHalves(low: bv16, high: bv16): Word {
    low as Word | ((high as Word) << 16)
  }

  function GetHalf(b: Bytes, a: Word): bv16 {
    JoinBytes(GetByte(b, a), GetByte(b, Add(a, 1)))
  }

  function GetWord(b: Bytes, a: Word): Word {
    JoinHalves(GetHalf(b, a), GetHalf(b, Add(a, 2)))
  }

  // ----- the parts of a word -----

  function ToByte(w: Word): bv8 {
    (w & 0xff) as bv8
  }

  function LowByte(h: bv16): bv8 {
    (h & 0xff) as bv8
  }

  function HighByte(h: bv16): bv8 {
    (h >> 8) as bv8
  }

  function LowHalf(w: Word): bv16 {
    (w & 0xffff) as bv16
  }

  function HighHalf(w: Word): bv16 {
    (w >> 16) as bv16
  }

  function PutByte(b: Bytes, value: bv8, a: Word): Bytes {
    b[Location(a) := value]
  }

  function PutHalf(b: Bytes, value: bv16, a: Word): Bytes {
    PutByte(PutByte(b, LowByte(value), a), HighByte(value), Add(a, 1))
  }

  function PutWord(b: Bytes, value: Word, a: Word): Bytes {
    PutHalf(PutHalf(b, LowHalf(value), a), HighHalf(value), Add(a, 2))
  }

  function SetByte(m: Mem, value: bv8, a: Word): Mem {
    Mem(PutByte(m.bytes, value, a), m.trace + [MemEvent(0, a, value as Word)])
  }

  function SetHalf(m: Mem, value: bv16, a: Word): Mem {
    Mem(PutHalf(m.bytes, value, a), m.trace + [MemEvent(1, a, value as Word)])
  }

  function SetWord(m: Mem, value: Word, a: Word): Mem {
    Mem(PutWord(m.bytes, value, a), m.trace + [MemEvent(2, a, value)])
  }

  function SignExtendFromByte(target: bv8): Word {
    if target >> 7 != 0 then target as Word | 0xffff_ff00 else target as Word
  }

  function SignExtendFromByte2(target: bv16): Word {
    if target >> 15 != 0 then target as Word | 0xffff_0000 else target as Word
  }

  /** `DataMemUnit::GetData`; None stands for the `std::logic_error` of an invalid load mode. */
  function GetData(b: Bytes, mode: bv3, a: Word): Option<Word> {
    if mode == 0 then Some(SignExtendFromByte(GetByte(b, a)))
    else if mode == 1 then Some(SignExtendFromByte2(GetHalf(b, a)))
    else if mode == 2 then Some(GetWord(b, a))
    else if mode == 4 then Some(ZeroExtend8(GetByte(b, a)))
    else if mode == 5 then Some(ZeroExtend16(GetHalf(b, a)))
    else None
  }

  /** `DataMemUnit::StoreValue`; None stands for the `std::logic_error` of an invalid store mode. */
  function StoreValue(m: Mem, mode: bv3, value: Word, a: Word): Option<Mem> {
    if mode == 0 then Some(SetByte(m, ToByte(value), a))
    else if mode == 1 then Some(SetHalf(m, LowHalf(value), a))
    else if mode == 2 then Some(SetWord(m, value, a))
    else None
  }
}
