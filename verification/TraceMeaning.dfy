/** The layout of the trace files in integers (models/shared/trace_writer.h:82-126): record k of a file starts at a
    fixed offset, and its numbers are little-endian. */
module TraceMeaning {
  import opened Words
  import opened Memory
  import opened RegisterFile
  import opened PipelineStep
  import opened Integers
  import opened InstructionMeaning
  import opened TraceFormat

  lemma FourBytes(w: Word)
    ensures Uint32(w) == [Byte0(w), Byte1(w), Byte2(w), Byte3(w)]
  {
  }

  /** The four bytes of a number, the lowest first. */
  lemma Uint32Means(w: Word)
    ensures LittleEndian(Uint32(w)) == Unsigned(w)
  {
    hide Uint32, LittleEndian, Byte0, Byte1, Byte2, Byte3, Unsigned8;
    FourBytes(w);
    LittleEndianOf(Byte0(w), Byte1(w), Byte2(w), Byte3(w));
  }

  /** One byte and two numbers at an offset. */
  predicate RecordAt(b: Stream, offset: nat, code: bv8, vaddr: Word, value: Word)
    requires offset + 9 <= |b|
  {
    b[offset] == code && LittleEndian(b[offset + 1..offset + 5]) == Unsigned(vaddr) &&
    LittleEndian(b[offset + 5..offset + 9]) == Unsigned(value)
  }

  lemma RecordFirst(code: bv8, vaddr: Word, value: Word, rest: Stream)
    ensures RecordAt(SetRecord(code, vaddr, value) + rest, 0, code, vaddr, value)
  {
    hide Uint32, LittleEndian, Unsigned;
    var b := SetRecord(code, vaddr, value) + rest;
    assert b[1..5] == Uint32(vaddr) && b[5..9] == Uint32(value);
    Uint32Means(vaddr);
    Uint32Means(value);
  }

  lemma RecordLater(u: Stream, b: Stream, offset: nat, code: bv8, vaddr: Word, value: Word)
    requires offset + 9 <= |b| && RecordAt(b, offset, code, vaddr, value)
    ensures RecordAt(u + b, |u| + offset, code, vaddr, value)
  {
    hide LittleEndian, Unsigned;
    var o := |u| + offset;
    assert (u + b)[o + 1..o + 5] == b[offset + 1..offset + 5] && (u + b)[o + 5..o + 9] == b[offset + 5..offset + 9];
  }

  /** Record k of a memory trace: width code, address, value. */
  lemma {:induction false} MemRecordAt(es: seq<MemEvent>, k: nat)
    requires k < |es|
    ensures RecordAt(MemStream(es), 9 * k, es[k].code, es[k].vaddr, es[k].value)
  {
    hide RecordAt, SetRecord;
    var first, rest := SetRecord(es[0].code, es[0].vaddr, es[0].value), MemStream(es[1..]);
    if k == 0 {
      RecordFirst(es[0].code, es[0].vaddr, es[0].value, rest);
    } else {
      MemRecordAt(es[1..], k - 1);
      RecordLater(first, rest, 9 * (k - 1), es[k].code, es[k].vaddr, es[k].value);
    }
  }

  /** Record k of a register trace: the code 1, the number of the register, the value. */
  lemma {:induction false} RegRecordAt(es: seq<RegEvent>, k: nat)
    requires k < |es|
    ensures RecordAt(RegStream(es), 9 * k, 1, es[k].vaddr as Word, es[k].value)
  {
    hide RecordAt, SetRecord;
    var first, rest := SetRecord(1, es[0].vaddr as Word, es[0].value), RegStream(es[1..]);
    if k == 0 {
      RecordFirst(1, es[0].vaddr as Word, es[0].value, rest);
    } else {
      RegRecordAt(es[1..], k - 1);
      RecordLater(first, rest, 9 * (k - 1), 1, es[k].vaddr as Word, es[k].value);
    }
  }

  /** Record k of an execution trace: the instruction, then its location. */
  lemma {:induction false} ExecRecordAt(es: seq<ExecEvent>, k: nat)
    requires k < |es|
    ensures var b := ExecStream(es);
      LittleEndian(b[8 * k..8 * k + 4]) == Unsigned(es[k].instr) &&
      LittleEndian(b[8 * k + 4..8 * k + 8]) == Unsigned(es[k].location)
  {
    hide Uint32, LittleEndian, Unsigned;
    var b, rest := ExecStream(es), ExecStream(es[1..]);
    if k == 0 {
      assert b[0..4] == Uint32(es[0].instr) && b[4..8] == Uint32(es[0].location);
      Uint32Means(es[0].instr);
      Uint32Means(es[0].location);
    } else {
      ExecRecordAt(es[1..], k - 1);
      var o := 8 * (k - 1);
      assert b == ExecRecord(es[0]) + rest;
      assert b[8 * k..8 * k + 4] == rest[o..o + 4] && b[8 * k + 4..8 * k + 8] == rest[o + 4..o + 8];
    }
  }
}
