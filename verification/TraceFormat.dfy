/** The binary trace files (models/shared/trace_writer.h) and the two ways in which the program
    compares them: element by element (co_simulator/co_simulator.cpp:6-19), and as C strings
    (utils/system.cpp:173-207). */
module TraceFormat {
  import opened Words
  import opened Memory
  import opened RegisterFile
  import opened PipelineStep

  type Stream = seq<bv8>

  // ----- little-endian records -----

  function Uint32(w: Word): (b: Stream)
    ensures |b| == 4
  {
    [(w & 0xff) as bv8, ((w >> 8) & 0xff) as bv8, ((w >> 16) & 0xff) as bv8, (w >> 24) as bv8]
  }

  function FromUint32(b: Stream): Word
    requires |b| == 4
  {
    b[0] as Word | ((b[1] as Word) << 8) | ((b[2] as Word) << 16) | ((b[3] as Word) << 24)
  }

  /** `TraceSetRegFile` and `TraceSetMemory`: one byte and two words. */
  function SetRecord(code: bv8, vaddr: Word, value: Word): (b: Stream)
    ensures |b| == 9
  {
    [code] + Uint32(vaddr) + Uint32(value)
  }

  /** `TraceExecutedInstruction`: two words. */
  function ExecRecord(e: ExecEvent): (b: Stream)
    ensures |b| == 8
  {
    Uint32(e.instr) + Uint32(e.location)
  }

  function RegStream(es: seq<RegEvent>): (b: Stream)
    ensures |b| == 9 * |es|
  {
    if es == [] then [] else SetRecord(1, es[0].vaddr as Word, es[0].value) + RegStream(es[1..])
  }

  function MemStream(es: seq<MemEvent>): (b: Stream)
    ensures |b| == 9 * |es|
  {
    if es == [] then [] else SetRecord(es[0].code, es[0].vaddr, es[0].value) + MemStream(es[1..])
  }

  function ExecStream(es: seq<ExecEvent>): (b: Stream)
    ensures |b| == 8 * |es|
  {
    if es == [] then [] else ExecRecord(es[0]) + ExecStream(es[1..])
  }

  // ----- reading them back -----

  function ReadMemStream(b: Stream): Option<seq<MemEvent>> {
    if b == [] then Some([])
    else if |b| < 9 then None
    else
      var rest := ReadMemStream(b[9..]);
      if rest.None? then None
      else Some([MemEvent(b[0], FromUint32(b[1..5]), FromUint32(b[5..9]))] + rest.value)
  }

  function ReadRegStream(b: Stream): Option<seq<RegEvent>> {
    if b == [] then Some([])
    else if |b| < 9 then None
    else
      var vaddr := FromUint32(b[1..5]);
      var rest := ReadRegStream(b[9..]);
      if rest.None? || b[0] != 1 || vaddr >= 32 then None
      else Some([RegEvent(vaddr as RegIdx, FromUint32(b[5..9]))] + rest.value)
  }

  function ReadExecStream(b: Stream): Option<seq<ExecEvent>> {
    if b == [] then Some([])
    else if |b| < 8 then None
    else
      var rest := ReadExecStream(b[8..]);
      if rest.None? then None
      else Some([ExecEvent(FromUint32(b[0..4]), FromUint32(b[4..8]))] + rest.value)
  }

  lemma Uint32RoundTrip(w: Word)
    ensures FromUint32(Uint32(w)) == w
  {
  }

  lemma SetRecordParts(code: bv8, vaddr: Word, value: Word, rest: Stream)
    ensures var b := SetRecord(code, vaddr, value) + rest;
      b[0] == code && FromUint32(b[1..5]) == vaddr && FromUint32(b[5..9]) == value && b[9..] == rest
  {
    hide Uint32, FromUint32;
    var b := SetRecord(code, vaddr, value) + rest;
    assert b[1..5] == Uint32(vaddr) && b[5..9] == Uint32(value) && b[9..] == rest;
    Uint32RoundTrip(vaddr);
    Uint32RoundTrip(value);
  }

  lemma IndexRoundTrip(i: RegIdx)
    ensures (i as Word) < 32 && (i as Word) as RegIdx == i
  {
  }

  /** A memory trace determines the stores. */
  lemma {:induction false} MemStreamRoundTrip(es: seq<MemEvent>)
    ensures ReadMemStream(MemStream(es)) == Some(es)
  {
    hide SetRecord, FromUint32;
    if es == [] {
      assert MemStream(es) == [];
    } else {
      SetRecordParts(es[0].code, es[0].vaddr, es[0].value, MemStream(es[1..]));
      MemStreamRoundTrip(es[1..]);
      assert MemStream(es) == SetRecord(es[0].code, es[0].vaddr, es[0].value) + MemStream(es[1..]);
      assert [es[0]] + es[1..] == es;
    }
  }

  /** A register trace determines the register writes. */
  lemma {:induction false} RegStreamRoundTrip(es: seq<RegEvent>)
    ensures ReadRegStream(RegStream(es)) == Some(es)
  {
    hide SetRecord, FromUint32;
    if es == [] {
      assert RegStream(es) == [];
    } else {
      SetRecordParts(1, es[0].vaddr as Word, es[0].value, RegStream(es[1..]));
      RegStreamRoundTrip(es[1..]);
      assert RegStream(es) == SetRecord(1, es[0].vaddr as Word, es[0].value) + RegStream(es[1..]);
      IndexRoundTrip(es[0].vaddr);
      assert [es[0]] + es[1..] == es;
    }
  }

  /** An execution trace determines the executed instructions. */
  lemma {:induction false} ExecStreamRoundTrip(es: seq<ExecEvent>)
    ensures ReadExecStream(ExecStream(es)) == Some(es)
  {
    hide Uint32, FromUint32;
    if es == [] {
      assert ExecStream(es) == [];
    } else {
      var b := ExecStream(es);
      assert b[0..4] == Uint32(es[0].instr) && b[4..8] == Uint32(es[0].location) && b[8..] == ExecStream(es[1..]);
      Uint32RoundTrip(es[0].instr);
      Uint32RoundTrip(es[0].location);
      ExecStreamRoundTrip(es[1..]);
      assert [es[0]] + es[1..] == es;
    }
  }

  // ----- comparison element by element -----

  /** `RangeEqual`: both ranges end together and agree on the way. */
  method RangeEqual<T(==)>(first: seq<T>, second: seq<T>) returns (equal: bool)
    ensures equal <==> first == second
  {
    var i := 0;
    while i != |first| && i != |second|
      invariant 0 <= i <= |first| && i <= |second|
      invariant first[..i] == second[..i]
    {
      if first[i] != second[i] {
        return false;
      }
      i := i + 1;
    }
    assert i == |first| ==> first[..i] == first;
    assert i == |second| ==> second[..i] == second;
    equal := i == |first| && i == |second|;
  }

  // ----- comparison as C strings -----

  /** The bytes before the first zero. */
  function CString(b: Stream): Stream {
    if b == [] || b[0] == 0 then [] else [b[0]] + CString(b[1..])
  }

  /** `utils::CompareTwoFiles` returns 0: equal sizes, and `strcmp` sees no difference. */
  predicate FilesCompareEqual(a: Stream, b: Stream) {
    |a| == |b| && CString(a) == CString(b)
  }

  /** The comparison of two register traces sees only how many writes there are and which register
      the first one goes to: the second byte of every record's address is zero. */
  lemma RegTracesCompare(a: seq<RegEvent>, b: seq<RegEvent>)
    requires forall e :: e in a || e in b ==> e.vaddr != 0
    ensures FilesCompareEqual(RegStream(a), RegStream(b)) <==>
            |a| == |b| && (a != [] && b != [] ==> a[0].vaddr == b[0].vaddr)
  {
    if a != [] && b != [] {
      RegPrefix(a);
      RegPrefix(b);
      IndexBytes(a[0].vaddr, b[0].vaddr);
    }
  }

  lemma IndexBytes(i: RegIdx, j: RegIdx)
    ensures i as bv8 == j as bv8 <==> i == j
  {
  }

  lemma RegPrefix(es: seq<RegEvent>)
    requires es != [] && es[0].vaddr != 0
    ensures CString(RegStream(es)) == [1, es[0].vaddr as bv8]
  {
    var b := RegStream(es);
    var v := es[0].vaddr as Word;
    AddressBytes(es[0].vaddr);
    assert b[0] == 1 && b[1] == Uint32(v)[0] && b[2] == Uint32(v)[1];
    var b1 := b[1..];
    var b2 := b1[1..];
    assert b1[0] == b[1] && b2[0] == b[2];
    assert CString(b2) == [];
    assert CString(b1) == [b1[0]];
  }

  lemma AddressBytes(i: RegIdx)
    ensures Uint32(i as Word)[0] == i as bv8 && Uint32(i as Word)[1] == 0 && (i as bv8 == 0 <==> i == 0)
  {
  }

  /** Element by element, two streams are equal exactly when the recorded events are. */
  lemma StreamsDetermineEvents(a: seq<RegEvent>, b: seq<RegEvent>, c: seq<MemEvent>, d: seq<MemEvent>,
                               e: seq<ExecEvent>, f: seq<ExecEvent>)
    ensures RegStream(a) == RegStream(b) <==> a == b
    ensures MemStream(c) == MemStream(d) <==> c == d
    ensures ExecStream(e) == ExecStream(f) <==> e == f
  {
    hide RegStream, MemStream, ExecStream, ReadRegStream, ReadMemStream, ReadExecStream;
    RegStreamRoundTrip(a);
    RegStreamRoundTrip(b);
    MemStreamRoundTrip(c);
    MemStreamRoundTrip(d);
    ExecStreamRoundTrip(e);
    ExecStreamRoundTrip(f);
  }

  lemma CStringAt(b: Stream, i: nat)
    requires i < |b|
    ensures CString(b[i..]) == if b[i] == 0 then [] else [b[i]] + CString(b[i + 1..])
  {
    assert b[i..][0] == b[i] && b[i..][1..] == b[i + 1..];
  }

  lemma SameHead(x: bv8, u: Stream, v: Stream)
    ensures [x] + u == [x] + v <==> u == v
  {
    assert ([x] + u)[1..] == u && ([x] + v)[1..] == v;
  }

  /** Byte by byte up to the first zero: wherever all earlier bytes are equal and none of them is zero, the bytes are
      equal. */
  ghost predicate UpToZero(a: Stream, b: Stream)
    requires |a| == |b|
  {
    forall i :: 0 <= i < |a| && (forall j :: 0 <= j < i ==> a[j] == b[j] != 0) ==> a[i] == b[i]
  }

  /** What the comparison of C strings means for the bytes. */
  lemma FilesCompareMeans(a: Stream, b: Stream)
    ensures FilesCompareEqual(a, b) <==> |a| == |b| && UpToZero(a, b)
  {
    if |a| == |b| {
      hide CString;
      assert a[0..] == a && b[0..] == b;
      var i := 0;
      while i < |a| && a[i] == b[i] && a[i] != 0
        invariant 0 <= i <= |a| && forall j :: 0 <= j < i ==> a[j] == b[j] != 0
        invariant CString(a) == CString(b) <==> CString(a[i..]) == CString(b[i..])
      {
        CStringAt(a, i);
        CStringAt(b, i);
        SameHead(a[i], CString(a[i + 1..]), CString(b[i + 1..]));
        i := i + 1;
      }
      if i == |a| {
        assert a[i..] == b[i..];
      } else {
        CStringAt(a, i);
        CStringAt(b, i);
        if a[i] != b[i] && a[i] != 0 && b[i] != 0 {
          assert CString(a[i..])[0] != CString(b[i..])[0];
        }
      }
    }
  }

  /** `utils::CompareTwoFiles`: the sizes, then `strcmp` on the zero-terminated contents. */
  method CompareTwoFiles(a: Stream, b: Stream) returns (result: int)
    ensures result == 0 <==>
      |a| == |b| &&
      forall i :: 0 <= i < |a| && (forall j :: 0 <= j < i ==> a[j] == b[j] != 0) ==> a[i] == b[i]
    ensures result == 0 <==> FilesCompareEqual(a, b)
  {
    FilesCompareMeans(a, b);
    hide FilesCompareEqual;
    if |a| > |b| {
      return 1;
    }
    if |a| < |b| {
      return -1;
    }
    var i := 0;
    while i < |a| && a[i] == b[i] && a[i] != 0
      invariant 0 <= i <= |a| && forall j :: 0 <= j < i ==> a[j] == b[j] != 0
    {
      i := i + 1;
    }
    if i == |a| {
      return 0;
    }
    result := if a[i] == b[i] then 0 else if a[i] < b[i] then -1 else 1;
  }

  // ----- what the comparison sees of a trace -----

  predicate ZeroFree(b: Stream) {
    forall i :: 0 <= i < |b| ==> b[i] != 0
  }

  lemma {:induction false} CStringAppend(u: Stream, v: Stream)
    ensures CString(u + v) == if ZeroFree(u) then u + CString(v) else CString(u)
    ensures ZeroFree(u) ==> CString(u) == u
    ensures !ZeroFree(u) ==> |CString(u)| < |u|
  {
    if u == [] {
      assert u + v == v && [] + CString(v) == CString(v);
    } else {
      assert (u + v)[0] == u[0] && (u + v)[1..] == u[1..] + v;
      CStringAppend(u[1..], v);
      if u[0] != 0 {
        assert ZeroFree(u) <==> ZeroFree(u[1..]) by {
          forall i | 0 <= i < |u[1..]|
            ensures u[1..][i] == u[i + 1]
          {
          }
          if ZeroFree(u[1..]) {
            forall i | 0 <= i < |u|
              ensures u[i] != 0
            {
              if i > 0 {
                assert u[1..][i - 1] != 0;
              }
            }
          }
        }
        assert ZeroFree(u) ==> [u[0]] + u[1..] == u;
      }
    }
  }

  /** Comparing one record and then the rest. */
  lemma CompareAppend(u: Stream, v: Stream, x: Stream, y: Stream)
    requires |u| == |x|
    ensures CString(u + v) == CString(x + y) <==>
            UpToZero(u, x) && (ZeroFree(u) ==> CString(v) == CString(y))
  {
    hide CString;
    CStringAppend(u, v);
    CStringAppend(x, y);
    FilesCompareMeans(u, x);
    if ZeroFree(u) && ZeroFree(x) {
      if u + CString(v) == x + CString(y) {
        assert (u + CString(v))[..|u|] == u && (x + CString(y))[..|u|] == x;
        assert (u + CString(v))[|u|..] == CString(v) && (x + CString(y))[|u|..] == CString(y);
      }
    }
  }

  /** Records of a memory trace agree up to the first zero byte of the first one that has any. */
  ghost predicate MemAgree(a: seq<MemEvent>, b: seq<MemEvent>)
    requires |a| == |b|
  {
    a == [] ||
    var u, x := SetRecord(a[0].code, a[0].vaddr, a[0].value), SetRecord(b[0].code, b[0].vaddr, b[0].value);
    UpToZero(u, x) && (ZeroFree(u) ==> MemAgree(a[1..], b[1..]))
  }

  /** The comparison of two memory traces. */
  lemma {:induction false} MemTracesCompare(a: seq<MemEvent>, b: seq<MemEvent>)
    ensures FilesCompareEqual(MemStream(a), MemStream(b)) <==> |a| == |b| && MemAgree(a, b)
  {
    hide CString, UpToZero, ZeroFree, SetRecord;
    if |a| == |b| && a != [] {
      CompareAppend(SetRecord(a[0].code, a[0].vaddr, a[0].value), MemStream(a[1..]),
                    SetRecord(b[0].code, b[0].vaddr, b[0].value), MemStream(b[1..]));
      MemTracesCompare(a[1..], b[1..]);
    }
  }

  ghost predicate ExecAgree(a: seq<ExecEvent>, b: seq<ExecEvent>)
    requires |a| == |b|
  {
    a == [] ||
    (UpToZero(ExecRecord(a[0]), ExecRecord(b[0])) && (ZeroFree(ExecRecord(a[0])) ==> ExecAgree(a[1..], b[1..])))
  }

  /** The comparison of two execution traces. */
  lemma {:induction false} ExecTracesCompare(a: seq<ExecEvent>, b: seq<ExecEvent>)
    ensures FilesCompareEqual(ExecStream(a), ExecStream(b)) <==> |a| == |b| && ExecAgree(a, b)
  {
    hide CString, UpToZero, ZeroFree, ExecRecord;
    if |a| == |b| && a != [] {
      CompareAppend(ExecRecord(a[0]), ExecStream(a[1..]), ExecRecord(b[0]), ExecStream(b[1..]));
      ExecTracesCompare(a[1..], b[1..]);
    }
  }

  /** The comparison sees nothing of a memory trace that starts with a byte store but its length and that. */
  lemma ByteStoreHides(a: seq<MemEvent>, b: seq<MemEvent>)
    requires a != [] && a[0].code == 0
    ensures FilesCompareEqual(MemStream(a), MemStream(b)) <==> |a| == |b| && b[0].code == 0
  {
    hide CString, Uint32;
    MemTracesCompare(a, b);
    if |a| == |b| {
      var u, x := SetRecord(a[0].code, a[0].vaddr, a[0].value), SetRecord(b[0].code, b[0].vaddr, b[0].value);
      assert u[0] == 0 && x[0] == b[0].code;
    }
  }
}
