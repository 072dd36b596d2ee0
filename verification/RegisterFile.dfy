/** The 32 integer registers together with the stream of register-write records
    (models/pipeline/modules/regfile.h, models/functional/regfile.h). */
module RegisterFile {
  import opened Words

  type Regs = r: seq<Word> | |r| == 32 witness seq(32, _ => 0)

  /** One record of the register trace; its command code is always 1. */
  datatype RegEvent = RegEvent(vaddr: RegIdx, value: Word)

  datatype RegFile = RegFile(regs: Regs, trace: seq<RegEvent>)

  /** All registers zero, nothing recorded. */
  const CLEAR: RegFile :=
    RegFile([0, 0, 0, 0, 0, 0, 0, 0,
             0, 0, 0, 0, 0, 0, 0, 0,
             0, 0, 0, 0, 0, 0, 0, 0,
             0, 0, 0, 0, 0, 0, 0, 0], [])

  function Read(rf: RegFile, i: RegIdx): Word {
    rf.regs[i as int]
  }

  /** The write port: x0 is never written and never recorded. */
  function Write(rf: RegFile, enable: bool, i: RegIdx, value: Word): RegFile {
    if enable && i != 0 then RegFile(rf.regs[i as int := value], rf.trace + [RegEvent(i, value)]) else rf
  }

  lemma ReadAfterWrite(rf: RegFile, enable: bool, i: RegIdx, value: Word, j: RegIdx)
    ensures Read(Write(rf, enable, i, value), j) == if enable && i == j && i != 0 then value else Read(rf, j)
  {
  }

  lemma WriteZero(rf: RegFile, enable: bool, value: Word)
    ensures Write(rf, enable, 0, value) == rf
  {
  }

  /** The register file with another value in register i, without a record of it. */
  function Poke(rf: RegFile, i: RegIdx, value: Word): RegFile {
    RegFile(rf.regs[i as int := value], rf.trace)
  }

  lemma ReadAfterPoke(rf: RegFile, i: RegIdx, value: Word, j: RegIdx)
    ensures Read(Poke(rf, i, value), j) == if i == j then value else Read(rf, j)
  {
  }
}
