# A verified model of the RISC-V co-simulator

The repository holds two models of an RV32I processor, a five-stage pipeline ("cycle model") and an
interpreter ("functional model"), and a co-simulator that runs one program on both and compares what they
record: register writes, memory writes and executed instructions. Its purpose is that the two records are
the same. This project proves that, for all programs of a stated fragment, and it proves that both models
execute the instructions of the RISC-V Instruction Set Manual, Volume I. Where the code departs from the
manual the exact condition is proved instead, together with a concrete program.

`dafny verify dfyconfig.toml` checks the whole project (Dafny 4.11).

## How the model is laid out

| files | what they hold |
|---|---|
| Words, Memory, RegisterFile, Alu | 32-bit words as bit vectors (sums wrap), a byte memory and 32 registers, each with the stream of records it writes |
| PipelineInstruction, ControlSignals, Stages | field extraction, the control unit and the combinational logic of the stages as functions |
| PipelineStep | one clock cycle as a function from the state between two ticks to the next one; `Ticks` iterates it with the preparation that `Run` does |
| Modules, PipelineModel | the classes of the cycle model with their mutable fields; every stage is a method, `Tick` computes `PipelineStep.Tick`, `Run` is the loop around it |
| Datapath | the same logic without a pipeline, one instruction per step, and the conditions (`Benign`) under which the pipeline follows it |
| Refinement, Simulation, Runs | invariant, abstraction, forward simulation of one tick, whole runs, exact cycle counts, drain |
| InstructionSet, Encoding, DecoderAgreement | RV32I written from sections 2.2 to 2.8 of the manual, its encoder, and its agreement with the pipeline's decoder and datapath |
| Integers, InstructionMeaning, Immediates | the numbers that words and bytes stand for, built from byte values: what every operation, comparison, load, store and immediate is as an integer |
| StepMeaning, WordBits | a whole instruction in integers, for the reference, the datapath and the interpreter, also where it departs; what the bits of a word decide about ticks, rejection and termination |
| FunctionalInstruction, Interpreter, FunctionalModel, InterpreterAgreement | the interpreter's decoder macro, its handlers as functions, its class with the dispatch loop, and its agreement with the manual |
| CoSimulation, TraceFormat, TraceMeaning, CoSimulator | both models on one program, the binary trace files, their layout and their comparison, `RunTest` |
| MemoryCoherence | loads see the last stores |
| Limits, Counterexamples | the exact conditions under which the pipeline is right, run from reset, and concrete programs on which each model is wrong |
| QSort, Sieve, Mulsi3 | three shipped workloads: quicksort and sieve on arrays, the compiled multiplication routine as a program on the reference semantics |

The two imperative models are classes. Their methods change the same fields in the same order as the
original, and each method's postcondition gives the new state as a function of the old one
(`PipelineStep`, `Interpreter`). What the repository promises is then proved about those functions.

## The fragment

The pipeline follows the manual on every run whose instructions are `Benign` (module Datapath), a predicate
on states of the sequential machine:

- executed words are not zero and not at address zero (a zero word is the pipeline's bubble, and the filter
  of the execution trace starts from location 0);
- transfer targets are 4-byte aligned and access modes are valid (otherwise the code raises);
- a store does not change the two words behind itself;
- a word that does not decode, including ECALL and EBREAK, is not in the slot behind a taken transfer;
- behind a load and a word that depends on it comes a word that decodes and whose format has the operand
  fields of the dependent word that name the loaded register; and the dependent word's target, computed
  from the load's address instead of the loaded value, is aligned.

`Benign` is sufficient, and not every run outside it goes wrong: a hidden load may go into an unused operand, a
replaced word may be jumped over, a transfer may go to the rejected word itself. `Limits` therefore proves, for each
condition, exactly when something observable is right:

- a rejected word behind an executing instruction: the final state is the program's if and only if the machine is
  not halted and the program ends with that word (an invalid one anywhere, ECALL and EBREAK at that location);
- a load-use halt: the tick goes on if and only if the provisional target is aligned, and the operands are the
  architectural ones if and only if the third word shows them or the stale value is the loaded one;
- a store into one of the two words behind it: the run ever records the program's second instruction if and only if
  that word was not changed, and its third one if and only if the second instruction leaves by a taken transfer or
  that word was not changed;
- address zero and zero words: the first instruction of an empty machine is recorded if and only if neither is zero.

On top of these, both models must agree with the manual on each instruction:
`DecoderAgreement.DatapathIsIsa` (all legal words but FENCE with a destination other than x0) and
`InterpreterAgreement.InterpreterIsIsa` (`Faithful`: non-negative LB and LH, no SH, no JALR that
overwrites its own base, no SRAI, no shift by a register of 32 or more) are exact.

Words, memory, register file and their elementary operations are shared by the two models and the reference. What
each of them computes is therefore stated without it, in integers and bytes: `StepMeaning.StepMeans` for the reference,
`StepMeaning.RoundMeans` for the interpreter on every legal word, `InstructionMeaning.StoreValueMeans` and
`RecordsAfter` for the memory and its trace, `WordBits` for the hazard unit and the decoders.

Two places where the code and its own text disagree, both followed as code:

- utils/system.cpp:172 says that the file comparison "also works for binary files". It uses `strcmp`, which
  stops at the first zero byte: `TraceFormat.RegTracesCompare` shows that on two register traces it sees only
  their lengths and the register of the first write. The co-simulation theorem is therefore about the
  records themselves and not about the comparison's verdict, and `RunTest` states both.
- examples/qsort/qsort.c:26 is called `Median` and is not one; `QSort.Median` says what it returns.

## Model

| member | source | states |
|---|---|---|
| Simulation.TickRefines | models/pipeline/pipeline/pipeline.cpp:12-30 | forward simulation: from every state of the invariant one tick is exactly one instruction of the sequential machine if the execute stage holds one and is not halted, and none otherwise; the invariant is kept and each tick is accounted to an instruction; a stop happens exactly at a word that does not decode and leaves the state just before it |
| Simulation.TickFetches | models/pipeline/pipeline/pipeline.cpp:33-61 | an empty machine fetches the word at the abstract program counter and nothing else becomes visible |
| Simulation.TickDecodes | models/pipeline/pipeline/pipeline.cpp:64-107 | the first decoded instruction enters the execute stage with operands equal to the architectural registers |
| Simulation.TickExecutes | models/pipeline/pipeline/pipeline.cpp:110-173 | a tick that executes an instruction that does not redirect performs one sequential step, and the machine halts afterwards exactly if that step is a load on which the next word depends |
| Simulation.TickRedirects | models/pipeline/pipeline/pipeline.cpp:211-219 | a taken transfer performs one sequential step and leaves both younger stages empty, with the stale bypass selectors harmless |
| Simulation.TickHalts | models/pipeline/pipeline/pipeline.cpp:157-172 | a halted tick changes nothing that the abstraction sees and ends the halt with both operands right |
| Simulation.HaltProtocol | models/pipeline/pipeline/pipeline.cpp:161-208 | in every reachable state a halt waits for a load, lasts one tick, holds the three front registers, injects one bubble, and has at most one operand in write-back, so that one saved value suffices |
| Simulation.HaltForwards | models/pipeline/pipeline/pipeline.cpp:111-123 | after a halt each operand that did not wait is the one selected before (through the saved value), and each that waited is the loaded value if the format of the decoded word shows it and the stale one if not |
| Simulation.HaltEndsReady | models/pipeline/pipeline/pipeline.cpp:161-172 | if the decoded word does not hide the dependence, both operands equal the architectural registers after the halt |
| Simulation.HazardUnitSelects | models/pipeline/pipeline/pipeline.cpp:221-261 | the selectors chosen for the instruction that enters execute yield its architectural operands when the machine does not halt, and the waiting state when it does |
| Simulation.OperandsAfterRun | models/pipeline/pipeline/pipeline.cpp:211-267 | after an executing tick the next instruction's operands are right, or the machine is halted exactly because of a load that the next instruction depends on |
| Simulation.HaltIsProvisional | models/pipeline/pipeline/pipeline.cpp:116-123 | during a halt the execute stage computes with the load's address in place of the loaded value |
| Simulation.UnusedOperands | models/pipeline/pipeline/control_unit.h:54-175 | the control signals never let an operand that the format lacks influence a result |
| Simulation.Drains | models/pipeline/pipeline/pipeline.cpp:276-296 | the drain performs every outstanding store and write-back exactly once and in program order |
| Simulation.TickStops | models/pipeline/pipeline/pipeline.cpp:78-91 | at a word that does not decode the machine leaves exactly the registers, memory and traces of the sequential machine just before that word, with ECALL and EBREAK recorded |
| Runs.StartRefines | models/pipeline/pipeline/pipeline.h:88-116 | the reset state satisfies the invariant and abstracts to the program's start state |
| Runs.RunRefines | models/pipeline/pipeline/pipeline.cpp:298-320 | after any number of iterations of the loop the machine stands at a point of the sequential run, with the tick count split into finished and unfinished instructions |
| Runs.PrepareRefines | models/pipeline/pipeline/pipeline.cpp:304-307 | pointing the idle data memory unit at the program in the first two ticks changes nothing visible |
| Runs.CyclesGrow | models/pipeline/pipeline/pipeline.cpp:211-267 | every instruction costs between one and three ticks |
| Runs.Progress | models/pipeline/pipeline/pipeline.cpp:157-172 | among any three consecutive ticks at least one executes an instruction |
| Runs.Reaches | models/pipeline/pipeline/pipeline.cpp:303-310 | conversely every point of the sequential run is reached, point n within 3n ticks |
| Runs.RunHalts | models/pipeline/pipeline/pipeline.cpp:298-320 | a run that ends after n instructions stops with `ticks_counter` equal to n + 2 * taken transfers + load-use halts + 1, and with the registers, memory and traces of the sequential machine; what counts as taken and as a halt is `WordBits.TakenMeans` and `WordBits.StallsMeans` |
| Runs.RunningIsEarly | models/pipeline/pipeline/pipeline.cpp:303-310 | the loop has not ended only while its time is not used up, which is why it terminates |
| Runs.StoppedIsEnd | models/pipeline/pipeline/pipeline.cpp:311-318 | if the loop has ended it has ended at the end of the program |
| Limits.HaltIsRightExactlyWhenCovered | models/pipeline/pipeline/pipeline.cpp:221-222 | a halt ends with the right operands if and only if for each waiting operand the format of the word in decode has that field, or the stale value equals the loaded one |
| Limits.HaltedTickRuns | models/pipeline/pipeline/pipeline.cpp:47-51 | a halted machine goes on if and only if its provisional target is aligned, and raises otherwise |
| Limits.StopIsRightExactlyWhenNext | models/pipeline/pipeline/pipeline.cpp:78-91 | a word that the decoder rejects (ECALL, EBREAK or invalid) behind an executing instruction ends the run correctly if and only if the machine is not halted and the program ends there: with that word at that location for ECALL and EBREAK, with an invalid word for the others; also when the instruction replaces the word |
| Limits.RejectedInShadow | models/pipeline/pipeline/pipeline.cpp:78-91 | from reset: a rejected second word ends the run in the third tick wherever the first instruction went, with that instruction's registers, memory and trace, which is right if and only if the program ends there |
| Limits.FirstIsRecorded | models/pipeline/pipeline/pipeline.cpp:345-352 | the first instruction that an empty machine fetches, after reset or a taken transfer, is recorded as executed if and only if neither its word nor its address is zero |
| Limits.FirstFromReset | models/pipeline/pipeline/pipeline.cpp:298-310 | the same from reset, where every step of the sequential machine is recorded |
| Limits.HaltFromReset | models/pipeline/pipeline/pipeline.cpp:211-267 | from reset, for a load followed by a dependent word and any word that decodes: the halted tick goes on if and only if the provisional target is aligned, and then the dependent word gets the right operands if and only if the third word's format shows them or the register already held the loaded value; a hidden operand is the register's value from before the load |
| Limits.StopDuringHalt | models/pipeline/pipeline/pipeline.cpp:157-159 | a word that does not decode right behind a halted instruction ends the run without that instruction ever being recorded |
| Limits.StoreOneBehind | models/pipeline/pipeline/pipeline.cpp:54-55 | from reset, when the first instruction goes on to the second: the run records the program's second instruction, in tick four or ever after, if and only if the first one did not change that word |
| Limits.StoreTwoBehind | models/pipeline/pipeline/pipeline.cpp:54-55 | when the second one too is as it was fetched: the run records the third instruction, in tick seven or ever after, if and only if the second leaves by a taken transfer or the word behind it was not changed |
| Limits.SecondLeaves | models/pipeline/pipeline/pipeline.cpp:211-219 | in the case of the taken transfer the machine is back in the invariant at the program's state, whatever was stored |
| Limits.TicksGrow | models/pipeline/pipeline/pipeline.cpp:345-352 | the execution trace of any run only grows, so what is recorded wrongly stays wrong |
| Counterexamples.JumpOverEcall | models/pipeline/pipeline/pipeline.cpp:78-91 | jal over an ecall: the program goes on, the pipeline stops |
| Counterexamples.JumpOverData | models/pipeline/pipeline/pipeline.cpp:88-91 | jal over data: the manual goes on behind them, the pipeline raises on them |
| Counterexamples.NopAtZero | models/pipeline/pipeline/pipeline.cpp:345-352 | a nop at address zero is executed and not recorded |
| Counterexamples.ZeroWordPasses | models/pipeline/pipeline/pipeline.cpp:345-352 | a zero word, which the manual rejects, passes unrecorded |
| Counterexamples.UpperHidesLoad | models/pipeline/pipeline/pipeline.cpp:221-222 | lw, addi, lui: the addition executes with the value from before the load, x6 becomes 0 where the manual has the loaded word |
| Counterexamples.HaltedJumpRaises | models/pipeline/pipeline/pipeline.cpp:47-51 | lw, jalr: the jump target is aligned, the pipeline raises a misalignment |
| Counterexamples.EcallDuringHalt | models/pipeline/pipeline/pipeline.cpp:157-159 | lw, addi, ecall: the addition is missing from the execution trace |
| Counterexamples.FalseMatchCostsATick | models/pipeline/pipeline/pipeline.cpp:242-261 | lw x5, addi x6,x7,5, nop, ecall: the immediate 5 in the rs2 field halts the pipeline, and three instructions end with the tick counter at 5 |
| Counterexamples.StoreIntoNext | models/pipeline/pipeline/pipeline.cpp:54-55 | sw over the next word: the program executes the stored nop, the pipeline never records it at any tick |
| Counterexamples.StoreTwoAhead | models/pipeline/pipeline/pipeline.cpp:54-55 | the same two words ahead |
| Counterexamples.FenceWrites | models/pipeline/pipeline/control_unit.h:56-63 | a fence with rd = x1 overwrites x1 = 7 with 0 and records it, where the manual keeps it |
| Counterexamples.ByteLosesSign | models/functional/model.cpp:177-182 | an lb of 0x83 gives -125 in the manual and 131 in the interpreter |
| Counterexamples.HalfLosesSign | models/functional/model.cpp:184-189 | an lh of 0x9283 gives -28029 in the manual and 37507 in the interpreter |
| Counterexamples.HalfStoresByte | models/functional/model.cpp:219-224 | an sh of 0x1234 leaves 0 in the second byte, where the manual stores 0x12 |
| Counterexamples.ShiftTooFar | models/functional/model.cpp:295-301 | an srai is an undefined shift, where the manual goes on |
| Counterexamples.ShiftByRegister | models/functional/model.cpp:319-324 | an sll by a register that holds 32 is undefined, where the manual shifts by 0 |
| Counterexamples.LinkOverwritesBase | models/functional/model.cpp:136-141 | jalr x1,0(x1) with x1 = 0 goes to the link address 0x104, where the manual goes to 0 |
| Counterexamples.DifferentTracesCompareEqual | utils/system.cpp:173-206 | two different register traces compare equal as files |
| Counterexamples.NopThenEcall | co_simulator/co_simulator.cpp:60-78 | the fragment is inhabited: a program that both models run to its ECALL |
| PipelineModel.PipelineModel.constructor | models/pipeline/pipeline/pipeline.h:22-22 | a new model is in the reset state |
| PipelineModel.PipelineModel.Tick | models/pipeline/pipeline/pipeline.cpp:12-30 | the stage methods, the clock edge and the hazard unit together compute the circuit's next state, or raise what the circuit raises and leave the drained state; the three enable flags agree in every state between ticks |
| PipelineModel.PipelineModel.Run | models/pipeline/pipeline/pipeline.cpp:298-320 | from any state, the loop on any run that ends leaves the loop with the cause and the registers, memory, traces and tick count of the circuit |
| PipelineModel.PipelineModel.Iterate | models/pipeline/pipeline/pipeline.cpp:303-310 | one iteration of the loop on any run at all, ending or not, is one tick of the circuit with the idle port prepared |
| PipelineModel.PipelineModel.DoMemory | models/pipeline/pipeline/pipeline.cpp:176-192 | memory, the write-back record and the bypass value are those of the memory access of the circuit; it fails exactly on an invalid mode, and then memory is unchanged |
| PipelineModel.PipelineModel.DoExecute | models/pipeline/pipeline/pipeline.cpp:110-173 | next memory record, redirect flag and displacement are the execute logic of the forwarded operands; the trace filter runs only when not halted; a halt saves the value that leaves write-back |
| Simulation.ExecuteRefines | models/pipeline/pipeline/pipeline.cpp:110-154 | with the invariant, the execute stage on its multiplexed operands computes what the instruction computes on the architectural registers, and redirects exactly if it does |
| PipelineModel.PipelineModel.Compute | models/pipeline/pipeline/pipeline.cpp:124-154 | the assignments of the execute stage, in their order, amount to one record function |
| PipelineModel.PipelineModel.DoDecode | models/pipeline/pipeline/pipeline.cpp:64-107 | the register file is written and read, and either the execute record is that of the decode logic or the exception comes out after the drain, with everything else unchanged |
| PipelineModel.PipelineModel.Decode | models/pipeline/pipeline/pipeline.cpp:65-79 | the part of the decode stage up to the exception |
| PipelineModel.PipelineModel.DoLastTicks | models/pipeline/pipeline/pipeline.cpp:276-296 | both in-flight results reach memory and registers, once each and in order |
| PipelineModel.PipelineModel.DoFetch | models/pipeline/pipeline/pipeline.cpp:33-61 | the next program counter is the adder's; it raises exactly when that is misaligned, and only otherwise loads the decode record |
| PipelineModel.PipelineModel.HazardUnitTick | models/pipeline/pipeline/pipeline.cpp:211-267 | a redirect clears the two younger registers and keeps the selectors; otherwise both selectors follow the bypass rules and all three enable flags are set alike |
| PipelineModel.PipelineModel.SelectOperands | models/pipeline/pipeline/pipeline.cpp:228-261 | the two selectors, and a halt exactly if one of them waits for a load |
| WordBits.LoadConflictMeans | models/pipeline/pipeline/instruction.h:68-75 | on the bits of the word: a dependence on a load into rd is seen if and only if rd is not x0 and bits 19:15 are rd and the opcode is none of LUI, AUIPC, JAL, or bits 24:20 are rd and the opcode is one of the seven with such a field, immediates included |
| WordBits.StallsMeans | models/pipeline/pipeline/pipeline.cpp:228-261 | the load-use halts that the tick count contains, on the bits of the two words |
| WordBits.TakenMeans | models/pipeline/pipeline/pipeline.cpp:124-154 | the redirects that it contains: jumps, and branches whose condition holds for the integers in the registers |
| WordBits.UsesMeans | models/pipeline/pipeline/control_unit.h:54-75 | which words take their operands from rs1 and rs2 and not from an immediate, on the bits of the word |
| PipelineModel.PipelineModel.TickRegisters | models/pipeline/pipeline/pipeline.cpp:19-24 | the clock edge moves each register according to its flag; a halt clears the memory record first |
| PipelineModel.PipelineModel.SetEnableFlags | models/pipeline/pipeline/pipeline.cpp:198-208 | halting and restarting set exactly the three front flags |
| PipelineModel.PipelineModel.TraceExecutedInstruction | models/pipeline/pipeline/pipeline.cpp:345-352 | the location filter of the execution trace |
| PipelineModel.PipelineModel.SetPC | models/pipeline/pipeline/pipeline.h:29-32 | only the program counter changes |
| PipelineModel.PipelineModel.InitSP | models/pipeline/pipeline/pipeline.h:33-36 | x2 is set and recorded, nothing else changes |
| Modules.RegFile.Tick | models/pipeline/modules/regfile.h:14-25 | the register file after a tick is the old one with the enabled write to a register other than x0, recorded, and both reads see it |
| Modules.RegFile.InitSP | models/pipeline/modules/regfile.h:43-50 | x2 is set and recorded |
| Modules.DataMemUnit.Tick | models/pipeline/modules/data_mem_unit.h:72-79 | memory after a tick is the result of the store if one is enabled and unchanged if not; it fails exactly on an invalid mode |
| Modules.DataMemUnit.StoreValue | models/pipeline/modules/data_mem_unit.h:114-129 | the bytes and the record of each store mode, and failure without effect for the others |
| InstructionMeaning.StoreValueMeans | models/pipeline/modules/data_mem_unit.h:114-129 | each store mode writes the low base-256 digits of the value, one to each of its addresses and nothing else, and appends one record with its width code, its address and the value modulo 2^(8 * width); the other modes fail |
| InstructionMeaning.RecordsAfter | models/shared/mmu_fixed_offset.h:55-75 | after any stores the memory trace holds one such record for each, in order |
| Modules.ControlUnit.Tick | models/pipeline/pipeline/control_unit.h:38-206 | all control signals of an accepted instruction, or the exception of a rejected one |
| WordBits.RejectedMeans | models/pipeline/pipeline/control_unit.h:38-206 | on the bits of the word: which words raise, and which exception |
| WordBits.UnknownWritesZero | models/pipeline/pipeline/control_unit.h:54-167 | a word with any other opcode is executed as writing 0 to the register in its rd field |
| DecoderAgreement.OpSignals | models/pipeline/pipeline/control_unit.h:77-119 | a register operation of the manual gets exactly the control signals of its own ALU operation on two registers |
| DecoderAgreement.OpImmSignals | models/pipeline/pipeline/control_unit.h:120-160 | an immediate operation of the manual gets those of its own ALU operation on a register and the I-immediate |
| DecoderAgreement.BranchSignals | models/pipeline/pipeline/control_unit.h:180-205 | a branch of the manual gets exactly the signals of its own comparison and neither writes nor jumps otherwise |
| DecoderAgreement.DatapathIsIsa | models/pipeline/pipeline/control_unit.h:38-206 | for every legal word and every state, decoder, immediates, ALU, comparator and memory stage together perform the manual's instruction, if and only if the word is not a FENCE with rd other than x0 |
| StepMeaning.DatapathMeans | models/pipeline/pipeline/pipeline.cpp:110-192 | the same in integers: the next program counter (for JALR the base plus the immediate modulo 2^32 without its lowest bit), the only register written, its value and record, the bytes and the record of a store, and when a transfer is misaligned |
| DecoderAgreement.FieldsAgree | models/pipeline/pipeline/instruction.h:20-42 | the extracted fields are those of section 2.2 of the manual |
| DecoderAgreement.ImmediatesAgree | models/pipeline/pipeline/instruction.h:77-183 | for every word the immediate is the one of section 2.3 for the format of its opcode |
| Immediates.BlockMeans | models/pipeline/pipeline/instruction.h:77-183 | as an integer it is the number that section 2.3 puts together from the bit fields of the word: I and S in [-2048, 2047], B even in [-4096, 4094], J even in [-2^20, 2^20 - 2], U a multiple of 4096 |
| Immediates.GettersMean | models/functional/instruction.h:191-313 | and the five getters of the interpreter yield the same integers |
| InstructionMeaning.AluMeans | models/pipeline/modules/alu.h:63-95 | the ALU result of every operation as an integer: sums modulo 2^32, signed and unsigned order, shifts by the low five bits as products and floor quotients of powers of two, logical operations bit by bit |
| InstructionMeaning.ComputedMeans | models/functional/model.cpp:233-379 | the same integers for every operation of the interpreter, with registers and with immediates, apart from the shifts by 32 or more that it leaves undefined |
| InstructionMeaning.CmpMeans | models/pipeline/modules/cmp.h:47-66 | every comparison of the comparator compares the signed or unsigned integers of its operands, and without a comparison it yields false |
| InstructionMeaning.TakenMeans | models/functional/model.cpp:143-175 | and so does every branch of the interpreter |
| Integers.SignedLessMeans | models/pipeline/modules/cmp.h:55-56 | the signed comparison of words is the order of their two's-complement integers |
| Integers.ShiftRightArithmeticMeans | models/pipeline/modules/alu.h:84-86 | the arithmetic right shift is floor division of the signed integer by a power of two |
| Integers.ClearBitZeroMeans | models/pipeline/pipeline/pipeline.cpp:147-149 | a JALR target loses its lowest bit and nothing else |
| Integers.AlignedMeans | models/pipeline/pipeline/pipeline.cpp:47-50 | the alignment test is divisibility by four |
| DecoderAgreement.SignExtends | models/pipeline/modules/common.h:14-27 | the or-masks are two's-complement sign extension |
| InstructionMeaning.LoadMeans | models/pipeline/modules/data_mem_unit.h:81-97 | the value of every load as an integer: its bytes, little-endian, signed for LB and LH and unsigned for the others |
| DecoderAgreement.FenceWritesZero | models/pipeline/pipeline/control_unit.h:54-63 | FENCE writes 0 to its rd field's register, where the manual's FENCE writes nothing |
| Encoding.DecodeEncode | models/pipeline/pipeline/instruction.h:77-183 | every instruction of RV32I with every immediate in range is the meaning of its encoding |
| Encoding.DecodedIsEncodable | models/pipeline/pipeline/instruction.h:77-183 | and every legal word decodes to one of these |
| Immediates.FitsMean | models/pipeline/pipeline/instruction.h:143-180 | the range conditions of the encoder are these ranges of integers |
| Immediates.ShortImmediates | models/pipeline/pipeline/instruction.h:148-159 | an integer is an I- or S-immediate of some word if and only if it is in [-2048, 2047] |
| Immediates.BranchOffsets | models/functional/instruction.h:249-265 | an integer is the offset of some branch if and only if it is even and in [-4096, 4094] |
| Immediates.JumpOffsets | models/functional/instruction.h:294-312 | an integer is the offset of some JAL if and only if it is even and in [-2^20, 2^20 - 2] |
| FunctionalModel.FunctionalModel.Run | models/functional/model.cpp:47-115 | from any state, the dispatch loop on any run that ends in round n + 1 returns, aborts or meets an undefined shift as that round does, in its state, and has counted n + 1 instructions |
| FunctionalModel.FunctionalModel.Round | models/functional/model.cpp:108-114 | one round traces the word, decodes it and performs its handler |
| FunctionalModel.FunctionalModel.Handle | models/functional/model.cpp:113-398 | the dispatch reaches the handler of each name |
| FunctionalModel.FunctionalModel.Upper | models/functional/model.cpp:116-127 | LUI and AUIPC |
| FunctionalModel.FunctionalModel.Jump | models/functional/model.cpp:129-141 | JAL, and JALR with rd written before rs1 is read |
| FunctionalModel.FunctionalModel.Branch | models/functional/model.cpp:143-175 | the six branches |
| FunctionalModel.FunctionalModel.Load | models/functional/model.cpp:177-210 | the five loads, as unsigned bytes and half-words |
| FunctionalModel.FunctionalModel.Store | models/functional/model.cpp:212-231 | the three stores, SH as a byte |
| FunctionalModel.FunctionalModel.OpImm | models/functional/model.cpp:233-301 | the nine operations with an immediate; a shift by 32 or more is reported as undefined |
| FunctionalModel.FunctionalModel.Op | models/functional/model.cpp:303-379 | the ten register operations, likewise |
| FunctionalModel.FunctionalModel.Fence | models/functional/model.cpp:381-385 | FENCE is skipped |
| FunctionalModel.FunctionalModel.End | models/functional/model.cpp:387-399 | ECALL and EBREAK return, an unknown name aborts |
| FunctionalModel.RV32IRegFile.WriteReg | models/functional/regfile.h:17-26 | x0 is stored as zero and not recorded, any other register is stored and recorded |
| FunctionalModel.RV32IRegFile.ReadReg | models/functional/regfile.h:27-27 | the register's value |
| FunctionalModel.FunctionalModel.InitSP | models/functional/model.h:25-28 | x2 is set and recorded |
| FunctionalModel.FunctionalModel.SetPC | models/functional/model.h:22-24 | the program counter is set |
| InterpreterAgreement.InterpreterIsIsa | models/functional/model.cpp:105-400 | for every legal word and every state one round of the interpreter is the manual's instruction if and only if the state is `Faithful`, except where the manual raises a misaligned target |
| StepMeaning.RoundMeans | models/functional/model.cpp:105-400 | the interpreter in integers on every legal word, also where it departs from the manual: loads as non-negative numbers, SH as SB in bytes and record, JALR from the link address when it overwrites its base, undefined shifts, no misalignment |
| InterpreterAgreement.MisalignedGoes | models/functional/model.cpp:129-175 | there the interpreter goes on; only at a misaligned instruction may it be an undefined shift instead |
| InterpreterAgreement.SwitchDecoderAgrees | models/functional/decoder.h:8-176 | the decoder macro names every legal word as the manual does |
| WordBits.RoundTerminates | models/functional/decoder.h:8-176 | on the bits of the word: the interpreter terminates if and only if the opcode is unknown, or the funct3 of a branch, load or store is |
| WordBits.LegalMeans | models/functional/decoder.h:8-176 | the words for which both decoders are shown to agree with the manual are exactly those of RV32I: opcodes with their funct3 and funct7, and the two system words |
| WordBits.NamedAsTwin | models/functional/decoder.h:8-176 | every other word has the name of a legal word with the same registers, so illegal words are executed as that one |
| InterpreterAgreement.Decoded | models/functional/instruction.h:191-313 | for every legal word the decoder macro, the register getters and the five immediate getters yield the name, fields and immediates of the manual's instruction |
| InterpreterAgreement.LoadedAgrees | models/functional/model.cpp:177-210 | a load is the manual's if and only if LB and LH read a non-negative value |
| InstructionMeaning.LoadedMeans | models/functional/model.cpp:177-210 | the value of every load is the little-endian number of its bytes |
| InterpreterAgreement.StoredAgrees | models/functional/model.cpp:212-231 | a store is the manual's if and only if it is not SH |
| InstructionMeaning.StoredMeans | models/functional/model.cpp:212-231 | the bytes and the record of every store, those of SB for SH |
| InterpreterAgreement.JalrRounds | models/functional/model.cpp:136-141 | JALR is the manual's if and only if rd is x0, differs from rs1, or the link address leads to the same target |
| InterpreterAgreement.OpRounds | models/functional/model.cpp:233-379 | register and immediate operations are the manual's if and only if no shift amount reaches 32 |
| InterpreterAgreement.WriteRegAgrees | models/functional/regfile.h:17-26 | with x0 equal to zero the two register files write and record alike |
| CoSimulation.PipelineFollowsManual | models/pipeline/pipeline/pipeline.cpp:298-320 | for every benign program of legal words, after any number of ticks the pipeline is at a state of the manual's run, and if it has stopped it holds that run's final registers, memory, traces and cause |
| CoSimulation.StepsAreManual | models/pipeline/pipeline/control_unit.h:38-206 | the sequential machine and the manual go through the same states |
| CoSimulation.StepsFollowManual | models/pipeline/pipeline/control_unit.h:38-206 | from any point of a legal run the sequential machine follows the manual for as long as the manual goes on |
| CoSimulation.RoundsFollowSteps | models/functional/model.cpp:105-400 | the interpreter and the sequential machine go through the same states of the manual |
| CoSimulation.ModelsAgree | co_simulator/co_simulator.cpp:60-78 | for every program of the fragment that ends, both models return the same code and leave the same registers, memory and three streams of records, namely those of the manual's run |
| CoSimulator.RunTest | co_simulator/co_simulator.cpp:60-78 | on any program on which the models end, the result is none if the interpreter aborts or the pipeline rethrows, and otherwise the mask of the traces that differ as files, of exactly the states that the two specifications end in |
| CoSimulator.AgreedTest | co_simulator/co_simulator.cpp:60-82 | for a program of the fragment that result is 0, and the two models hold equal registers, memory and streams, with the exact tick count |
| CoSimulator.CompareTraces | co_simulator/co_simulator.cpp:80-103 | bit 4 of the mask is clear if and only if the register traces compare equal, bit 8 the memory traces, bit 16 the execution traces, and there are no other bits |
| CoSimulator.RunFunctional | models/functional/model.cpp:14-32 | the interpreter from a loaded program to its end, however it ends |
| CoSimulator.RunPipeline | models/pipeline/pipeline/pipeline.cpp:322-341 | the pipeline from a loaded program to its end, however it ends |
| TraceFormat.RegStreamRoundTrip | models/shared/trace_writer.h:91-101 | the 9-byte register records decode to the writes they were made from |
| TraceMeaning.Uint32Means | models/shared/trace_writer.h:82-89 | numbers are written little-endian, four bytes each |
| TraceMeaning.RegRecordAt | models/shared/trace_writer.h:91-101 | record k of a register trace is at byte 9k: the code 1, the register, the value |
| TraceMeaning.MemRecordAt | models/shared/trace_writer.h:103-113 | record k of a memory trace is at byte 9k: the width code, the address, the value |
| TraceMeaning.ExecRecordAt | models/shared/trace_writer.h:115-126 | record k of an execution trace is at byte 8k: the instruction, then its location |
| TraceFormat.MemStreamRoundTrip | models/shared/trace_writer.h:103-113 | the 9-byte memory records decode to the stores they were made from |
| TraceFormat.ExecStreamRoundTrip | models/shared/trace_writer.h:115-126 | the 8-byte records decode to the executed instructions they were made from |
| TraceFormat.StreamsDetermineEvents | models/shared/trace_writer.h:91-126 | two streams are equal if and only if their events are |
| TraceFormat.RangeEqual | co_simulator/co_simulator.cpp:6-19 | true if and only if the two ranges are equal |
| TraceFormat.CompareTwoFiles | utils/system.cpp:173-206 | zero if and only if the sizes are equal and every byte is equal before which all bytes are equal and none is zero |
| TraceFormat.RegTracesCompare | utils/system.cpp:205-205 | on register traces it is zero if and only if there are equally many writes and the first ones go to the same register |
| TraceFormat.MemTracesCompare | utils/system.cpp:205-205 | on memory traces it is zero if and only if there are equally many records and they agree byte by byte up to the first zero |
| TraceFormat.ExecTracesCompare | utils/system.cpp:205-205 | the same on execution traces |
| TraceFormat.ByteStoreHides | utils/system.cpp:205-205 | of a memory trace that starts with a byte store it sees only the length and that |
| MemoryCoherence.Coherent | models/shared/mmu_fixed_offset.h:45-75 | after any sequence of stores every address holds the byte most recently stored there, little-endian |
| MemoryCoherence.StoreWrites | models/pipeline/modules/data_mem_unit.h:114-129 | one store changes exactly the one, two or four bytes it covers |
| InstructionMeaning.LoadAfterStores | models/pipeline/modules/data_mem_unit.h:81-97 | after any sequence of byte, half-word and word stores, overlapping or not, a load in each of the five modes yields the integer made of the bytes stored last at its addresses, sign- or zero-extended; other modes fail |
| MemoryCoherence.WordRoundTrip | models/shared/mmu_fixed_offset.h:45-61 | a stored word is read back |
| MemoryCoherence.WordKeeps | models/shared/mmu_fixed_offset.h:55-61 | a word that does not overlap a store is unchanged |
| MemoryCoherence.FreshIsZero | models/shared/mmu_fixed_offset.h:24-24 | memory that nobody has written reads as zero |
| RegisterFile.ReadAfterWrite | models/pipeline/modules/regfile.h:14-25 | a read sees the write to its register, x0 excepted |
| QSort.QSort | examples/qsort/qsort.c:78-93 | for every array and range, both recursion orders and the insertion-sort cut-off, it terminates and leaves the range sorted, a permutation of what it was, and the rest untouched |
| QSort.RangeShrinks | examples/qsort/qsort.c:83-92 | the recursion is called on the same range again only if the range now starts with its minimum and did not before; this makes it terminate |
| QSort.MinimumPivot | examples/qsort/qsort.c:83-83 | for a range that starts with its minimum the chosen pivot is larger than it, or occurs a second time further on |
| QSort.Partition | examples/qsort/qsort.c:34-76 | for any pivot it terminates and permutes the range so that nothing before mid is above the pivot and nothing after it below; if the pivot occurs it is at mid; if it is first and occurs again, mid is not the first position |
| QSort.Shrink | examples/qsort/qsort.c:40-73 | one pass of the scan loop shrinks the window, keeps a pivot that occurs inside it, and ends early only on a correct result |
| QSort.CarryPivot | examples/qsort/qsort.c:55-62 | the inner loop keeps the pivot at the moving end of the window |
| QSort.ScanExchanges | examples/qsort/qsort.c:48-53 | the exchanging branches keep the scan invariant |
| QSort.ScanEnds | examples/qsort/qsort.c:40-75 | when the window has closed the range is partitioned |
| QSort.Median | examples/qsort/qsort.c:26-32 | one of its arguments, never above the third, and the larger of the first two unless the third is smaller |
| QSort.InsertionSort | examples/qsort/qsort.c:10-24 | sorts the range by permuting it |
| QSort.Insert | examples/qsort/qsort.c:16-22 | the inner loop extends the sorted part by one element |
| QSort.Swap | examples/qsort/qsort.c:4-8 | exchanges two elements and changes nothing else |
| QSort.VerifySort | examples/qsort/qsort.c:95-102 | 0 if and only if the elements are in order, -1 otherwise |
| QSort.SortData | examples/qsort/qsort.c:104-117 | the program returns 0 on any data |
| QSort.SortedIsUnique | examples/qsort/qsort.c:78-93 | a sorted permutation is unique, so the fast sort and the simple one have the same result |
| Sieve.SieveOfEratosthenes | examples/eratosthenes_sieve/eratosthenes_sieve.c:5-24 | for every n from 2 on it terminates; no operation leaves the range of int if and only if n <= 46337 * 46337, and then there is -1 exactly in the slots of composite numbers and the number itself in the others, except that the square of an odd prime stays in the last slot |
| Sieve.RightExactlyWhen | examples/eratosthenes_sieve/eratosthenes_sieve.c:20-22 | the result is right if and only if n is not the square of an odd prime |
| Sieve.Strike | examples/eratosthenes_sieve/eratosthenes_sieve.c:8-16 | the multiples of a number from its square on are crossed out, and only these, unless an int overflows, which does not happen within the bound |
| Sieve.NextPrime | examples/eratosthenes_sieve/eratosthenes_sieve.c:18-19 | the scan stops at the next number that is not crossed out and passes no prime, unless an int overflows; from a prime below 46337 it does not and reaches at most 46337 |
| Sieve.SieveNumbers | examples/eratosthenes_sieve/eratosthenes_sieve.c:27-41 | the program for any n: it overflows if and only if n > 46337 * 46337, and otherwise returns -1 for a composite n that is not the square of an odd prime, and n for the others |
| Sieve.EndsWithin | examples/eratosthenes_sieve/eratosthenes_sieve.c:18-22 | when the loop leaves at line 20 without an overflow, n is at most 46337 * 46337 |
| Sieve.LaterSquares | examples/eratosthenes_sieve/eratosthenes_sieve.c:20-20 | every later prime has a square that overflows an int |
| Sieve.NineAndNinetySeven | examples/eratosthenes_sieve/eratosthenes_sieve.c:40-40 | 97, the shipped size, is prime; 9 is a size that goes wrong |
| Mulsi3.Multiplies | examples/matrix_mult/matrix_mult.dis:298-307 | called with any two words the routine reaches its return after at most 194 instructions with the product modulo 2^32 in a0 and 0 in a1, memory and all registers but a0 to a3 unchanged |
| Mulsi3.MultipliesOnPipeline | examples/matrix_mult/matrix_mult.dis:298-307 | whenever a benign program of legal words calls the routine, the pipeline too reaches a tick at which the product is in a0 |
| Mulsi3.BothMultiply | examples/matrix_mult/matrix_mult.dis:298-307 | the routine as a program of its own, for any two words and any return address that is aligned without its lowest bit and holds an ECALL: both models end there, for an aligned address at that very address, within 195 instructions, with equal streams and the product in a0 |
| Mulsi3.RoutineIsAgreed | examples/matrix_mult/matrix_mult.dis:298-307 | called from any aligned address, every instruction of the routine is benign for the pipeline and executed alike by both models, and leads to another one of the routine or back to the caller |
| Mulsi3.Loop | examples/matrix_mult/matrix_mult.dis:300-306 | the loop adds a2 * a1 to a0 in at most 32 rounds of at most six instructions |
| Mulsi3.Returns | examples/matrix_mult/matrix_mult.dis:307-307 | the return goes to the caller's address without its lowest bit, as an integer, and to that very address if it is aligned, with all registers and memory unchanged; it is misaligned otherwise |
| Mulsi3.TimesMeans | examples/matrix_mult/matrix_mult.dis:298-307 | the product of these results is the product of the unsigned integers modulo 2^32 |

## Left out

- ELF loading, `RunProgram`'s error codes for missing files, file and directory helpers, the `main` programs
  and the tests: input and output. `CoSimulator.RunFunctional` and `CoSimulator.RunPipeline` start from a
  loaded memory, an entry point and a stack pointer.
- Mapping, protection and faults of memory (models/shared/mmu_fixed_offset.h:23-41): memory is total and bytes
  never written read as zero, so speculative fetches and the eager read of the memory stage are harmless.
- The `ASSERT` macros are the no-ops of a release build; in particular `ASSERT(funct3 == 0 && funct7 == 0)` on
  the SYSTEM opcode, and the missing check of JALR's funct3, accept words that are illegal in the manual.
- The signed addition in the interpreter's JALR (models/functional/model.cpp:139) wraps in the model, where
  C++ leaves an overflow undefined. Shifts by 32 or more end in an explicit undefined outcome.
- Readable traces, `Dump` and `Debug` output, and switching traces on and off: the streams are the sequences
  of records of the binary format.
- The instruction memory unit is a read of memory in the fetch stage, and the stage registers are values held
  in fields; the program counter's and the records' aliasing is not modelled.
- PipelineModel.PipelineModel.Run: says nothing about a run that never ends, since the call does not return; what
  each of its iterations does is `PipelineModel.PipelineModel.Iterate`, which has no such condition.
- FunctionalModel.FunctionalModel.Run: likewise; its rounds are `FunctionalModel.FunctionalModel.Round`. An abort
  and an undefined shift are endings of the model without a promise about the state.
- CoSimulator.RunTest: the codes for a program that cannot be loaded and the directory set-up are left out.
- Runs.RunHalts: says nothing about programs that execute at address zero or a zero word; both are outside
  the fragment.
- Sieve.SieveOfEratosthenes: for n above 46337 * 46337 the C program overflows an int, which is undefined; the model
  stops there and says so.
- QSort.Partition: the loop body is a method of its own (`QSort.Shrink`), and so is its inner loop; the control
  flow is that of the original.
- The compiled programs other than the multiplication routine, and the matrix and nested-loop programs: more
  volume without a harder property.
