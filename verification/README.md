# quickjs-rusty: the JIT pipeline and the serde bridge

This project models two parts of quickjs-rusty and proves what they are for.

**The JIT pipeline** (`libquickjs-sys/src`). `compiler.rs` turns QuickJS stack
bytecode into three-address register code in one pass, with a second pass for
jumps. `register_interpreter.rs` runs that code on 256 registers and keeps a
table of native entries in front of it. `jit.rs` generates x86-64 code: three
recognizers fold or specialize whole loops, everything else goes through fixed
templates that check tags and overflow and bail out. `interpreter.rs` is a small
interpreter for the stack bytecode itself, with reference counts.

**The serde bridge** (`src/serde`, `src/value`). `ser.rs` builds a JS tree in
place while serde walks a Rust value; `de.rs` walks a JS heap that may share
nodes and contain cycles, guarded by the stack of open containers.

## How it fits together

- `JsValues`, `Machines`: values, 32-bit words, the shared arithmetic, and step
  machines. A run ends as `Returned`, `Aborted` (the `JS_UNINITIALIZED` answer)
  or `Outside` (it left the model: a float64 that may be rounded, or an access
  out of bounds).
- `OperatorLaws`: what each operator computes, by laws of its own.
- `StackMachine`, `Opcodes`, `Translator`, `Simulation`: the bytecode and its
  encodings, the stack machine that gives it meaning, the translation and its
  simulation proof. The stack machine is the fast interpreter's, extended to
  every opcode the translator accepts.
- `RegisterCode`, `RegisterVm`, `StackShape`: register code, its machine, and
  the fact that translated code still evaluates expressions.
- `CountedLoop*`, `Periodic`, `BranchyLoop*`, `HashLoop*`: the three recognizers
  and why their answers are those of the loop. `CountedForms`, `BranchyProgram`
  and `HashProgram`: the loops they accept, for every choice of constants.
- `NativeCode`, `NativeBytes`, `Baseline*`, `CodeGen`, `NativeCompiler`: the
  instructions used, their bytes and patching, and the templates. `X86` decodes
  the bytes again, by the processor's own rules.
- `Restart`, `Dispatch*`, `HandOver`: starting over after a bailout, the
  table, the whole call, and which calls are handed to the C interpreter.
- `Assembly`, `WrittenCalls`: bytecode written line by line, and what a call
  makes of it. `LongSum`, `SharedLocal`, `UncheckedLoad`, `EarlyRead` and
  `KeyCollision` hold the bytecode on which an answer is not the bytecode's.
- `Ownership`, `FastInterpreter`: reference counts and the fast interpreter.
- `JsHeap`, `JsTree`, `Serializer`, `Deserializer`, `CycleGuard`,
  `SerdeRoundTrip`: the serde bridge. `BuildLaws` and `ReadLaws` relate data and
  heaps by rules, apart from the functions that write and read.

## What the theorems assume

The code relies on these facts without checking them; they are `requires`
clauses here.

- Translator: height at most 254, stored locals below 256, constant-pool indices
  and the number of emitted instructions below 65536 (`Simulation.Fits`), and at
  every jump target the linearly tracked height is the height at the jump
  (`Simulation.HeightConsistent`).
- Recognizers: the program has the shape translated code has
  (`StackShape.StackShaped`, proved for every translation), loaded locals below
  256, stores inside the locals; for the branchy and hash loops two different
  locals, and for the hash loop that instructions 20 and 24 load the hash.
- Restart and table: every load of a local that the program stores follows a
  store on all paths; the key tells the bytecodes seen apart.

Where the code does not do what its comments say: the counted-loop fold is meant
for loops whose every intermediate stays exact (`jit.rs:882-888`), but only the
end is looked at; `serialize_i64` truncates below `i32::MIN`; a string is written
with its length (`src/utils.rs:115-117`) and read back as a C string, so it is cut
at a NUL; an array read stops at its first `undefined` element. The model follows
the code.

## Model

| member | source | states |
|---|---|---|
| DispatchSound.DispatchMeansBytecode | libquickjs-sys/src/register_interpreter.rs:50-142 | End to end. When a bytecode, run as a stack program, ends, the call of the register interpreter ends too, and its answer is the same value (numbers compared by value), unless the run leaves the exact integers, the loop counter overruns int32, or the call is handed to the C interpreter. |
| DispatchSound.DispatchEndsOnce | libquickjs-sys/src/register_interpreter.rs:50-142 | A call has one outcome and one final state of the locals. |
| HandOver.HandedOverIff | libquickjs-sys/src/register_interpreter.rs:144-165 | Translated code is one that is handed to the C interpreter exactly when the bytecode has a goto to a byte inside itself and one of the ten operators beyond addition and the orderings. |
| HandOver.InterpretedCalls | libquickjs-sys/src/register_interpreter.rs:127-142 | Without native code and without one of the two, a call ends in exactly the ways, and with the locals, of the bytecode's own run. |
| HandOver.HandedOverCalls | libquickjs-sys/src/register_interpreter.rs:127-142 | With both and without native code a call ends with JS_UNINITIALIZED and untouched locals, and in no other way. |
| HandOver.AnsweredCalls | libquickjs-sys/src/register_interpreter.rs:50-142 | With native code or without, a call of bytecode that lacks one of the two answers in accord with the bytecode's own run. |
| HandOver.DifferenceIsAnswered | libquickjs-sys/src/register_interpreter.rs:127-142 | The bytes of 5 - 3 are answered 2, and nothing else. |
| HandOver.CountdownIsHandedOver | libquickjs-sys/src/register_interpreter.rs:127-142 | The bytes of a loop with a subtraction are handed over, locals untouched. |
| Translator.CompileBytecode | libquickjs-sys/src/compiler.rs:99-681 | On every byte string the single pass ends and never indexes out of bounds; success gives a translation (every stack instruction expanded in place, every jump resolved through the pc map), failure gives the reason the bytecode has none. What each byte string decodes to is fixed by Opcodes, what each line becomes by Assembly. |
| Opcodes.WrittenDecodes | libquickjs-sys/src/compiler.rs:109-660 | Every encoding the translator accepts, in every operand width and with negative one-, two- and four-byte operands, decodes to what it was written from, wherever it stands. |
| Opcodes.DecodedWasWritten | libquickjs-sys/src/compiler.rs:109-660 | The inverse: whatever decodes was written as one of those encodings; an operand is missing exactly when a known opcode does not fit, and every other opcode byte is unsupported. |
| Opcodes.Effects | libquickjs-sys/src/compiler.rs:109-660 | The stack operands each encoding takes and leaves: the height the pass tracks. |
| Translator.PatchJumps | libquickjs-sys/src/compiler.rs:667-678 | The second pass resolves every recorded jump in place and fails exactly when a target is inside an instruction. |
| Translator.TranslationIsUnique | libquickjs-sys/src/compiler.rs:99-681 | A bytecode has at most one translation. |
| Translator.RejectionExcludesTranslation | libquickjs-sys/src/compiler.rs:109-116 | A bytecode rejected for any reason has no translation. |
| Translator.JumpsGoToStarts | libquickjs-sys/src/compiler.rs:667-678 | Every jump operand of the result is at most the program length and is the first instruction of some source instruction or the end. |
| Assembly.WrittenIsAccepted | libquickjs-sys/src/compiler.rs:99-681 | A program written line by line, with heights and jumps that fit, encodes to bytes that decode to those lines and that the translator accepts, with the code each line becomes. |
| Simulation.StepMatches | libquickjs-sys/src/compiler.rs:99-681 | One stack instruction is matched by one or more register instructions, including the expansions of get_loc0_loc1, add_loc, inc_loc and dec_loc: same locals, stack slot k in register k, scratch registers above the height only. |
| Simulation.TranslationPreservesMeaning | libquickjs-sys/src/compiler.rs:99-681 | For every accepted height-consistent bytecode the stack machine and the register machine end in the same way with the same locals, or both run on. |
| StackShape.TranslationIsShaped | libquickjs-sys/src/compiler.rs:99-681 | Translated code works at one known register height per instruction, all of them within 256 registers. |
| StackShape.RunExpr | libquickjs-sys/src/compiler.rs:255-530 | Straight-line translated code evaluates the expression it stands for and leaves registers below it alone. |
| RegisterCode.PushI32RoundTrip | libquickjs-sys/src/jit.rs:389-391 | The int32 the translator splits over two 16-bit fields is the one the back ends put together again. |
| RegisterVm.RunRegisterVm | libquickjs-sys/src/register_interpreter.rs:167-495 | The interpreter loop over 256 registers and the caller's locals takes exactly the steps of the register machine and leaves the locals that machine leaves. What the operators of that machine compute is fixed by OperatorLaws. |
| OperatorLaws.ArithmeticLaw | libquickjs-sys/src/register_interpreter.rs:243-298 | +, - and * on exact numbers: the exact result, int32 when both operands and the result are, float64 otherwise; NaN stays NaN, and anything else gives up. |
| OperatorLaws.RemainderLaw | libquickjs-sys/src/register_interpreter.rs:300-334 | %: the dividend is a whole multiple of the divisor plus the result, which is smaller than the divisor and has the dividend's sign; NaN for a zero divisor and for i32::MIN % -1. |
| OperatorLaws.ShiftLeftLaw | libquickjs-sys/src/register_interpreter.rs:335-342 | <<: congruent to x * 2^s modulo 2^32, an int32. |
| OperatorLaws.ShiftRightSignedLaw | libquickjs-sys/src/register_interpreter.rs:335-344 | >>: the result r has r * 2^s <= x < (r + 1) * 2^s for the signed word x. |
| OperatorLaws.ShiftRightUnsignedLaw | libquickjs-sys/src/register_interpreter.rs:335-364 | >>>: the same bounds for the unsigned word; int32 exactly below 2^31. |
| OperatorLaws.BitwiseLaw | libquickjs-sys/src/register_interpreter.rs:365-368 | &, | and ^: every one of the 32 bits of the result is that operation on the same bit of the operands. |
| OperatorLaws.StrictEqLaw | libquickjs-sys/src/register_interpreter.rs:383-396 | ===: equal numbers across tags, NaN equal to nothing, booleans, null and undefined each with themselves, and nothing across kinds. |
| OperatorLaws.CompareLaw | libquickjs-sys/src/register_interpreter.rs:415-440 | The four orderings on int32 operands, all from <; other operands give up. |
| JsValues.AddIsExact | libquickjs-sys/src/register_interpreter.rs:243-298 | On exact numbers addition gives the exact sum whatever the tags, commutes, and fails only by leaving 2^53-1. |
| JsValues.WrapCongruence | libquickjs-sys/src/register_interpreter.rs:513-529 | Numbers that differ by a multiple of 2^32 convert to the same int32 and uint32. |
| CountedLoop.IterationsIsLeast | libquickjs-sys/src/jit.rs:393-435 | The iteration count is the least k at which init + k*step fails the comparison, for all four operators; there is none exactly for a zero step or a step of the wrong sign. |
| CountedLoop.CountClosedForm | libquickjs-sys/src/jit.rs:1091-1118 | The accumulator after n rounds equals the closed form with the triangular number n(n-1)/2. |
| CountedLoop.ArithmeticNeverFails | libquickjs-sys/src/jit.rs:1091-1120 | With int32 constants none of the 128-bit checked operations overflows, so only the final range tests can refuse a loop. |
| CountedLoop.CompileConstantCountedLoop | libquickjs-sys/src/jit.rs:882-1128 | The recognizer with its scan of initializer pairs returns the folded number of the loop it recognizes, or nothing. |
| CountedForms.LoopsAreRecognized | libquickjs-sys/src/jit.rs:882-1090 | Every loop of the accepted forms (either operand order of the constant step, the counter itself, or a multiple of it plus a constant) is recognized, with its own constants and locals. |
| CountedForms.FoldsExactly | libquickjs-sys/src/jit.rs:1091-1128 | A recognized loop is folded exactly when it has an iteration count, the final counter is an int32 and the final accumulator a number up to 2^53-1; the answer is that accumulator. |
| CountedLoopTurns.SafeAtTurns | libquickjs-sys/src/jit.rs:1091-1127 | Every intermediate of every round of a counted loop is a safe integer exactly when at most seven numbers in closed form are: the count, the product and the partial sum in the first, the last and the turning round. |
| CountedLoopRuns.CountedFoldIsExact | libquickjs-sys/src/jit.rs:882-1128 | From any locals the register machine returns the folded number exactly when those few numbers are safe integers; otherwise it leaves the exact integers. |
| LongSum.FoldAcceptsAnInexactLoop | libquickjs-sys/src/jit.rs:1117-1127 | A concrete loop (the sum of i from -2e9 to 2e9) is folded to 0 although the machine leaves the exact integers on the way: the range test looks at the end only. |
| LongSum.LongSumShows | libquickjs-sys/src/register_interpreter.rs:85-142 | The same loop as bytecode: its own run leaves the exact integers, a call of it answers 0. |
| CountedLoopSafety.GrowingIsSafe | libquickjs-sys/src/jit.rs:1091-1127 | With non-negative start, multiplier and addend and a positive step, a safe final count makes every intermediate product and partial sum safe. |
| CountedLoopSafety.ConstantStepIsSafe | libquickjs-sys/src/jit.rs:1107-1110 | With a constant increment of either sign the two end points bound every partial sum. |
| CountedLoop.CounterStaysInt32 | libquickjs-sys/src/jit.rs:1119-1122 | A final induction value in int32 means every earlier one was. |
| CountedLoopSafety.SteadyFoldReturns | libquickjs-sys/src/jit.rs:882-1128 | For those loops the register machine returns the folded number with no further condition. |
| Periodic.Gcd | libquickjs-sys/src/jit.rs:619-626 | The Euclidean loop ends and returns a non-negative common divisor that is an integer combination of its arguments. |
| Periodic.CommonMultiples | libquickjs-sys/src/jit.rs:655-655 | a*c/gcd(a,c) divides exactly the numbers that both a and c divide. |
| Periodic.PeriodDivides | libquickjs-sys/src/jit.rs:636-636 | m/gcd(d,m) is a period of (d*j) mod m. |
| Periodic.TallyPeriods | libquickjs-sys/src/jit.rs:637-646 | The sum over whole periods is the number of periods times the sum of one. |
| Periodic.MultSumIsTally | libquickjs-sys/src/jit.rs:628-648 | The sum of k mod m over the multiples k of d up to N is the sum of (d*j) mod m for j up to N/d. |
| Periodic.SumMultiplesMod | libquickjs-sys/src/jit.rs:628-648 | The periodic summation returns the sum of k mod m over all multiples k of d in 1..N, and no checked 64-bit operation in it overflows. |
| BranchyLoop.SecondByExclusion | libquickjs-sys/src/jit.rs:670-670 | The second branch, over multiples of C that are not multiples of A, is the sum over C minus the sum over the common multiples. |
| BranchyLoop.ElseByExclusion | libquickjs-sys/src/jit.rs:671-678 | The else branch is all minus A minus C plus the common multiples. |
| BranchyLoop.CompileBranchyModuloLoop | libquickjs-sys/src/jit.rs:471-686 | The inclusion-exclusion formula over periodic sums equals the sum the loop itself would compute, round by round; no checked operation overflows, so the only refusals are the shape, the constants and the range of the result. |
| BranchyProgram.ProgramShape | libquickjs-sys/src/jit.rs:471-686 | For every choice of locals and constants the bytecode of the branchy loop translates to a program of the accepted shape, with those constants. |
| BranchyProgram.ProgramFolds | libquickjs-sys/src/jit.rs:597-686 | That program is folded exactly when the counter starts at 1, the divisors are positive, the mask is 15, the limit positive and the loop's sum at most 2^53-1; the answer is that sum. |
| BranchyLoopRuns.BranchyFoldIsExact | libquickjs-sys/src/jit.rs:471-686 | From any locals the register machine returns the folded number exactly when every partial sum is safe and the limit is below 2^31-1; at 2^31-1 it aborts, otherwise it leaves the exact integers. |
| BranchyLoopRuns.SmallLoopFolds | libquickjs-sys/src/jit.rs:471-686 | When the initial sum plus or minus the limit times the largest change of one round stays within 2^53-1, the machine returns the folded number with no further condition, below the largest limit; at the largest limit it aborts although the loop is folded. |
| SharedLocal.SeparateLocalsFold | libquickjs-sys/src/jit.rs:484-499 | The same small loop with a counter of its own is folded to 1 and the machine returns 1: the conditions of the fold theorem are met by a real program. |
| SharedLocal.FoldAcceptsASharedLocal | libquickjs-sys/src/jit.rs:484-499 | The two locals are never compared: a loop that uses one local as sum and counter is folded to 1 while the machine returns 3. |
| SharedLocal.SharedLocalShows | libquickjs-sys/src/register_interpreter.rs:85-142 | That loop as bytecode: the bytecode returns 3, a call of it answers 1. |
| SharedLocal.LargestLimitShows | libquickjs-sys/src/jit.rs:597-617 | With the limit 2^31-1 a loop is accepted and a call answers with the sum, where the bytecode's own run gives up on comparing the counter that overran int32. |
| HashLoop.CompileBitwiseHashLoop | libquickjs-sys/src/jit.rs:688-880 | The emitted loop, with its two displacements patched at the end, is the one whose exit jump and back jump land on the return block and the loop head; it is produced exactly for the accepted shape, a non-negative limit and shifts in 0..31. |
| HashProgram.ProgramShape | libquickjs-sys/src/jit.rs:688-817 | For every choice of locals and constants the bytecode of the hash loop translates to a program of the accepted shape, with those constants. |
| HashProgram.ProgramCompiles | libquickjs-sys/src/jit.rs:688-880 | That program is compiled to the hash code exactly when the limit is not negative and the three shifts are in 0..31. |
| HashLoop.HashOffsets | libquickjs-sys/src/jit.rs:826-878 | Byte offsets of the loop head, the end of the exit jump and the exit block. |
| HashLoop.HashCodeReturns | libquickjs-sys/src/jit.rs:818-880 | The emitted loop ends and returns the 32-bit hash after exactly limit rounds, leaving the locals alone. |
| HashLoopRuns.RoundEval | libquickjs-sys/src/register_interpreter.rs:335-382 | One round of the program, with sums that may become float64 and unsigned shifts above int32, computes one wrapping 32-bit round. |
| HashLoopRuns.HashLoopIsExact | libquickjs-sys/src/jit.rs:688-880 | The register machine and the emitted loop return the same number from any locals, for every limit, mask and shift accepted. |
| UncheckedLoad.TwoAnswers | libquickjs-sys/src/jit.rs:767-811 | A family of bytecode with any locals loaded at instructions 20 and 24 and any counter local: what the bytecode returns and what a call of it answers, for the shifts 0 and 1. |
| UncheckedLoad.AgreementNeedsTheLoads | libquickjs-sys/src/jit.rs:767-811 | In that family the two answers agree for both shifts exactly when both loads are of the hash and the counter has a local of its own: the condition of the hash theorem cannot be dropped. |
| UncheckedLoad.HashAcceptsAnUncheckedLoad | libquickjs-sys/src/jit.rs:767-811 | Instructions 20 and 24 and the difference of the two locals are not inspected: every other choice is accepted, and for one of the two shifts a call answers another bit than the bytecode returns. |
| NativeCode.LandsOn | libquickjs-sys/src/jit.rs:345-375 | A displacement computed from byte offsets lands on its target instruction. |
| NativeCode.EngineTags | libquickjs-sys/src/register_interpreter.rs:17-22 | The tag numbers of the engine: int 0, bool 1, null 2, undefined 3, uninitialized 4, float64 8, references below zero; booleans as 0 and 1. |
| Baseline.JitRefinesVm | libquickjs-sys/src/jit.rs:122-348 | A run that neither bails nor leaves the model returns what the register machine returns, with the same locals. |
| BaselineRuns.StepFollows | libquickjs-sys/src/jit.rs:122-334 | One step of the int32-only machine is one run through one native template, to the start of the next template or to the same end; a program counter past the end reaches the bailout block. |
| BaselineRuns.NativeMatchesJit | libquickjs-sys/src/jit.rs:79-378 | Assembled native code ends exactly as the int32-only machine does, with the same locals, or both run on. |
| BaselineRuns.NativeRefinesVm | libquickjs-sys/src/jit.rs:79-378 | From any locals, native code that returns anything but JS_UNINITIALIZED returns what the register machine returns and leaves the same locals. |
| NativeBytes.Le32RoundTrip | libquickjs-sys/src/jit.rs:352-357 | The four little-endian bytes of a displacement read back as that displacement. |
| NativeBytes.DoubleBitsRoundTrip | libquickjs-sys/src/jit.rs:449-457 | The float64 bit pattern emitted for a safe integer stands for that integer. |
| NativeBytes.PatchEncodes | libquickjs-sys/src/jit.rs:353-357 | Overwriting the four-byte window of a jump turns the code into the same code with that displacement; no other instruction changes. |
| NativeBytes.WindowsAreDisjoint | libquickjs-sys/src/jit.rs:345-375 | Patch windows of different jumps do not meet, nor does a window meet another instruction. |
| NativeBytes.GuardSkipsItsPath | libquickjs-sys/src/jit.rs:101-113 | The two-byte short jump of a guard lands just past its ten-byte bailout path. |
| X86.OpDecodes | libquickjs-sys/src/jit.rs:101-334 | The bytes emitted for each native instruction decode, by an x86-64 decoder written from the general encoding rules, to the x86 instructions it stands for: operation, width, registers, displacement and immediate. |
| X86.TemplatesSpell | libquickjs-sys/src/jit.rs:79-378 | So does a whole generated buffer, from its first byte to its last, jumps patched. |
| X86.NumbersSpell | libquickjs-sys/src/jit.rs:437-469 | So does the code that returns a folded number. |
| X86.HashesSpell | libquickjs-sys/src/jit.rs:818-880 | So does the hash loop. |
| CodeGen.EmitTemplate | libquickjs-sys/src/jit.rs:122-334 | Emitting a template extends the buffer by its bytes and records one pending patch for every jump in it. |
| CodeGen.Backpatch | libquickjs-sys/src/jit.rs:345-375 | Patching the recorded positions, bailout jumps first, turns the emitted bytes into those of the resolved code. |
| CodeGen.CompileTemplates | libquickjs-sys/src/jit.rs:84-378 | Code generation succeeds exactly when every opcode is supported, and then gives the bytes of the resolved code. |
| CodeGen.NotesTellGuards | libquickjs-sys/src/jit.rs:98-113 | Below 2^30 instructions the number a guard loads before it gives up tells which guard of which instruction it is. |
| CodeGen.SupportedExactly | libquickjs-sys/src/jit.rs:122-340 | The opcodes with a template are fifteen: push_i32, moves and locals, add, the four orderings, jumps and returns. |
| CodeGen.AssembleIsAssembled | libquickjs-sys/src/jit.rs:116-375 | The resolved code is prologue, templates and bailout block in place, each jump displaced to its template or to the bailout block. |
| CodeGen.OffsetsIncrease | libquickjs-sys/src/jit.rs:121-123 | Templates start at strictly increasing byte offsets, the bailout block after all of them. |
| CodeGen.DisplacementFits | libquickjs-sys/src/jit.rs:345-369 | Below sixteen million instructions no cast of a displacement to i32 loses bits. |
| CodeGen.JumpsLand | libquickjs-sys/src/jit.rs:345-375 | The displacement read back from the buffer, counted from the end of its jump, lands on the first byte of its target template or of the bailout block. |
| CodeGen.OnlyWindowsChange | libquickjs-sys/src/jit.rs:345-375 | Patching changes only bytes inside the windows, and those held zero before. |
| NativeCompiler.NumberCodeReturns | libquickjs-sys/src/jit.rs:437-469 | The code emitted for a folded number returns that number, int32 or float64, and leaves the locals alone. |
| NativeCompiler.CompileToNative | libquickjs-sys/src/jit.rs:79-92 | The first recognizer that matches decides; the bytes are those of the chosen code. |
| NativeCompiler.NativeIsSound | libquickjs-sys/src/jit.rs:79-378 | An answer of any native code is the register machine's answer up to number tags, unless that run leaves the exact integers or the branchy counter overruns int32. |
| Restart.LocalsDoNotMatter | libquickjs-sys/src/register_interpreter.rs:105-141 | Two runs from locals that agree wherever some path loads before storing stop together with the same outcome and differ at most in locals neither has stored. |
| Restart.RestartIsTransparent | libquickjs-sys/src/register_interpreter.rs:105-141 | If every load of a local the program stores anywhere is preceded on all paths by a store, a native run that wrote locals and bailed, followed by the register machine from instruction 0, ends exactly as the register machine alone, with the same final locals. |
| Restart.BailsAgain | libquickjs-sys/src/register_interpreter.rs:70-83 | Native code entered again on the locals of its own bailout bails again and changes nothing. |
| Restart.DataFlowSuffices | libquickjs-sys/src/register_interpreter.rs:105-141 | A forward data-flow solution is enough to establish the store-before-load condition. |
| EarlyRead.RestartCanShow | libquickjs-sys/src/register_interpreter.rs:105-141 | Without the condition the restart shows: a concrete bytecode returns 7, and a call of it bails out, starts over and answers 5. |
| DispatchMethod.NativeCache.JsRegisterInterpreter | libquickjs-sys/src/register_interpreter.rs:50-142 | The call over the mutable table and the caller's locals follows the table protocol and keeps the table sound whether or not it ends; cut off by its bound, it stands where that many steps of the run in progress leave it, locals and table included. Which calls are handed over is fixed by HandOver. |
| DispatchMethod.NativeCache.CompileAndRun | libquickjs-sys/src/register_interpreter.rs:85-142 | The part of a call after the table has given no answer: translate, compile, remember, enter, forget on bailout, fall back, run the register machine; cut off by its bound, the locals and the table are those of the run in progress. Which calls are handed over is fixed by HandOver. |
| DispatchMethod.RunNativeEntry | libquickjs-sys/src/register_interpreter.rs:36-48 | Entering native code on fresh registers gives the end of the native machine and writes its locals back; cut off by its bound, the locals are those after that many steps. |
| Dispatch.CallKeepsSound | libquickjs-sys/src/register_interpreter.rs:61-125 | Every call keeps at most 4096 entries, each compiled from the bytecode of its key. |
| Dispatch.AnswersAreKept | libquickjs-sys/src/register_interpreter.rs:105-121 | A call without an entry that native code answers leaves its code in the table under the bytecode's key if fewer than 4096 entries were there, and the table as it was otherwise. |
| Dispatch.EntriesAnswer | libquickjs-sys/src/register_interpreter.rs:68-77 | An entry that answers is the only answer, and stays. |
| Dispatch.BailsFromTemplates | libquickjs-sys/src/register_interpreter.rs:105-125 | Only template code bails out; folded loops and the hash loop never do. |
| Dispatch.CacheIsInvisible | libquickjs-sys/src/register_interpreter.rs:61-141 | With keys that tell the seen bytecodes apart and the store-before-load condition, a call ends in exactly the ways, and with exactly the locals, that it would without the table. |
| Dispatch.BailedEntryIsGone | libquickjs-sys/src/register_interpreter.rs:78-83 | After a call whose native code bailed out the table has no entry for that bytecode. |
| Dispatch.EveryReplyIsUncached | libquickjs-sys/src/register_interpreter.rs:61-141 | Over any sequence of calls every reply is the one a call without the table gives, and the table stays sound throughout. |
| KeyCollision.CollisionShows | libquickjs-sys/src/register_interpreter.rs:61-77 | With a hash that gives two bytecodes of one length the same key, the second is answered with the first one's code. |
| FastInterpreter.Frame.JsFastInterpreter | libquickjs-sys/src/interpreter.rs:27-169 | The in-place loop ends; reference counts equal owners at every point; when it returns, the stack machine returns the same value with the same locals; when it stops, it stands before an instruction it does not handle, in a state from which the stack machine ends as from the start. |
| FastInterpreter.Frame.Step | libquickjs-sys/src/interpreter.rs:37-162 | One trip around the loop is one step of the stack machine, or a return, or no change at all. |
| FastInterpreter.HandlesExactly | libquickjs-sys/src/interpreter.rs:37-162 | The loop stops on every opcode but thirteen, and on an addition unless the two values on top are int32 with an int32 sum. |
| FastInterpreter.AccessesExactly | libquickjs-sys/src/interpreter.rs:37-162 | What each opcode reads after itself, needs on the stack, needs room for, and indexes. |
| FastInterpreter.Frame.PushCopy | libquickjs-sys/src/interpreter.rs:51-57 | Pushing a duplicated value raises its count by one owner. |
| FastInterpreter.Frame.DropTop | libquickjs-sys/src/interpreter.rs:86-89 | Dropping the top of the stack releases one owner. |
| FastInterpreter.Frame.StoreTop | libquickjs-sys/src/interpreter.rs:102-110 | A store moves ownership from the stack to the local and releases what the local held. |
| Ownership.OwnedIsLive | libquickjs-sys/src/interpreter.rs:172-186 | A reference found in any owning slot is live. |
| Serializer.Serializer.SetNodeValue | src/serde/ser.rs:45-85 | A value becomes the root, the next array element, or the property under the pending key; otherwise the error says why it has no place, and the key is used up. |
| Serializer.Serializer.Push | src/serde/ser.rs:87-113 | A new empty container is attached first and then becomes the current one, the previous one going onto the path stack. |
| Serializer.Serializer.Pop | src/serde/ser.rs:115-118 | Closing a container returns to the one before it. |
| Serializer.Serializer.Serialize | src/serde/ser.rs:148-336 | Each datum adds exactly one child, holding the tree a recursive definition gives in fresh nodes, and restores path stack, current container and key; errors are the first error of that definition. What stands on the heap is built from the datum by the rules of BuildLaws: numbers by range, arrays in order, a repeated key in its first place with its last value. |
| Serializer.Serializer.SerializeSeq | src/serde/ser.rs:349-352 | Open, one child per element in order, close. |
| Serializer.Serializer.SerializeMap | src/serde/ser.rs:388-391 | Open, one property per pair in order, later equal keys replacing earlier ones, close. |
| Serializer.Serializer.SerializeKey | src/serde/ser.rs:531-547 | A key must be a string; a second pending key is refused. |
| Serializer.Serializer.SerializeTupleVariant | src/serde/ser.rs:373-384 | An object with one property that holds the array of fields; both containers are closed. |
| Serializer.Serializer.SerializeNewtypeVariant | src/serde/ser.rs:318-336 | An object with one property, named after the variant. |
| Serializer.SetPropKeys | src/value/object.rs:83-109 | Setting a property keeps property names distinct. |
| SerdeRoundTrip.SignedRoundTrip | src/serde/ser.rs:172-183 | An i64 comes back exactly when it is at least i32::MIN. |
| SerdeRoundTrip.UnsignedRoundTrip | src/serde/ser.rs:203-217 | A u64 comes back up to i64::MAX and is a BigInt overflow beyond. |
| SerdeRoundTrip.TruncatedExample | src/serde/ser.rs:179-182 | The i64 just below i32::MIN comes back as i32::MAX. |
| SerdeRoundTrip.CutExample | src/value/value.rs:294-316 | A string is written whole but read through a C string: one with a NUL inside comes back cut before it. |
| SerdeRoundTrip.ToJs | src/serde/ser.rs:25-42 | Succeeds exactly on buildable data (string keys, no NUL in a name); the result is built from the datum by the rules of BuildLaws, in fresh nodes, and every older node is unchanged. |
| BuildLaws.StandsIsBuilt | src/serde/ser.rs:148-336 | The tree of a datum, on any heap that holds it, is built from the datum by rules of its own: an i64, u32 or u64 is an int32 up to i32::MAX (its low word below i32::MIN), the JS number of that value up to 2^53-1, the BigInt of that value beyond. |
| BuildLaws.BuildableIff | src/serde/ser.rs:148-336 | A datum serializes exactly when every map key in it is a string and no variant name or key holds a NUL. |
| BuildLaws.SettleAgain | src/value/object.rs:83-109 | Setting a key that is already there keeps every key in its place and replaces the one value. |
| SerdeRoundTrip.FromJs | src/serde/de.rs:35-42 | Succeeds exactly with the datum that the reading rules of ReadLaws relate to the value; otherwise the error is a circular reference, which is reported only if a cycle is reachable, or a BigInt beyond 64 bits. |
| SerdeRoundTrip.FaithfulIffComesBack | src/serde/de.rs:165-218 | Data come back up to numeric type exactly when integers lie in range, strings and names hold no NUL, and map keys are distinct strings without NUL. |
| SerdeRoundTrip.ThereAndBack | src/serde/ser.rs:25-42 | from_js of to_js returns the original data up to numeric type exactly for faithful data: integers in range, no NUL in a string or name, distinct string keys. |
| JsTree.ReadsTree | src/serde/de.rs:165-218 | A traversal of a heap that holds a tree reads that tree. |
| Deserializer.Deserializer.DeserializeAny | src/serde/de.rs:165-218 | The traversal over the path stack ends on every heap, gives the recursive reading of the value, a datum related to it by the reading rules, and leaves the path stack as it was, on success and on error. |
| ReadLaws.TraversalIffRules | src/serde/de.rs:165-218 | A traversal succeeds with a datum exactly when the reading rules relate it to the value: undefined and null are unit; booleans, numbers, strings up to a NUL and BigInts within 64 bits are themselves; arrays up to their first undefined, objects in property order, proxies as their target. |
| ReadLaws.ReadsOnce | src/serde/de.rs:165-218 | The rules relate at most one datum to a value, on heaps with sharing and cycles. |
| Deserializer.Deserializer.DeserializeSeq | src/serde/de.rs:235-243 | Enter, visit, leave: the path stack is restored in every case. |
| Deserializer.Deserializer.DeserializeMap | src/serde/de.rs:306-314 | Enter, visit, leave: the path stack is restored in every case. |
| Deserializer.Deserializer.VisitSeq | src/serde/de.rs:368-380 | Elements are taken until the first undefined one or the end. |
| Deserializer.Deserializer.VisitMap | src/serde/de.rs:383-409 | Keys, cut at their first NUL, and values are taken alternately until the names run out. |
| Deserializer.Deserializer.Next | src/serde/de.rs:53-85 | Moves to the next element or property item of the innermost container, and changes nothing when there is none. |
| Deserializer.Deserializer.GuardCircularReference | src/serde/de.rs:87-93 | Reports exactly the containers already on the path. |
| Deserializer.Deserializer.EnterArray | src/serde/de.rs:95-109 | Pushes the array behind any proxies; path entries stay pairwise distinct. |
| Deserializer.Deserializer.EnterObject | src/serde/de.rs:111-126 | Pushes the object behind any proxies with a fresh iterator over its names. |
| Deserializer.Deserializer.Leave | src/serde/de.rs:128-132 | Pops the innermost container, which becomes the current value. |
| Deserializer.ItemsAlternate | src/value/object.rs:167-203 | The iterator yields the i-th name, then the i-th value, and nothing past the last. |
| Deserializer.ArrayNames | src/value/object.rs:128-158 | The names an array is entered with as an object are its indices in decimal, in order, each once. |
| CycleGuard.CircularIffCycle | src/serde/de.rs:87-126 | With no BigInt beyond 64 bits, a circular reference is reported exactly when a cycle is reachable through visited children; sharing without a cycle is read like a tree. |
| CycleGuard.OnlyTwoErrors | src/serde/de.rs:165-218 | A traversal fails with a circular reference or a BigInt overflow only. |
| CycleGuard.NoWalkRepeats | src/serde/de.rs:87-126 | Where the traversal succeeds, no walk through visited children meets a container twice. |
| CycleGuard.GuardFindsWalk | src/serde/de.rs:87-126 | A reported circular reference comes from a walk that runs into itself. |

## Left out

- Float64 rounding: a result that may not be exact ends a run as `Outside`; non-integral numbers and `-0` are not modelled, and `-0` counts as 0.
- Simulation.TranslationPreservesMeaning: for bytecode whose linearly tracked height agrees at every jump; the translator keeps one running height and never resets it after a jump, so other bytecode is translated as if it were straight-line.
- BranchyLoopRuns.BranchyFoldIsExact: asks for two different locals; with one shared local the folded number and the loop's can differ (`SharedLocal`) or coincide, and no condition finer than the guard is given.
- HashLoopRuns.HashLoopIsExact: asks that instructions 20 and 24 load the hash and that the locals differ; `UncheckedLoad` shows that none of the three can be dropped, but for a single program outside the condition the answers can also coincide.
- RegisterVm.RunRegisterVm: takes a bound on the number of instructions, because a bytecode loop need not end; the theorems about runs have no such bound.
- DispatchMethod.NativeCache.JsRegisterInterpreter: takes the same kind of bound for each run it starts; `Dispatch.CacheIsInvisible` and the end-to-end theorem have none.
- DispatchMethod.RunNativeEntry: bounded likewise; executable memory is represented by the instructions whose bytes were emitted, whose decoding is proved; what the processor does with each decoded instruction is the machine of `NativeCode`. mmap, and a failing mmap, are not modelled.
- CodeGen.DisplacementFits: stated below sixteen million instructions; beyond that a buffer can pass 2^31 bytes.
- SerdeRoundTrip.FaithfulIffComesBack: properties are enumerated in insertion order; the engine lists integer-like names first, and names with a setter on Object.prototype such as `__proto__` are ordinary names here.
- Reference counts in `run_register_vm` and in native code, which store without clearing and load without duplicating: those two carry immediate values and opaque references only.
- Comparing two heap references with `===` in the register machine, which looks at the low 32 bits of the addresses: such a comparison ends a run as `Outside`.
- The upper 32 bits of an int32 or boolean payload, and of a payload the caller left in a local: the model takes them as clean.
- Objects owned by other objects: freeing the last reference ends the object and does not release children.
- The C interpreter that a call is handed to, captured variables, the hook in QuickJS, hash function internals, a poisoned lock, trace output.
- Strings with lone surrogates, which the engine can hold and a Rust string cannot.
- Getters that throw, symbols, dates, functions, borrowed strings and byte buffers, enums and typed visitors of the deserializer; structs and struct variants of the serializer, which go through the map calls.
- `context.rs`, `callback.rs`, `compile.rs`, `module_loader.rs`, `promise.rs`, `console.rs`, `bin/qjs.rs`, `build.rs`, `extensions.c`: thin calls into code not shown.
