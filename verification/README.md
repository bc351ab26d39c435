# vkminer, verified

A model in Dafny 4.11 of the parts of vkminer that carry the most state and the most
arithmetic, with proofs of what they promise. `dafny verify dfyconfig.toml` checks it.

| Files | What they model |
|---|---|
| `Kernel`, `Programs`, `TableUse`, `SharedTable`, `Registry`, `Fit`, and `KernelLaws`, `TableLaws`, `RegistryLaws`, `FitLaws` | The device pipeline: a ring of dispatches collected oldest first and the controller that sizes them; pipelines compiled ahead and retired late; one table per device, cut into power-of-two pieces, filled by upload or in slices, shared by kernels and kept through a pause; what fits on a device |
| `ProgpowProgram`, `ProgpowHash`, `RandomOps`, `Keccak`, `ProgpowSeal`, and `ProgpowLaws`, `RandomLaws`, `KeccakLaws` | ProgPoW: the generator of a period's program, the interpreter's sixteen lanes, the operations it selects from, Keccak-f[800], and the whole hash |
| `Words`, `Salsa`, `Romix`, `Pbkdf2`, `Scrypt`, `ScryptLaws` | scrypt: Salsa20/8, block mixing, ROMix, HMAC and PBKDF2, for any hash function |
| `Utf8`, `Utf8Laws`, `JsonReal`, `JsonValue`, `JsonDump`, `JsonLex`, `JsonParse`, `JsonRoundTrip`, `JsonTheorems`, `JsonCanonical` | jansson's printer, lexer and parser, and that they are inverse to each other |
| `JsonSyntax`, `JsonGrammar`, `JsonLaws`, `JsonSpelling`, `JsonLayout` | the grammar of RFC 8259 by itself, that the parser takes exactly its texts, and which of them the printer writes |
| `HashTable`, `HashTableLaws` | jansson's hash table: one circular list, each bucket a stretch of it |
| `Exchange`, `Getopt`, `GetoptLaws` | getopt_long: the exchange of two blocks by cycles, and the machine that calls it |
| `Arithmetic`, `Bits`, `Octets`, `Wrappers`, `Closed` | What the others share |

Code that works by changing things is a class or a method with loops and is proved
against a function of the old state; the theorems are lemmas about that function. The
files named `Laws` say what such functions are without naming their parts: by bits, sizes
and limits, or by the examples and formulas of the standard they follow. The device, the
clocks and the compiler are parameters: every lemma about a run is about every run,
whatever they answer. Doubles are reals, and in JSON the seventeen digits printf gives
them; strtod is a parameter. Integers are unbounded except where the source's width shows;
there it is written out.

A few definitions are kept closed to the verifier in proofs that only hand them on;
`Closed.dfy` says how.

## Findings

Properties that do not hold as one might expect them, each with an input and with the
exact condition.

- A JSON key that is not UTF-8 is dumped without an error, as far as it got: the results
  of `dump_string` for keys go unused (`compat/jansson/dump.c:339` and `376`). The round
  trip holds if and only if every string *and every key* is UTF-8 and every number is read
  back as itself (`JsonTheorems.RoundTrip`, `JsonCanonical.BadKeyIsDumpedWrong`).
- `jsonp_strtod` takes every range error with a value that is not zero for an overflow
  (`compat/jansson/strconv.c:71-74`). Where strtod reports the smallest numbers so, a real
  that was dumped is not loaded again (`JsonTheorems.UnreadRealIsLost`,
  `JsonCanonical.LoadedIsStable`).
- `begin()` advances the ring before a dispatch can fail. A caller that goes on
  dispatching after such a failure without emptying the queue has the results of one
  dispatch replaced by another's (`Kernel.UndrainedRunOverwrites`); a caller that empties
  it first never has (`Kernel.DrainedRunsAreSafe`), and `Kernel.DispatchIsSafeIff` and
  `Kernel.ConflictIffFull` say which single dispatch does it.
- `collect` drops the retired pipeline before it waits for the dispatch it is collecting,
  which may have been recorded against it (`Programs.CollectDropsIff`,
  `Programs.OvertakenDispatchLosesIt`).
- `ensure` and `submit` are two steps under two locks. Taken apart, a dispatch has its own
  table if and only if no other key was asked for in between or, since the last ask for
  another, a rebuild for its own has worked (`TableUse.SplitStepIsSafeIff`,
  `TableUse.SwappedAndBack`).
- A table retained through a pause is lost when the kernel it is handed to is not built and
  there is no other: the pin goes first (`Registry.FailedBuildLosesIt`,
  `Registry.RetainedTableLost`).
- Scratch is allocated for `max_batch` invocations but indexed by `max_batch` times the
  lanes: in bounds if and only if there is one lane (`Fit.ScratchInBoundsIff`,
  `Fit.LanesOutOfBounds`).
- The bytes a nonce costs are a 64-bit product. Where it wraps below what the buffers take,
  a batch is accepted that does not fit (`Fit.BatchFitsIff`, `Fit.WrappedScratchOverflows`).
- The dataset's epoch is a 32-bit product and sum. It never falls back up to a given epoch
  if and only if nothing wraps (`Fit.MonotoneIff`, `Fit.EpochsWrap`).
- The exact name of a long option is reported as ambiguous where the word abbreviates two
  options listed before it (`Getopt.ExactNameFound`, `Getopt.ExactNameMissed`).
- Without a table of long options `getopt_long` answers -1 in the middle of a word that
  comes to a last `-`, where that is no option letter (`Getopt.StopsIff`). A run that halts
  so after it has passed arguments over leaves them in front of `optind`; every other run
  sorts them (`Getopt.Scanner.Run`, `Getopt.NoneHalts`, `Getopt.HaltedScan`).
- PBKDF2's block counter has 32 bits and is not checked: every block has its own number up
  to the length at which RFC 8018 stops, and no further (`Pbkdf2.CountersAreNumbersIff`).
- scrypt's places in a block are computed in 32 bits, which is right if and only if r is
  below 2^27 (`Romix.PlacesFitIff`).

## Model

| member | source | states |
|---|---|---|
| `Kernel.ClampFits` | `backends/vulkan/vulkan_kernel.cpp:898-930` | after clamp_batch a batch holds a whole workgroup, fits the scratch and the device's workgroup count |
| `Kernel.ResizesOwnMeasurement` | `backends/vulkan/vulkan_kernel.cpp:859-896` | whenever a measurement changes the batch size, the dispatch it measured was launched at that size, and the next `depth` completions are ignored |
| `Kernel.DispatchKeeps` | `backends/vulkan/vulkan_kernel.cpp:512-625` | dispatch, whether it fails or where, keeps the queue ordered, every slot the ring's, stale launches below `hold_` and the batch within its bounds |
| `Kernel.CollectKeeps` | `backends/vulkan/vulkan_kernel.cpp:627-683` | so does collect, for every ending of the dispatch collected |
| `Kernel.ConflictIffFull` | `backends/vulkan/command_ring.cpp:85-106` | the slot offered next is an outstanding dispatch's if and only if one of these was begun a whole number of rings ago, which within a ring's span is the oldest, a ring ago |
| `Kernel.DispatchIsSafeIff` | `backends/vulkan/vulkan_kernel.cpp:555-617` | a dispatch leaves the results of the outstanding ones alone if and only if it is not submitted or its slot is none of theirs |
| `Kernel.DrainedRunsAreSafe` | `backends/vulkan/vulkan_kernel.cpp:512-748` | in every run whose caller empties the queue after a dispatch lost past `begin()`, outstanding dispatches have distinct slots and no results are replaced before they were read |
| `Kernel.CollectedInOrder` | `backends/vulkan/vulkan_kernel.cpp:627-663` | in every run, what was submitted is what was collected, in that order, followed by what is outstanding |
| `Kernel.UndrainedRunOverwrites` | `backends/vulkan/vulkan_kernel.cpp:555-617` | a run of a caller that does not empty the queue, in which a result buffer is given away |
| `Kernel.CommandRing.Begin` | `backends/vulkan/command_ring.cpp:85-106` | the next slot in turn, advancing whether it succeeds or not, once its fence has been waited for |
| `Kernel.VulkanKernel.Dispatch` | `backends/vulkan/vulkan_kernel.cpp:477-625` | the fields after a dispatch are those of the specified state, for every answer of the device |
| `Kernel.VulkanKernel.Collect` | `backends/vulkan/vulkan_kernel.cpp:627-683` | the same of collect, which takes the oldest entry off before anything can fail |
| `Kernel.VulkanKernel.Retune` | `backends/vulkan/vulkan_kernel.cpp:859-896` | nothing without a time, one less to hold while holding, else the size `KernelLaws.NextSizeAims` tells, clamped |
| `KernelLaws.NextSizeAims` | `backends/vulkan/vulkan_kernel.cpp:859-896` | before the limits, the size after a dispatch slower than a twentieth of a second is no larger and after a faster one no smaller; from an 80th to a fifth of a second it is the number that would have taken just that long, rounded down, and it is never above four times the last or 2^28 |
| `KernelLaws.ClampIsNearest` | `backends/vulkan/vulkan_kernel.cpp:898-930` | clamp_batch gives the size itself where it is between the limits, and else the nearer limit; where they cross, the upper |
| `KernelLaws.SizeIsClamped` | `backends/vulkan/vulkan_kernel.cpp:859-930` | in every run the batch is a size clamp_batch leaves alone |
| `KernelLaws.CompletionSteers` | `backends/vulkan/vulkan_kernel.cpp:627-683` | in every run a completion that took too long never makes the batch larger, and one too short never smaller, by four times at most; no other completion than a measurement changes it |
| `KernelLaws.HoldRunsOut` | `backends/vulkan/vulkan_kernel.cpp:859-896` | after a change, `depth` measurements are let pass one by one |
| `KernelLaws.SentIff` | `backends/vulkan/vulkan_kernel.cpp:512-625` | in every run, a dispatch is sent if and only if it is of 1 to max_batch nonces, everything is ready, there is room in the queue, its fence is free or waited for and the device takes it; then it is the last of the queue |
| `KernelLaws.LateQuarters` | `backends/vulkan/vulkan_kernel.cpp:650-663` | a dispatch of the present size that is late quarters the batch as far as the least allows |
| `Programs.EveryRunIsSound` | `backends/vulkan/vulkan_kernel.cpp:418-460` | in every run, the pipeline in use is the program's, and every unfinished dispatch still counted was recorded against the pipeline in use or the retiring one |
| `Programs.PreparedIsAskedFor` | `backends/vulkan/vulkan_kernel.cpp:418-460` | after prepare_program succeeds the pipeline is the compile of the program asked for, whatever was built ahead; where it fails nothing is switched |
| `Programs.CollectDropsIff` | `backends/vulkan/vulkan_kernel.cpp:635-663` | collect drops the pipeline of the unfinished dispatch it takes off if and only if it is the last and was recorded against the retired one |
| `Programs.OvertakenDispatchLosesIt` | `backends/vulkan/vulkan_kernel.cpp:640-643` | a run in which it does |
| `Programs.SwitchesUseAhead` | `backends/vulkan/vulkan_kernel.cpp:805-842` | over consecutive programs with working compiles, every switch but the first uses the pipeline built ahead |
| `Programs.NextIsBuiltAhead` | `backends/vulkan/vulkan_kernel.cpp:426-459` | after any switch the thread is at the program one key on, unless 64 bits end there |
| `Programs.ReplacedIsKept` | `backends/vulkan/vulkan_kernel.cpp:844-857` | in every run, a switch keeps the pipeline it replaces while anything is outstanding, and lets the one kept before go once the device is done with everything |
| `Programs.ProgramKernel.PrepareProgram` | `backends/vulkan/vulkan_kernel.cpp:418-460` | the fields after prepare_program are those of the specified state |
| `Programs.ProgramKernel.Retire` | `backends/vulkan/vulkan_kernel.cpp:844-857` | one replaced pipeline is kept while anything is outstanding; a second makes the device idle first |
| `TableUse.EveryRunIsSound` | `backends/vulkan/shared_state.cpp:215-262` | in every run, whatever is unfinished was submitted for the key whose table is in the buffers |
| `TableUse.NoWriteUnderDispatch` | `backends/vulkan/shared_state.cpp:215-262` | in every run, failed rebuilds included, no rebuild writes while a dispatch is unfinished, and every dispatch has its own key's table until it ends |
| `TableUse.DispatchesOwnKey` | `backends/vulkan/vulkan_kernel.cpp:480-491` | a dispatch that goes out runs against the table of its kernel's key |
| `TableUse.SplitStepIsSafeIff` | `backends/vulkan/vulkan_kernel.cpp:480-617` | with ensure and submit taken apart, and any asks in between, it does if and only if none was for another key or a rebuild for its own has worked since the last that was |
| `TableUse.SwappedAndBack` | `backends/vulkan/shared_state.cpp:215-262` | another key's ask loses the table; one more for its own brings it back if the rebuild works |
| `TableUse.SharedState.Ensure` | `backends/vulkan/shared_state.cpp:215-262` | the table is the key's afterwards, or the call says it is not |
| `SharedTable.LargestPow2` | `backends/vulkan/shared_state.cpp:42-50` | the largest power of two that is no larger |
| `SharedTable.MakePlan` | `backends/vulkan/shared_state.cpp:52-135` | the pieces a table is cut into, or None where there are none that suit: `TableLaws` says of every plan what it is, from the limits alone |
| `TableLaws.PlanSuits` | `backends/vulkan/shared_state.cpp:52-135` | every piece of a plan is within the device's allocation and binding range and the size the kernel names; they are whole quads, a power of two unless there is one, together the table, in no more bindings than declared or 16; below the table, twice the size would exceed one of those limits |
| `TableLaws.PlanIsBest` | `backends/vulkan/shared_state.cpp:52-135` | no other such pieces are larger, or fewer |
| `TableLaws.PlannedIff` | `backends/vulkan/shared_state.cpp:52-135` | a table has a plan if and only if it can be cut into such pieces |
| `SharedTable.PlanIsCut` | `backends/vulkan/shared_state.cpp:52-199` | a table cut by the plan has as many pieces as it says, of a power of two where there are several |
| `SharedTable.Allocate` | `backends/vulkan/shared_state.cpp:137-199` | the pieces cover the table, each full but the last |
| `SharedTable.Upload` | `backends/vulkan/shared_state.cpp:264-386` | a staged upload that succeeds leaves the table's bytes in the pieces, none of its copies crossing two; it succeeds where the host and every copy do |
| `SharedTable.HostBytes` | `algorithms/progpow/progpow.cpp:526-558` | the host's bytes of the table from any offset, whole items or parts of them |
| `SharedTable.Generate` | `backends/vulkan/shared_state.cpp:388-571` | sliced generation that succeeds leaves the same bytes as far as the items go, whatever the timings; with several pieces it can if and only if the items divide the table and an item divides a piece |
| `SharedTable.NextItems` | `backends/vulkan/shared_state.cpp:483-500` | a slice stays within its piece and the table, and is as large as it may be |
| `TableLaws.NextSliceAims` | `backends/vulkan/shared_state.cpp:440-571` | a slice slower than aimed at is followed by one no longer, and a faster one by one no shorter, within the bounds |
| `SharedTable.OneContent` | `backends/vulkan/shared_state.cpp:264-571` | pieces that hold the table are equal, however they came by it |
| `SharedTable.FillBothWays` | `backends/vulkan/shared_state.cpp:264-571` | generation and upload leave one and the same table, where the items are all of it |
| `SharedTable.PlannedDividesIff` | `backends/vulkan/shared_state.cpp:438-461` | an item of a power of two of bytes divides a planned piece if and only if it fits into it |
| `SharedTable.CreateFilled` | `backends/vulkan/shared_state.cpp:52-571` | so a table of such items that has a plan is filled, and both ways alike |
| `SharedTable.ReadsCanonical` | `backends/vulkan/shared_state.cpp:42-135` | a byte read at its offset divided by the piece size, and modulo it, is the table's |
| `Registry.OneLiveTable` | `backends/vulkan/vulkan_backend.cpp:157-192` | in every run of create, destroy, retain and ensure there is at most one live table, every holder has it, and it is of the size each kernel declared |
| `Registry.RetainedIsHandedOver` | `backends/vulkan/vulkan_backend.cpp:157-289` | a table retained before its last kernel goes is handed to the next kernel of its size with its key, so that nothing is rebuilt |
| `Registry.FailedBuildLosesIt` | `backends/vulkan/vulkan_backend.cpp:182-192` | where that kernel is not built, the table survives if and only if another kernel holds it |
| `Registry.RetainedTableLost` | `backends/vulkan/vulkan_backend.cpp:182-192` | a run in which it does not |
| `Registry.Backend.CreateKernel` | `backends/vulkan/vulkan_backend.cpp:157-192` | the fields after create_kernel are those of the specified state, and it answers whether the kernel was made |
| `RegistryLaws.CreateIff` | `backends/vulkan/vulkan_backend.cpp:157-192` | a kernel with a table is made if and only if it is built, every kernel there has a table of that size, and one is there, pinned, or granted; it shares that one, pins on other sizes being no obstacle, and no pin is left |
| `RegistryLaws.LockIff` | `backends/vulkan/vulkan_backend.cpp:157-192` | there is a table to share exactly where a kernel or a pin holds one |
| `RegistryLaws.NotMade` | `backends/vulkan/vulkan_backend.cpp:182-192` | where it is not made, a table stays only if another kernel holds it |
| `RegistryLaws.RetainPins` | `backends/vulkan/vulkan_backend.cpp:278-288` | a pin is on the table there is, until it is taken off |
| `RegistryLaws.EnsureBuilds` | `backends/vulkan/shared_state.cpp:215-262` | a table is rebuilt only for another key or where it is not ready, and is ready for the new key exactly if that works |
| `Registry.Backend.RetainSharedState` | `backends/vulkan/vulkan_backend.cpp:278-288` | the same of retain_shared_state |
| `Registry.Backend.SharedStateBytes` | `backends/vulkan/vulkan_backend.cpp:290-298` | the size of the live table, 0 without one |
| `Fit.FitKernel` | `backends/vulkan/vulkan_kernel.cpp:1129-1277` | vulkan_kernel_fit computes the specified shape and batch or refuses; what it accepts is fit for the controller and, where a nonce's bytes do not wrap, within the budget |
| `FitLaws.LcmIsCommon` | `backends/vulkan/vulkan_kernel.cpp:1173-1173` | both numbers divide the step of a width in whole subgroups |
| `FitLaws.LcmIsLeast` | `backends/vulkan/vulkan_kernel.cpp:1173-1173` | and the step divides every width that both do |
| `FitLaws.WidthIsNearest` | `backends/vulkan/vulkan_kernel.cpp:1143-1183` | the width is the largest of whole hashes, and whole subgroups if asked for, that is no wider than asked for, or the smallest there is |
| `FitLaws.ShapeIff` | `backends/vulkan/vulkan_kernel.cpp:1149-1203` | a shape is refused if and only if every such width is too wide for the device or too many nonces are asked for |
| `FitLaws.ShapeTells` | `backends/vulkan/vulkan_kernel.cpp:1135-1209` | depth, lanes and nonces come from the spec, else the options, else 3 and 1; a workgroup's nonces are those of the hashes it holds |
| `FitLaws.OwnWidth` | `backends/vulkan/vulkan_kernel.cpp:74-88` | the device's own width is the largest up to 256 that it can run, in whole subgroups if it holds one |
| `FitLaws.Budgets` | `backends/vulkan/vulkan_kernel.cpp:1089-1127` | nine tenths and three quarters of a card's memory, a quarter of the host's, three twentieths for software, with their ceilings |
| `FitLaws.BatchIsLargest` | `backends/vulkan/vulkan_kernel.cpp:1221-1272` | where the count of a nonce does not wrap, a kernel is accepted if and only if there is room for a workgroup beside the table, and its batch is the largest of whole workgroups that has room |
| `FitLaws.WithoutScratch` | `backends/vulkan/vulkan_kernel.cpp:1211-1219` | without scratch the shape is all |
| `Fit.FitIsSane` | `backends/vulkan/vulkan_kernel.cpp:1205-1272` | what it accepts has limits the controller is proved for, where a workgroup is at most 2^28 nonces |
| `Fit.PlanAcceptsSmaller` | `backends/vulkan/shared_state.cpp:52-135` | a device with a plan for a table has one for every smaller table of whole 16 bytes |
| `Fit.FitGrows` | `backends/vulkan/vulkan_kernel.cpp:1229-1272` | beside a smaller table a kernel fits too, with no smaller batch |
| `Fit.AcceptedOnceAcceptedAlways` | `backends/vulkan/vulkan_backend.cpp:200-276` | what would_fit accepts is accepted for every table up to the largest declared |
| `Fit.WouldFitIff` | `backends/vulkan/vulkan_backend.cpp:200-276` | and it accepts the largest if and only if every size up to it, in whole 16 bytes, is within the table's budget, has a plan and leaves room for the kernel |
| `Fit.MonotoneIff` | `algorithms/progpow/progpow_dag.cpp:81-97` | the dataset's epoch never falls back up to `last` if and only if nothing wraps: the offset before the multiplier applies, the first scaled epoch, and the steps after it |
| `Fit.EpochsWrap` | `algorithms/progpow/progpow_dag.cpp:81-97` | a multiplier of two that wraps, and the last epoch before it does |
| `Fit.EveryEpochFits` | `backends/vulkan/vulkan_backend.cpp:200-276` | with dataset sizes that never shrink and no wrap, what fits the last declared epoch fits every earlier one |
| `Fit.ScratchWithinBudget` | `backends/vulkan/vulkan_kernel.cpp:1229-1272` | as many kernels as share the device, beside one table, take no more than the budget, where a nonce is counted in full |
| `Fit.CountsAllUnwrapped` | `backends/vulkan/vulkan_kernel.cpp:1249-1253` | which it is where the product does not wrap |
| `Fit.BatchFitsIff` | `backends/vulkan/vulkan_kernel.cpp:1245-1272` | every accepted batch fits the memory left if and only if a nonce is counted with what its buffers take |
| `Fit.WrappedScratchOverflows` | `backends/vulkan/vulkan_kernel.cpp:1249-1253` | a kernel whose per-nonce product wraps to nothing: it is accepted, with buffers larger than the device |
| `Fit.ScratchInBoundsIff` | `backends/vulkan/vulkan_kernel.cpp:292-294` | the largest dispatch stays within its scratch buffer if and only if there is one lane to a nonce |
| `Fit.LanesOutOfBounds` | `backends/vulkan/vulkan_kernel.cpp:1229-1272` | a kernel of two lanes that is accepted and whose full dispatch is out of bounds |
| `ProgpowProgram.Kiss99.Next` | `algorithms/progpow/progpow_program.h:82-121` | the next number of the generator's stream |
| `ProgpowLaws.FnvVectors` | `algorithms/progpow/progpow_program.h:79-85` | EIP-1057's test vectors for FNV1a |
| `ProgpowLaws.KissVectors` | `algorithms/progpow/progpow_program.h:87-110` | and its first numbers for KISS99 |
| `ProgpowLaws.DrawnAfterSteps` | `algorithms/progpow/progpow_program.h:95-107` | the n-th number of a stream comes after n + 1 steps |
| `ProgpowLaws.PeriodSeed` | `algorithms/progpow/progpow_program.cpp:19-27` | the generator of a period is seeded with its two halves, low before high, folded from the offset basis |
| `ProgpowProgram.ShufflePermutes` | `algorithms/progpow/progpow_program.cpp:35-51` | both interleaved shuffles leave permutations of the registers |
| `ProgpowProgram.Shuffle` | `algorithms/progpow/progpow_program.cpp:41-51` | in place, drawing two numbers a step, they are the specified ones |
| `ProgpowLaws.ShuffleSteps` | `algorithms/progpow/progpow_program.cpp:37-51` | from the last place down, one exchange in each sequence with the place the next number says, modulo the places left, destinations first |
| `ProgpowProgram.ProgramIsRight` | `algorithms/progpow/progpow_program.cpp:53-110` | every word of the program, selectors and math sources included, is made of the number of the stream that the interleaved order gives it, counted in closed form |
| `ProgpowLaws.SourcesOfDraw` | `algorithms/progpow/progpow_program.cpp:77-84` | one number tells two different registers apart: the first is its remainder, the second its quotient among the others |
| `ProgpowLaws.ReadsLayout` | `algorithms/progpow/progpow_program.cpp:65-75` | cache read i is at words 3i to 3i + 2: source, destination and the selector with its number |
| `ProgpowLaws.OperationsLayout` | `algorithms/progpow/progpow_program.cpp:76-96` | math operation i is at words 36 + 5i on: two sources of one number, a selector, the destination and a selector |
| `ProgpowLaws.MergesLayout` | `algorithms/progpow/progpow_program.cpp:99-110` | merge i is at words 126 + 2i on, the first into register 0 without a draw |
| `ProgpowProgram.EveryProgramIsSound` | `algorithms/progpow/progpow_program.cpp:9-111` | for every stream of numbers and every shape within the maxima, register words are below `regs`, math sources differ, the first DAG merge goes to register 0, unused words are zero, and any `regs` destinations in a row are all the registers, once each |
| `ProgpowProgram.RegisterWord` | `algorithms/progpow/progpow_program.h:137-146` | names_a_register names the words that hold register numbers |
| `ProgpowProgram.BuildProgram` | `algorithms/progpow/progpow_program.cpp:9-111` | build_program makes that program, from the period's seed |
| `ProgpowHash.RunRound` | `algorithms/progpow/progpow_hash.cpp:195-239` | operation by operation across the lanes is each lane alone through the whole program; nothing is indexed out of range |
| `ProgpowHash.EachWordOnce` | `algorithms/progpow/progpow_hash.cpp:229-238` | each of the 64 words of a line is read by exactly one lane, once |
| `ProgpowHash.Rounds` | `algorithms/progpow/progpow_hash.cpp:265-277` | over all rounds, a lane ends where it gets by itself from its registers and the lines; only the index of a line passes between lanes |
| `ProgpowLaws.RoundTrace` | `algorithms/progpow/progpow_hash.cpp:196-239` | a round of a lane step by step: each cache read and math operation changes one register by a merge of what it names, in turn, and then four words of the line |
| `ProgpowLaws.QuarterBit` | `algorithms/progpow/progpow_hash.cpp:229-238` | bit by bit, a lane takes the quarter of the line that its number or the round's has, but not both |
| `RandomOps.MergeKeepsEntropy` | `algorithms/progpow/progpow_hash.cpp:142-165` | random_merge is one to one and onto in its first operand, in every case |
| `RandomOps.RotatingCasesCancel` | `algorithms/progpow/progpow_hash.cpp:109-140` | the two rotating cases of random_math undo each other, for every rotation count |
| `RandomOps.RandomMathSwitch` | `algorithms/progpow/progpow_hash.cpp:83-140` | random_math, with its counting loops and masked rotations, computes the eleven operations that the laws below tell apart by bits and sizes |
| `RandomLaws.ArithmeticCases` | `algorithms/progpow/progpow_hash.cpp:113-123` | case 0 is the sum less 2^32 if it must be; case 2 times 2^32 plus case 1 is the product; case 3 is one of the two and no larger than either |
| `RandomLaws.Rotations` | `algorithms/progpow/progpow_hash.cpp:124-127` | cases 4 and 5 move bit i up or down by the second word modulo 32 |
| `RandomLaws.BitByBit` | `algorithms/progpow/progpow_hash.cpp:128-133` | bit i of cases 6, 7 and 8 is set if and only if it is in both, in either, in exactly one |
| `RandomLaws.ClearCounts` | `algorithms/progpow/progpow_hash.cpp:134-135` | case 9 counts the bits of each word clear above its highest |
| `RandomLaws.SetCounts` | `algorithms/progpow/progpow_hash.cpp:136-137` | case 10 counts the bits set |
| `RandomLaws.Multiplied` | `algorithms/progpow/progpow_hash.cpp:146-156` | cases 0 and 1 of random_merge are 33 a + b and 33 times the bits in one of the two, modulo 2^32 |
| `RandomLaws.RotatedInto` | `algorithms/progpow/progpow_hash.cpp:146-163` | cases 2 and 3 move a by 1 to 31 places, as the selector's upper half says, into b |
| `RandomOps.LeadingZeros` | `algorithms/progpow/progpow_hash.cpp:83-91` | clz32 is 32 less the bit length |
| `RandomOps.PopCount` | `algorithms/progpow/progpow_hash.cpp:93-101` | popcount32 counts the ones |
| `RandomOps.RotationsCancel` | `algorithms/progpow/progpow_hash.cpp:36-39` | a rotation and the one that completes it to 32 places cancel |
| `Keccak.Rotate` | `algorithms/progpow/progpow_hash.cpp:36-39` | rotl32, a rotation by nothing included |
| `Keccak.SpreadInverse` | `algorithms/progpow/progpow_hash.cpp:45-54` | what theta does to the column parities has an inverse: 95 times the same |
| `Keccak.ThetaInverse` | `algorithms/progpow/progpow_hash.cpp:44-54` | theta is one to one and onto |
| `Keccak.DestIsOneToOne` | `algorithms/progpow/progpow_hash.cpp:56-66` | rho and pi move every word to a place of its own |
| `Keccak.RhoPiInverse` | `algorithms/progpow/progpow_hash.cpp:56-66` | rho and pi are one to one and onto |
| `Keccak.ChiInverse` | `algorithms/progpow/progpow_hash.cpp:67-71` | chi is one to one and onto, row by row |
| `Keccak.IotaInverse` | `algorithms/progpow/progpow_hash.cpp:72-72` | iota undoes itself |
| `Keccak.PermutationIsBijective` | `algorithms/progpow/progpow_hash.cpp:41-74` | any number of rounds of keccak_f800 is one to one and onto |
| `Keccak.KeccakF800` | `algorithms/progpow/progpow_hash.cpp:41-74` | the loops over the state compute those rounds in place |
| `KeccakLaws.ThetaBit` | `algorithms/progpow/progpow_hash.cpp:44-54` | theta of FIPS 202, section 3.2.1, bit by bit |
| `KeccakLaws.RhoPiBit` | `algorithms/progpow/progpow_hash.cpp:56-66` | rho and pi, sections 3.2.2 and 3.2.3, bit by bit |
| `KeccakLaws.OffsetsAreTriangular` | `algorithms/progpow/progpow_hash.cpp:31-34` | the rotations are the triangular numbers along the walk that pi makes |
| `KeccakLaws.ChiBit` | `algorithms/progpow/progpow_hash.cpp:67-71` | chi, section 3.2.4, bit by bit |
| `KeccakLaws.ConstantIs` | `algorithms/progpow/progpow_hash.cpp:22-29` | the constants are those of the shift register of section 3.2.5 |
| `KeccakLaws.IotaBit` | `algorithms/progpow/progpow_hash.cpp:72-72` | iota changes word (0, 0) where that register says |
| `KeccakLaws.RoundsAreSteps` | `algorithms/progpow/progpow_hash.cpp:41-74` | 22 rounds, each the five in this order |
| `ProgpowSeal.KeccakWords` | `algorithms/progpow/progpow_hash.cpp:41-74` | the same on 32-bit numbers |
| `ProgpowSeal.PermutedIsBijective` | `algorithms/progpow/progpow_hash.cpp:41-74` | and it is a bijection of those |
| `ProgpowSeal.InitMix` | `algorithms/progpow/progpow_hash.cpp:176-189` | every register of a lane is the next number of the lane's own generator |
| `ProgpowLaws.LaneVectors` | `algorithms/progpow/progpow_hash.cpp:176-189` | EIP-1057's vectors for the seeds of two lanes and what they put out |
| `ProgpowLaws.FilledInOrder` | `algorithms/progpow/progpow_hash.cpp:182-188` | register r of a lane is the r-th number |
| `ProgpowSeal.FoldMix` | `algorithms/progpow/progpow_hash.cpp:289-292` | each word of the mix hash takes two lanes, in lane order |
| `ProgpowLaws.LaneFolded` | `algorithms/progpow/progpow_hash.cpp:283-288` | a lane's registers are folded one by one, the first first, from the offset basis on |
| `ProgpowSeal.FetchedAgree` | `algorithms/progpow/progpow_hash.cpp:172-277` | the lines a hash fetches do not depend on registers the fork does not have |
| `ProgpowSeal.LeftoversMakeNone` | `algorithms/progpow/progpow_hash.cpp:172-287` | nor does anything folded from the lanes: what init_mix leaves unwritten is never seen |
| `ProgpowSeal.Hash` | `algorithms/progpow/progpow_hash.cpp:243-312` | hash computes the mix hash and digest specified lane by lane, or fails without a dataset or a line |
| `ProgpowLaws.HashTrace` | `algorithms/progpow/progpow_hash.cpp:243-312` | a hash from end to end: what is in the two states, which line each round fetches, where the lanes walk, which lanes a word of the mix takes and what the digest is of |
| `ProgpowLaws.HashFails` | `algorithms/progpow/progpow_hash.cpp:243-275` | there is none without a dataset, and with one only for want of a line |
| `ProgpowSeal.SealInPeriod` | `algorithms/progpow/progpow_hash.cpp:243-312` | with the program of any period, whose every word the interpreter can run |
| `Words.GuardIsPow2` | `algorithms/scrypt/scrypt.cpp:239-245` | n & (n - 1) is zero exactly for the powers of two |
| `Words.MaskIsRemainder` | `algorithms/scrypt/scrypt.cpp:184-188` | the mask n - 1 is the remainder by n, for every power of two of 32 bits |
| `Salsa.Salsa20_8` | `algorithms/scrypt/scrypt.cpp:105-150` | the thirty-two statements of a double round are the Salsa20 specification's columnround and rowround, and four of them with the input added make the core |
| `ScryptLaws.QuarterRoundExamples` | `algorithms/scrypt/scrypt.cpp:110-127` | four of the examples of quarterround in section 3 of the Salsa20 specification |
| `ScryptLaws.RowsAreQuarters` | `algorithms/scrypt/scrypt.cpp:129-145` | a row round is a quarter round on each row, from the diagonal on |
| `ScryptLaws.ColumnsAreQuarters` | `algorithms/scrypt/scrypt.cpp:111-127` | a column round is one on each column |
| `ScryptLaws.CoreIsRounds` | `algorithms/scrypt/scrypt.cpp:105-150` | the core is the input and four double rounds of it, added modulo 2^32 |
| `Romix.SlotsAreABijection` | `algorithms/scrypt/scrypt.cpp:166-167` | the output slots are a bijection on the 2r blocks, inverse to RFC 7914's order |
| `Romix.ShuffleIsIdentityIff` | `algorithms/scrypt/scrypt.cpp:152-155` | the shuffle is the identity if and only if r is 1 |
| `Romix.BlockMixInto` | `algorithms/scrypt/scrypt.cpp:156-169` | block_mix computes scryptBlockMix, section 4 of RFC 7914 |
| `ScryptLaws.BlockMixSteps` | `algorithms/scrypt/scrypt.cpp:156-169` | result i is the core of block i xored into result i - 1, the last block before the first, and goes where its parity says |
| `ScryptLaws.XorBlockBit` | `algorithms/scrypt/scrypt.cpp:162-163` | bit by bit |
| `Romix.MaskIsIntegerify` | `algorithms/scrypt/scrypt.cpp:184-188` | the masked low word is Integerify modulo N |
| `Romix.RoMixInPlace` | `algorithms/scrypt/scrypt.cpp:174-195` | romix computes scryptROMix, section 5 of RFC 7914 |
| `ScryptLaws.RoMixSteps` | `algorithms/scrypt/scrypt.cpp:174-195` | the scratchpad and the second loop of section 5 of RFC 7914, step by step |
| `ScryptLaws.IntegerifyWord` | `algorithms/scrypt/scrypt.cpp:185-188` | Integerify reads the last block, lowest word first |
| `Romix.PlacesFitIff` | `algorithms/scrypt/scrypt.cpp:156-176` | the places computed in 32 bits are the ones meant if and only if r is below 2^27 |
| `Pbkdf2.HmacSha256` | `algorithms/scrypt/scrypt.cpp:63-91` | HMAC of RFC 2104, for every key length, even where the output is the message |
| `ScryptLaws.HmacPads` | `algorithms/scrypt/scrypt.cpp:63-91` | HMAC in RFC 2104's terms: two pads that turn round bits 1, 2, 4, 5 and 2, 3, 4, 6 of every byte of the key, hashed if it is longer than a block |
| `Pbkdf2.Pbkdf2Sha256` | `algorithms/scrypt/scrypt.cpp:199-232` | section 5.2 of RFC 8018, for every length and iteration count |
| `ScryptLaws.KeyBytes` | `algorithms/scrypt/scrypt.cpp:199-232` | every byte of a key: of which block, with what number, and its bits those set in an odd number of the iterates |
| `Pbkdf2.CountersAreNumbersIff` | `algorithms/scrypt/scrypt.cpp:208-209` | every block has its own number if and only if the key is no longer than the RFC allows |
| `Pbkdf2.ShorterIsPrefix` | `algorithms/scrypt/scrypt.cpp:226-230` | a shorter key is the beginning of a longer one |
| `Scrypt.DecodedIsInverse` | `algorithms/scrypt/scrypt.cpp:260-267` | words survive being written out and read back |
| `Scrypt.GuardIsExact` | `algorithms/scrypt/scrypt.cpp:239-245` | the guard turns away exactly the parameters the RFC does not define |
| `Scrypt.MixLanes` | `algorithms/scrypt/scrypt.cpp:257-268` | every part is mixed by itself, with one scratchpad for all |
| `Scrypt.ScryptSha256` | `algorithms/scrypt/scrypt.cpp:234-271` | scrypt computes section 6 of RFC 7914, and zeros for other parameters |
| `ScryptLaws.KeyFromParts` | `algorithms/scrypt/scrypt.cpp:247-271` | the key is derived from p parts each mixed alone, of little-endian words before and after |
| `Utf8.Encode` | `compat/jansson/utf.c:11-45` | the encoding table of RFC 3629, refusing what is no code point |
| `Utf8.CheckFull` | `compat/jansson/utf.c:83-137` | accepts exactly the table's encodings of scalar values, and gives the value |
| `Utf8.FullIffEncoded` | `compat/jansson/utf.c:83-137` | a full character is one of the table, and nothing else is |
| `Utf8Laws.EncodingCarries` | `compat/jansson/utf.c:11-45` | as many bytes as needed, a lead byte that says how many, six bits in each other, and together the code point |
| `Utf8Laws.Examples` | `compat/jansson/utf.c:11-45` | the examples of RFC 3629, section 7 |
| `Utf8.CheckString` | `compat/jansson/utf.c:165-190` | accepts exactly the strings of such characters |
| `Utf8Laws.ValidIff` | `compat/jansson/utf.c:165-190` | the strings accepted are those of Unicode's characters, one encoding after another |
| `Utf8Laws.OneSpelling` | `compat/jansson/utf.c:139-163` | and each of one string of characters only |
| `Utf8.Iterate` | `compat/jansson/utf.c:139-163` | moves by one character and gives it, or fails |
| `JsonReal.Dtostr` | `compat/jansson/strconv.c:81-134` | jsonp_dtostr, in its buffer: printf's digits with a point or an exponent, the exponent without plus or leading zeros |
| `JsonDump.DumpString` | `compat/jansson/dump.c:68-158` | appends the escaped text, and says whether the string was UTF-8 |
| `JsonSpelling.StringSpelled` | `compat/jansson/dump.c:68-158` | a string goes out character by character: by letter the quote, the backslash, five controls and on demand the slash; by number, in lower case and as a pair above U+FFFF, other controls and on demand what is no ASCII; everything else as it is |
| `JsonDump.DoDump` | `compat/jansson/dump.c:174-410` | appends the text of a value, reals included, for every combination of flags |
| `JsonDump.Dumps` | `compat/jansson/dump.c:412-427` | json_dumps gives that text, or None; the laws below say which text it is |
| `JsonLayout.DumpIsLaidOut` | `compat/jansson/dump.c:46-427` | json_dumps of UTF-8 gives the text of a tree of the grammar. With an indent each item, member and closing bracket has a line of its own, indented by its depth; without, there is one space behind `,` and `:`, or none if compact. The leaves are the value's integers, reals and strings, the members its pairs, sorted by bytes, by age, or as iterated |
| `JsonLayout.DumpsIff` | `compat/jansson/dump.c:412-456` | there is a text if and only if the value may stand alone and its string values are UTF-8 |
| `JsonLayout.KeyLessIff` | `compat/jansson/dump.c:160-164` | keys are ordered at the first byte that differs, or where one ends |
| `JsonLayout.Arrangement` | `compat/jansson/dump.c:285-345` | every pair is written once, in the order the flags ask for |
| `JsonLex.Lexer.Get` | `compat/jansson/load.c:148-209` | the next byte of the text, or its end, or where it stops being UTF-8 |
| `JsonLex.Lexer.Unget` | `compat/jansson/load.c:211-228` | takes it back |
| `JsonLex.Lexer.ScanString` | `compat/jansson/load.c:306-458` | a string token with its escapes, digits of either case and surrogate pairs included, or an invalid one |
| `JsonLaws.UnitOfDigits` | `compat/jansson/load.c:283-304` | four hexadecimal digits, each from the lower or the upper table, are worth the number they write |
| `JsonLaws.EscapeLoads` | `compat/jansson/load.c:306-458` | so an escape of them loads as the character of that number |
| `JsonLaws.PairLoads` | `compat/jansson/load.c:366-425` | and two that write a surrogate pair as the one character of it |
| `JsonLex.Lexer.ScanNumber` | `compat/jansson/load.c:473-566` | an integer within 64 bits, a real strtod takes, or an invalid token |
| `JsonLex.Lexer.LexScan` | `compat/jansson/load.c:568-636` | the token the grammar has at this place, and where it ends |
| `JsonParse.ParseValue` | `compat/jansson/load.c:784-846` | the value that starts with the token, for every combination of flags, or a failure |
| `JsonParse.Loads` | `compat/jansson/load.c:848-931` | json_loads is that on the whole text |
| `JsonGrammar.LoadIff` | `compat/jansson/load.c:784-931` | a text loads to a value if and only if it is UTF-8 and the text of a tree of RFC 8259's grammar that means that value |
| `JsonGrammar.LoadPrefixIff` | `compat/jansson/load.c:848-879` | without the check for the end, if and only if such an array or object starts it |
| `JsonGrammar.OneMeaning` | `compat/jansson/load.c:784-931` | however a text is derived, it means one thing |
| `JsonTheorems.DumpsIffValuesUtf8` | `compat/jansson/dump.c:174-410` | do_dump gives up if and only if a string value is not UTF-8 |
| `JsonTheorems.LoadedIsWellFormed` | `compat/jansson/load.c:306-879` | every text that loads gives strings and keys of UTF-8 without NUL and integers of 64 bits |
| `JsonTheorems.RoundTrip` | `compat/jansson/dump.c:68-456` | for every tree and every combination of flags, the dumped text loads to an equal tree if and only if every string and key is UTF-8 and every number is read back as itself |
| `JsonTheorems.DumpedLoads` | `compat/jansson/load.c:784-931` | what is dumped of UTF-8 loads to the tree with its numbers as strtod has them, or not at all if it does not take one |
| `JsonTheorems.UnreadRealIsLost` | `compat/jansson/strconv.c:71-74` | a real strtod does not take is dumped and not loaded |
| `JsonCanonical.SortedDumpIsCanonical` | `compat/jansson/dump.c:160-345` | with sorted keys, equal values have one text: neither hash order nor insertion shows |
| `JsonCanonical.LoadedIsStable` | `compat/jansson/load.c:848-931` | what was loaded dumps, and loads again to itself if and only if its numbers are read back as themselves |
| `JsonCanonical.BadKeyIsDumpedWrong` | `compat/jansson/dump.c:339-376` | a key that is not UTF-8 is dumped, and its text is not that object's |
| `HashTable.HashStr` | `compat/jansson/hashtable.c:21-35` | the hash of a key, its characters signed |
| `HashTableLaws.HashIsPolynomial` | `compat/jansson/hashtable.c:21-35` | it is 5381 33^n + c1 33^(n-1) + ... + cn of the signed characters, modulo 2^64 |
| `HashTable.ListInsert` | `compat/jansson/hashtable.c:43-49` | a node comes in before another, the rest of the list as it was |
| `HashTable.ListRemove` | `compat/jansson/hashtable.c:51-55` | a node goes out, the rest of the list as it was |
| `HashTable.InsertGroups` | `compat/jansson/hashtable.c:62-82` | where a pair goes, every bucket stays one stretch of the list |
| `HashTable.RemoveGroups` | `compat/jansson/hashtable.c:116-146` | and where one goes away |
| `HashTable.Table.FindPair` | `compat/jansson/hashtable.c:90-113` | the pair of a key, or null exactly where the map has none |
| `HashTable.Table.Rehash` | `compat/jansson/hashtable.c:162-194` | more buckets, the same pairs |
| `HashTable.Table.Set` | `compat/jansson/hashtable.c:224-267` | the map with the key set; a pair that is there keeps its serial; pairs that do not outnumber the buckets still do not |
| `HashTable.Table.Get` | `compat/jansson/hashtable.c:269-283` | the map's value |
| `HashTable.Table.Del` | `compat/jansson/hashtable.c:116-289` | the map without the key, and whether it had it |
| `HashTable.Table.Clear` | `compat/jansson/hashtable.c:291-305` | the empty map |
| `HashTable.Table.Each` | `compat/jansson/hashtable.c:307-334` | iteration gives the pairs in the order of the list |
| `HashTable.Table.EachIsContents` | `compat/jansson/hashtable.c:307-334` | they are the members of the map, no key twice and none left out |
| `Exchange.Gcd` | `compat/getopt/getopt_long.c:142-155` | Euclid's algorithm |
| `Exchange.Bezout` | `compat/getopt/getopt_long.c:142-155` | its result divides both numbers and is a combination of them |
| `Exchange.Reaches` | `compat/getopt/getopt_long.c:178-193` | a cycle reaches everything in its class modulo the gcd |
| `Exchange.PermuteArgs` | `compat/getopt/getopt_long.c:162-193` | the two blocks change places, each in its order, everything else untouched |
| `Getopt.ExactNameFound` | `compat/getopt/getopt_long.c:200-250` | an option's exact name finds it if and only if the word abbreviates at most one option before it or is a letter standing for itself |
| `Getopt.ExactNameMissed` | `compat/getopt/getopt_long.c:235-249` | a table in which it does not |
| `Getopt.LongOptions` | `compat/getopt/getopt_long.c:200-310` | the answer for a long option, and what it consumes |
| `GetoptLaws.FindLongIs` | `compat/getopt/getopt_long.c:221-250` | where the search ends: at the exact name if at most one option before it is abbreviated, at the only one abbreviated, or ambiguous, or nowhere |
| `GetoptLaws.NameAndValue` | `compat/getopt/getopt_long.c:211-310` | name=value gives the value to an option that takes one |
| `GetoptLaws.NameAlone` | `compat/getopt/getopt_long.c:216-310` | a name alone takes the next argument if the option requires one, or misses it at the end |
| `Getopt.ParseStops` | `compat/getopt/getopt_long.c:455-475` | when a call answers -1 within a word |
| `GetoptLaws.LetterListed` | `compat/getopt/getopt_long.c:489-510` | a listed letter takes no argument, or the rest of the word, or the next argument, as the colons behind it say |
| `GetoptLaws.LetterUnlisted` | `compat/getopt/getopt_long.c:447-466` | any other letter is unknown, and a last `-` ends the run |
| `GetoptLaws.LetterForLong` | `compat/getopt/getopt_long.c:467-488` | -W name is a long option, in one word or two |
| `GetoptLaws.TwoDashes` | `compat/getopt/getopt_long.c:428-445` | --name is a long option |
| `GetoptLaws.OneDash` | `compat/getopt/getopt_long.c:428-466` | -name is letters, in getopt_long_only a long option first |
| `Getopt.StopsIff` | `compat/getopt/getopt_long.c:421-475` | a word stops a run if and only if there is no table, `-` is no option letter, and the word ends in one with no letter before it that takes an argument |
| `Getopt.NoneHalts` | `compat/getopt/getopt_long.c:421-475` | with a table, or with `-` an option letter, no run halts |
| `Getopt.HaltedScan` | `compat/getopt/getopt_long.c:455-475` | a run that does, and what it leaves |
| `Getopt.ApartIsStable` | `compat/getopt/getopt_long.c:345-425` | options and others, told apart up to `--` or where a run halts, each keep their order |
| `Getopt.Scanner.Permute` | `compat/getopt/getopt_long.c:345-425` | the skipped block changes places with the options behind it |
| `Getopt.Scanner.Next` | `compat/getopt/getopt_long.c:345-510` | each call keeps the skipped arguments one block in their order, and consumes something unless it answers -1 |
| `Getopt.Scanner.Run` | `compat/getopt/getopt_long.c:345-475` | after a whole run, with a table or without, the vector is the stable partition, options first, and optind is at the first of the others, if and only if the run does not halt with arguments passed over; if it does, these stand between the options and optind is at the word it halts in; its answers are those the two laws below tell |
| `GetoptLaws.AnswersTell` | `compat/getopt/getopt_long.c:345-510` | what a run answers: nothing for what is no option and from `--` on |
| `GetoptLaws.WordAnswers` | `compat/getopt/getopt_long.c:421-510` | and for an option what its word makes, letter by letter |

## Left out

- Calls into Vulkan, device enumeration, descriptors, barriers, the pipeline cache file, and
  the shaders: a shader that generates is taken to write item `first + i` at slot `i`.
- Threads below the steps named: dispatch, collect, prepare_program and ensure are each
  taken as one step, except where `TableUse.SplitStepIsSafeIff` takes them apart.
- Rounding of doubles, in the controller and in the budgets.
- `Fit.AcceptedOnceAcceptedAlways`: does not model would_fit's refusal because of a live
  table of another size, which depends on the kernels of the moment.
- `Fit.EveryEpochFits`: takes the sizes of datasets to be whole lines that never shrink,
  ethash not being part of this model; neither are the light cache and the items themselves.
- `Registry`: the index of a device; one device is modelled.
- `Scrypt.ScryptSha256`: requires r below 2^27, beyond which the code's 32-bit places wrap
  (`Romix.PlacesFitIff`); the hash function is a parameter, and allocation does not fail.
- `Scrypt.MixLanes`: requires the same of r.
- `Romix.RoMixInPlace`: requires the same of r.
- `SharedTable.Generate`: takes an item to have at least a byte, and the table's bytes over
  the number of items.
- `Keccak`: words are sequences of bits; `ProgpowSeal.KeccakWords` has them as numbers.
- `ProgpowHash.Rounds`: requires fewer than 2^32 - 1 rounds, the counter's width.
- The other algorithms, which copy byte orders and call hashes that are not part of this
  model, and the tuner, the options and the user interface.
- JSON doubles: printf's digits and strtod are not computed; every theorem is for any strtod.
  The decimal point of the locale is a point.
  `JSON_INDENT` and the other flags are a record and not bits of a word. The texts and columns
  of errors, circular references, callbacks that fail, and reading from files and callbacks.
- `JsonGrammar.LoadPrefixIff`: is for arrays and objects; with any value at the top and no
  check for the end, a number or a word goes on as far as it can.
- `HashTable.Table.Set`: requires that the table has not run out of its primes; freeing,
  reference counts and allocations that fail are not modelled.
- getopt's values, flag pointers, messages, `optopt`, `optreset`, POSIXLY_CORRECT and the
  option strings that start with `+` or `-`.
