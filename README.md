# SRP response-time test bed, modelled in Dafny

The test bed runs each task of a Cortex-M firmware under GDB once per KLEE
test case. The test cases come from `.ktest` files. During each run, a
cycle counter timestamps every event, and the events go into a trace
(`outputdata`):

- a `Start`;
- an `Enter` or an `Exit` of a resource claim, recorded with the claim's
  ceiling;
- a `Finish`.

When every test case has run, three analyses use the trace together with a
hand-written task table (name, priority, interarrival time):

- the total CPU utilization;
- a one-shot response-time bound R = C + B + I under the Stack Resource
  Policy (SRP);
- the exact, recurrent response-time analysis with a deadline-miss flag.

This project models those analyses, the `.ktest` decoder that feeds the
test bed, and the `trimZeros` helper. It proves properties of each.

| module | file | what it holds |
|---|---|---|
| `KTestFile` | ktest.dfy | `.ktest` decoder as a `Reader` class over the file's bytes, a pure specification `Parse`, an encoder and the round trip, and the program name |
| `Trace` | trace.dfy | trace events and the task table |
| `Demand` | demand.dfy | WCET per task (the last timed `Finish`) and utilization as an exact rational |
| `Claims` | claims.dfy | claim durations: the source's offset pairing of `Exit` with `Enter`, and a stack (LIFO) pairing |
| `Blocking` | blocking.dfy | blocking time as the source computes it, and as the SRP maximum |
| `Response` | response.dfy | interference and the one-shot bound |
| `Exact` | exact.dfy | the recurrence R(s+1) = C + B + Σ ceil(R(s)/T_j)·C_j, its least fixpoint and the miss flag; the source's loop as written |
| `Analysis` | analysis.dfy | the three analysis entry points over a trace and a table, and the worked example |
| `Sample` | sample.dfy | the sample trace of test cases 2 to 5 and its claims |
| `Trim` | trim.dfy | `trimZeros` |
| `Wrappers` | wrappers.dfy | `Option` and `Result` |

The loops of the source are methods with loop invariants. Each method is
proved equal to a recursive specification function, and the properties are
lemmas about those functions. Examples:

- `Reader.ReadArgs` is proved equal to `ParseArgs`;
- `ExtractWcets` is proved equal to `Wcet`;
- `ExactResponse` is proved equal to `Solve`.

Time is measured in cycles and is modelled with unbounded integers.
Utilization is a `real`, meaning an exact rational.

The sample lemmas use the trace at gdb.py:795-811, which gives
C_EXTI2 = 11. Those figures agree with the worked text at gdb.py:859-864
and 892-935. The result comments at gdb.py:300-304, 354-356 and 438-454
were written for a run with C_EXTI2 = 12, so their figures differ.

## Model

| member | source | states |
|---|---|---|
| KTestFile.Word | gdb.py:67 | four bytes read as a big-endian two's-complement 32-bit integer: the result is in the 32-bit range, and it is negative exactly when the top bit of the first byte is set |
| KTestFile.DecodeInt | gdb.py:67 | `struct.unpack('>i', …)` of a four-byte field yields a 32-bit value |
| KTestFile.EncodeInt | gdb.py:67 | the writer's side of a 32-bit field: always four bytes |
| KTestFile.DecodeEncodeInt | gdb.py:67 | decoding the encoding of any 32-bit integer gives it back |
| KTestFile.EncodeDecodeInt | gdb.py:67 | encoding the decoding of any four bytes gives them back, so the field codec is a bijection |
| KTestFile.ReadBytes | gdb.py:74 | `f.read(n)` on the file opened with `open(path, 'rb')`: it fails with `BadReadLength` (the `ValueError` of a buffered reader) exactly when n is below -1; n = -1 reads to the end; a read past the end returns only what is left; otherwise exactly n bytes; the bytes returned are those from the position to the new one |
| KTestFile.IntAt | gdb.py:67-70 | a 32-bit field fails with `Truncated` exactly when fewer than four bytes remain; otherwise it consumes four bytes |
| KTestFile.AsciiDecode | gdb.py:74 | `decode('ascii')` keeps the length and yields ASCII characters |
| KTestFile.AsciiRoundTrip | gdb.py:74 | decoding the bytes of an ASCII string gives the string back |
| KTestFile.ArgAt | gdb.py:73-74 | one argument: on success it consumes its 4-byte size and yields ASCII; it fails only as `Truncated`, exactly when its size field is cut short, as `BadReadLength`, exactly when that size is below -1, or as `NotAscii` of that argument |
| KTestFile.ParseArgs | gdb.py:71-74 | the argument loop yields exactly n more arguments, all ASCII, or the first argument's error |
| KTestFile.ParseSymArgs | gdb.py:76-81 | the two counts are read only from version 2 on: they fail exactly when 8 bytes are not left; before version 2 they are 0 and nothing is consumed |
| KTestFile.ObjectAt | gdb.py:86-90 | one object consumes at least its two 4-byte sizes and fails only as `Truncated` or `BadReadLength`; a name size below -1 gives `BadReadLength`, and a success has both size fields at least -1 |
| KTestFile.NegativeSizeRefused | gdb.py:86-90 | an object whose contents size is -2 is refused with `BadReadLength`, not read to the end |
| KTestFile.ParseObjects | gdb.py:84-90 | the object loop yields exactly n more objects, or fails with `Truncated` or `BadReadLength` |
| KTestFile.ParseTail | gdb.py:76-93 | the decoded test case carries the version and the arguments read before; the counts are 0 before version 2; a file without arguments fails with `NoArgs` (the `args[0]` of line 107) |
| KTestFile.Parse | gdb.py:64-93 | fails with `UnrecognizedFile` exactly when the 5-byte magic is neither `KTEST` nor `BOUT\n`; fails with `UnrecognizedVersion` exactly when the magic is good and the version field exceeds 3, and reports that version; a success has a version of at most 3, at least one argument, ASCII arguments, and counts of 0 before version 2 |
| KTestFile.ParseEncoded | gdb.py:64-93 | decoding a file that begins with the encoding of any acceptable test case gives that test case back, under either magic, whatever bytes follow |
| KTestFile.AtIsSlice | gdb.py:64-90 | the layout predicate used by the round trip is exactly "this slice of the file equals x" |
| KTestFile.ParseRefusesNegativeSize | gdb.py:64-90 | a file that is well formed except for an object contents size of -2 is refused with `BadReadLength` |
| KTestFile.ArgAtEncoded | gdb.py:73-74 | an encoded argument decodes to itself and consumes exactly its encoding |
| KTestFile.ObjectAtEncoded | gdb.py:86-90 | an encoded object decodes to itself and consumes exactly its encoding |
| KTestFile.EncodedArgsLaid | gdb.py:71-74 | the argument loop over the encoding of a list of arguments returns that list |
| KTestFile.EncodedObjectsLaid | gdb.py:84-90 | the object loop over the encoding of a list of objects returns that list |
| KTestFile.ParseTailEncoded | gdb.py:76-90 | the fields after the arguments decode to the test case's counts and objects |
| KTestFile.EncodedParts | gdb.py:64-90 | the magic, the version, the argument count, the arguments and the tail of an encoded file each read back on their own |
| KTestFile.Basename | gdb.py:108 | `os.path.basename`: the name is a suffix of the path, contains no '/', and is preceded by a '/' unless it is the whole path |
| KTestFile.NameStart | gdb.py:108 | where the last path component starts: nothing after it is '/', and the character before it is '/' |
| KTestFile.WithoutBc | gdb.py:110-111 | a trailing ".bc" is removed exactly when the name has one; any other name is kept as it is |
| KTestFile.ProgramName | gdb.py:105-112 | the program name is the base name of the first argument, without ".bc" exactly when the base name ends in ".bc", and it contains no '/' |
| KTestFile.Reader.constructor | gdb.py:63 | a freshly opened file is read from position 0 |
| KTestFile.Reader.Read | gdb.py:74 | `f.read(n)` with a count from the file returns the bytes and moves the position as `ReadBytes` specifies, or its `BadReadLength` for a count below -1 |
| KTestFile.Reader.ReadCount | gdb.py:64 | `f.read(n)` with a count the source fixes (5 for the magic, 4 for a field) returns the bytes and position of `ReadBytes`, which never refuses it |
| KTestFile.Reader.ReadInt | gdb.py:67 | the imperative 32-bit read returns the value and the new position of `IntAt`, or its error |
| KTestFile.Reader.ReadArg | gdb.py:73-74 | reading one argument matches `ArgAt`, in value, position and error |
| KTestFile.Reader.ReadArgs | gdb.py:71-74 | the `for i in range(numArgs)` loop matches `ParseArgs`: no iteration for a negative count, and the first failing argument ends the decoding |
| KTestFile.Reader.ReadSymArgs | gdb.py:76-81 | reading the counts matches `ParseSymArgs` |
| KTestFile.Reader.ReadObject | gdb.py:86-90 | reading one object matches `ObjectAt` |
| KTestFile.Reader.ReadObjects | gdb.py:83-90 | the object loop matches `ParseObjects` |
| KTestFile.FromBytes | gdb.py:63-112 | `KTest.fromfile` on a file's bytes returns exactly `Parse` of them, so every property of `Parse`, including the round trip, holds for the imperative decoder |
| Trace.PriorityOf | gdb.py:241-242 | a task's priority is found exactly when the name is in the table, and it is the priority of a table entry of that name |
| Demand.Wcet | gdb.py:286-290 | C of a task: the timestamp of its last `Finish` with a non-zero timestamp, 0 when it has none; `WcetIsLastFinish` and `WcetZeroIffNoFinish` state this for all traces |
| Demand.WcetZeroIffNoFinish | gdb.py:286-290 | a task's C stays 0 exactly when the trace holds no `Finish` of it with a non-zero timestamp |
| Demand.WcetIsLastFinish | gdb.py:286-290 | C is the timestamp of the last timed `Finish` of the task, whatever earlier runs measured |
| Demand.ExtractWcets | gdb.py:318-322 | the WCET loop gives each task of the table the C of `Wcet` (the same loop appears at 286-290 and 370-374) |
| Demand.Loads | gdb.py:280-290 | every entry of the table becomes a load with a positive period |
| Demand.Utilization | gdb.py:294-296 | U = Σ C_i/T_i as an exact rational, summed in table order; `UtilizationAppend`, `UtilizationRemove` and `UtilizationPermutation` give its properties |
| Demand.UtilizationAppend | gdb.py:294-296 | utilization is additive over a split of the table |
| Demand.UtilizationRemove | gdb.py:294-296 | removing one task removes exactly its C/T |
| Demand.UtilizationPermutation | gdb.py:283-296 | utilization does not depend on the order of the table, so sorting by name changes nothing |
| Demand.SampleUtilization | gdb.py:855-865 | C = 37, 11, 8 and T = 100, 30, 40 give U = 281/300 (0.93666…), below 1 |
| Demand.ComputeCpuDemand | gdb.py:275-298 | the utilization loop returns U = Σ C_i/T_i over the table, with C from the trace |
| Claims.OffsetScan | gdb.py:254-268 | the source's offset counter: an `Exit` is paired with the record `offset` places back and adds 2 to it, a timed `Finish` resets it to 1, and an index out of Python's range is `None` (IndexError); `OffsetChains` gives its result on nested runs |
| Claims.PairByOffset | gdb.py:254-268 | the source's claim-time loop (the offset counter) computes `OffsetScan` |
| Claims.OffsetSkipsEnters | gdb.py:326-337 | the offset scan passes the `Enter`s of a nested run without closing anything |
| Claims.OffsetPairsExits | gdb.py:326-337 | the m-th `Exit` of a nested run is paired with the m-th innermost `Enter`, with offset 1 + 2m |
| Claims.OffsetRun | gdb.py:325-338 | over one nested run, the offset scan closes exactly the LIFO claims of the run and resets the offset at its `Finish` |
| Claims.OffsetChains | gdb.py:325-338 | over a series of nested runs, the offset scan yields their LIFO claims, run after run |
| Claims.StackScan | gdb.py:254-268 | corrected pairing: each `Exit` closes the latest open `Enter`; an `Exit` with nothing open, or a claim still open at a `Finish` or at the end, is an error; `StackChains` gives its result on nested runs |
| Claims.PairClaims | gdb.py:254-268 | corrected pairing loop: the stack pairing of each `Exit` with the latest open `Enter` computes `StackScan` |
| Claims.Opened | gdb.py:325-337 | corrected pairing: the open claims of a nested run after m `Enter`s all lie before the current position |
| Claims.StackRun | gdb.py:325-337 | corrected pairing: over one nested run, the stack closes exactly the run's LIFO claims |
| Claims.StackChains | gdb.py:377-389 | corrected pairing: over a series of nested runs, the stack pairing succeeds with their LIFO claims |
| Claims.OffsetAgreesOnChains | gdb.py:254-268 | when every run nests its claims, the offset pairing and the stack pairing give the same claims |
| Claims.OffsetMispairsSequentialClaims | gdb.py:257-262 | as-written half of finding 1: for two sequential claims in one run, the offset pairs the second `Exit` with the first `Enter` (15 cycles), while the stack gives 10 |
| Blocking.BlockingAsWritten | gdb.py:324-337 | blocking as the source computes it: 0, or the duration of a claim of another task whose level reaches the task's priority (`BlockingAsWrittenIsLast` shows it is the last such claim, `NothingOverwrites` that it is 0 when none passes; finding 2) |
| Blocking.Blocking | gdb.py:896-899 | corrected blocking term: the longest claim of a lower-priority task whose ceiling reaches P_i, 0 if there is none; `BlockingIsMax` states this for all inputs |
| Blocking.BlockingIsMax | gdb.py:896-899 | B_i bounds every claim that can block task i (a lower-priority task's claim whose ceiling reaches P_i), and is either 0 or the duration of one such claim |
| Blocking.BlockingIgnoresOrder | gdb.py:896-906 | B_i depends only on the multiset of measured claims, not on the order in which they were measured |
| Blocking.LowestPriorityNotBlocked | gdb.py:929 | the lowest-priority task is never blocked |
| Blocking.BlockingTimes | gdb.py:324-337 | corrected blocking loop: gives each task of the table the SRP maximum `Blocking` (lower-priority claims only, longest wins) instead of the last passing claim |
| Blocking.BlockingAsWrittenIsLast | gdb.py:331-333 | every passing claim overwrites the blocking time, so the source reports the duration of the last claim that passes its test |
| Blocking.NothingOverwrites | gdb.py:331-333 | when no claim passes the source's test, the blocking time the source reports stays 0 |
| Blocking.SampleBlocking | gdb.py:896-923 | on the sample, both the source's rule and the maximum give B = 0, 10, 15 for EXTI1, EXTI2, EXTI3 |
| Blocking.LastClaimWinsDependsOnOrder | gdb.py:331-333 | as-written half of finding 2: with the two EXTI1 runs measured the other way round, the source reports B_EXTI2 = 9 while the maximum is 10 |
| Blocking.HigherPriorityClaimCounted | gdb.py:331-333 | as-written half of finding 3: a claim of the higher-priority EXTI2 is counted as blocking EXTI3 by the source, while SRP gives 0 |
| Response.CeilDiv | gdb.py:346 | `math.ceil(a/b)` for a positive divisor is the least q with a <= q·b |
| Response.CeilDivMonotone | gdb.py:346 | ceil(a/b) grows with a |
| Response.Higher | gdb.py:343-345 | the tasks above a priority level keep the table's validity |
| Response.HigherMembers | gdb.py:343-345 | a task is counted as interfering exactly when it is in the table and its priority is strictly higher |
| Response.WindowDemandNonNegative | gdb.py:343-347 | the work released in a non-negative window is non-negative |
| Response.WindowDemandMonotone | gdb.py:343-347 | a longer window never holds less higher-priority work |
| Response.HigherDemandSnoc | gdb.py:343-347 | adding a task to the table adds its ceil(w/T)·C exactly when it is above the level |
| Response.NoHigherNoInterference | gdb.py:892-894 | a task with no task above it suffers no interference |
| Response.PrefixIsHigher | gdb.py:365 | in a table sorted by strictly decreasing priority, the tasks before position i are exactly those above task i (the `j < i` of lines 406-409) |
| Response.OneShot | gdb.py:339-352 | the one-shot breakdown: C and B are the task's, the interference Σ ceil(T_i/T_j)·C_j over higher tasks is non-negative, so R >= C + B |
| Response.OneShotOfHighest | gdb.py:892-894 | for the highest-priority task the one-shot R is C + B |
| Response.HigherDemandLoop | gdb.py:343-347 | the inner loop returns Σ ceil(w/T_j)·C_j over the tasks above the level |
| Response.ResponseTimes | gdb.py:339-352 | the one-shot loop gives each task R = C + B + Σ ceil(T_i/T_j)·C_j over the tasks above it |
| Exact.Step | gdb.py:945-959 | one round of the recurrence, C + B + Σ ceil(R/T_j)·C_j over the higher-priority tasks; `StepMonotone` and `StepAtLeastBase` give its properties |
| Exact.Iterate | gdb.py:945-959 | the iterates R(0) = C + B, R(s+1) = Step(R(s)); `IterateNonDecreasing` and `IterateBelowPrefixpoint` give their properties |
| Exact.Solve | gdb.py:945-959 | the corrected exact analysis: iterate until R exceeds the period (a miss) or repeats (a fixpoint); `SolveCorrect` states what the answer means |
| Exact.StepMonotone | gdb.py:417-419 | one round of the recurrence is monotone in the busy period |
| Exact.StepAtLeastBase | gdb.py:419 | one round never gives less than C + B |
| Exact.IterateNonDecreasing | gdb.py:945-951 | the iterates R(0) = C + B, R(s+1) = Step(R(s)) never decrease |
| Exact.IterateBelowPrefixpoint | gdb.py:953-957 | every iterate lies below every busy period x with Step(x) <= x |
| Exact.SolveCorrect | gdb.py:945-959 | the exact analysis stops, reports a miss exactly when R exceeds the period, and otherwise reports a fixpoint; R >= C + B, I = R − C − B, and R is below every prefixpoint, so it is the least busy period |
| Exact.ExactResponse | gdb.py:392-424 | corrected loop (it stops when R repeats or exceeds the period, not when the last term repeats): the imperative iteration returns `Solve`, with R the `steps`-th iterate, the miss flag exactly when R exceeds the period, a fixpoint when no miss, and least among prefixpoints |
| Exact.OneShotBoundsExact | gdb.py:937-938 | when the one-shot bound meets the deadline, the exact analysis meets it too, with an R no larger |
| Exact.SolveOfHighest | gdb.py:395-400 | corrected: the highest-priority task's exact R is C + B with I = 0, flagged exactly when C + B exceeds its period |
| Exact.OverrunAtStart | gdb.py:945-959 | when C + B alone exceeds the period, the analysis stops at R(0) = C + B with a miss and I = 0 |
| Exact.LoopAsWritten | gdb.py:392-424 | the source's `while i_temp != i_temp2` loop: each round sums the terms into I, keeps only the last task's term, and stops when that term repeats; `None` when the fuel runs out |
| Exact.ExactAsWritten | gdb.py:392-424 | the source's exact analysis of task i: C + B, never flagged, for the first task; the loop over the tasks before it, flagged when R exceeds the period, for the others |
| Exact.LoopStopsBeforeFixpoint | gdb.py:412-419 | as-written half of finding 4: the source's loop stops at R = 7 although Step(7) = 8, while the exact analysis gives R = 8 |
| Exact.HighestNeverFlagged | gdb.py:398-400 | as-written half of finding 6: a highest-priority task with C + B = 50 over a period of 30 is not flagged by the source, while the exact analysis flags it |
| Exact.OverloadLoopRuns | gdb.py:412-419 | on the overload set, each round of the source's loop turns R into 2R + 1 and never repeats the last term |
| Exact.OverloadNeverStops | gdb.py:412-419 | as-written half of finding 5: on the overload set the source's loop has no deadline exit and, in exact arithmetic, stops within no amount of fuel, while the exact analysis stops with a miss at R = 15 |
| Analysis.Profiles | gdb.py:309-337 | each table entry gets its name, priority and period, C from the trace and B from the claims |
| Analysis.BuildProfiles | gdb.py:317-337 | building the analysis list fails exactly when the trace's claims do not pair, and otherwise yields `Profiles` |
| Analysis.ResponseTimeAlgorithm | gdb.py:306-352 | for a trace whose claims pair, every task gets the one-shot estimate of its profile |
| Analysis.RecursiveResponseAlgorithm | gdb.py:358-424 | for a trace whose claims pair, every task gets the exact outcome; it is flagged exactly when R exceeds its period, and R is a fixpoint when not flagged |
| Analysis.SampleProfiles | gdb.py:849 | the sample's analysis entries are a valid table for any positive interarrival times |
| Analysis.SampleWcets | gdb.py:796-811 | the sample trace gives C_EXTI1 = 37, C_EXTI2 = 11, C_EXTI3 = 8 |
| Analysis.SampleTraceProfiles | gdb.py:795-811 | the sample trace's claims pair into 9, 14, 10, 15, and the trace and table give C = 37, 11, 8 and B = 0, 10, 15 |
| Analysis.SampleSteps | gdb.py:945-951 | the recurrence of each sample task, written out for any interarrival times |
| Analysis.SampleOneShot | gdb.py:892-935 | the worked one-shot figures R_EXTI2 = 21, R_EXTI3 = 45 (I = 2·11), R_EXTI1 = 105 |
| Analysis.SampleExactLowest | gdb.py:438-442 | with interarrival times 100, 30, 40, EXTI1's busy period passes 100 at 105: a miss |
| Analysis.SampleExactUpper | gdb.py:438-442 | with 100, 30, 40, EXTI2 meets its deadline at 21 and EXTI3 misses at 45 |
| Analysis.SampleExactRelaxed | gdb.py:444-448 | with 100, 40, 50, every task meets its deadline: R = 75, 21, 34 |
| Analysis.SampleExactTight | gdb.py:450-454 | with 80, 30, 40, EXTI1 misses at 86, EXTI2 meets at 21, EXTI3 misses at 45 |
| Sample.SampleRuns | gdb.py:795-811 | the sample trace is four runs: two nested double claims around two runs without claims |
| Sample.SampleRunClaims | gdb.py:797-800 | the claims of the two EXTI1 runs, inner claim first: 9 and 14, then 10 and 15 |
| Sample.SampleChainClaims | gdb.py:795-811 | the claims of the whole sample trace are 9, 14, 10, 15 |
| Sample.SampleClaimTimes | gdb.py:795-811 | both pairings print the claim times 9, 14, 10, 15 of the sample |
| Trim.Trimmed | gdb.py:456-461 | the trimmed string is a prefix that does not end in NUL, and only NULs were cut |
| Trim.TrimmedUnique | gdb.py:456-461 | the prefix with those three properties is unique, so `Trimmed` is the only answer |
| Trim.TrimmedIdempotent | gdb.py:456-461 | trimming twice is trimming once |
| Trim.TrimmedIgnoresPadding | gdb.py:456-461 | trailing NUL padding of any length does not change the result |
| Trim.TrimZeros | gdb.py:456-461 | the backward scan returns the string up to its last non-NUL character, or the empty string |

## Left out

- GDB itself is not part of this model: breakpoints, `Executor`, the cycle counter and its reset, symbol lookups, and `gdb.execute`. The trace is taken as the list of events it records (gdb.py:165, 214-215, 244-245).
- `ktest_setdata` and the substitution of test-case data into target memory are not part of this model: they are foreign calls into GDB.
- The file's path handling is not part of this model: `os.path.exists`, `open`, `sys.exit` on a missing file, and the `filename` field. The decoder takes the file's bytes.
- Printing and error-message text are left out. Errors are datatype constructors.
- `Truncated` carries no position. The source raises Python's `struct.error` at the same point.
- `BadReadLength` carries no position. It stands for the `ValueError` that `BufferedReader.read` raises for a length below -1.
- A `NotAscii` argument stands for the `UnicodeDecodeError` of `decode('ascii')`.
- Floating point is left out. Utilization is an exact rational, and `math.ceil(a/b)` is an exact integer ceiling. The two agree while the operands stay well inside float range. They do not agree on the input of finding 5: there R doubles each round until the true division `r_temp/...` at gdb.py:417 raises `OverflowError`, near 1.8e308, which the model does not capture.
- Sorting the analysis lists is left out. The sorts by name (gdb.py:283, 313, 429) only order the printout. C, B and the response times of an entry are computed from that entry, the trace and the priorities of the other entries, never from the entry's position (`Wcets`, `BlockingTimes`, `Higher`), so reordering the table only reorders these columns. `UtilizationPermutation` shows that the total utilization does not depend on the order.
- Blocking.Blocks ignores a claim by a task that is not in the table, because that task has no priority to compare. The source's test at gdb.py:332 counts any other task's claim. Traced tasks are the table's own (gdb.py:241), so the case does not arise from the source's traces.
- The sort by priority at gdb.py:365 is not modelled as such. It matters in two places. The `j < i` at gdb.py:407 selects the tasks before task i; `Response.PrefixIsHigher` shows that on a table in strictly decreasing priority these are exactly the higher-priority tasks, which is the filter the model uses. It also decides which task takes the `i == 0` branch at gdb.py:399; finding 6 models that branch.
- Priorities are integers in the model. In the source they are the strings read from the task file (gdb.py:598-603, 762), converted with `int` for comparisons (gdb.py:332, 341, 344) but sorted as strings at gdb.py:365. So "10" sorts below "9", and with priorities of different digit counts the sorted list is not in priority order. The model does not capture this string ordering.
- Tasks of equal priority are excluded by `ValidTable`. With equal priorities, the source's order after sorting would decide which task interferes.
- `Analysis.ResponseTimeAlgorithm` and `Analysis.RecursiveResponseAlgorithm` take their blocking from the stack pairing and the SRP maximum, not from the source's offset pairing and "last claim wins". Findings 1 to 3 model the source's versions and show where they differ.
- `Exact.LoopAsWritten` and `Exact.ExactAsWritten`: the source's `while` loop is bounded by a `fuel` argument, with `None` when the loop has not stopped within the fuel. The arithmetic is exact, so `OverloadNeverStops` states that no fuel suffices. The `OverflowError` that ends the source's loop on that input is not modelled.
- `Exact.Solve` stops as soon as R exceeds the period, as gdb.py:956-958 describe. The code instead runs its loop to the end and compares only afterwards; `ExactAsWritten` models that.
- `Demand.ComputeCpuDemand`, `Analysis.Profiles`, `Analysis.BuildProfiles`, `Analysis.ResponseTimeAlgorithm` and `Analysis.RecursiveResponseAlgorithm` require positive periods (`PositivePeriods`, `ValidTable`). The source has no such check. A zero period raises `ZeroDivisionError` at gdb.py:296, 346 or 417. A negative period is computed with as it is. The model covers neither.
- `Analysis.BuildProfiles` and both analyses fail with a `TraceError` when an `Exit` has no open claim or a claim is left open. The source never fails there: it computes numbers from any trace, with the offset pairing of `Claims.OffsetScan`, or an IndexError when the index falls outside the list.
- Trim.TrimZeros: the model takes a string, as the function's name for its argument suggests. The only caller (gdb.py:481-482) passes the object contents, which are `bytes`. On bytes, `str[i]` is an integer, so `str[i] != '\x00'` always holds: the source returns non-empty contents unchanged and empty contents as `''`. The unpacking at gdb.py:493 and 503 relies on that. `ktest_setdata` is not part of this model.
- `KTestFile.ParseEncoded` covers test cases whose arguments are ASCII, whose counts and lengths fit 32 bits, and whose version is at most 3. Other test cases cannot be written in the format or are rejected by the decoder.
- `KTestFile.Reader.Read` models `f.read` on a file held in memory. A short read happens only at the end of the data.

## Findings

| source | as written | input that shows it | evidently intended | confidence | as-written member | corrected member |
|---|---|---|---|---|---|---|
| gdb.py:254-268, 325-337, 377-389 | each `Exit` is paired with the record `offset` places back, and the offset grows by 2 per `Exit` | one run `Start`@0, `Enter`@5, `Exit`@7, `Enter`@10, `Exit`@20, `Finish`@25: the second claim gets 20 − 5 = 15 | each `Exit` closes the latest open `Enter` (10 cycles) | not executed | Claims.OffsetMispairsSequentialClaims | Claims.PairClaims |
| gdb.py:331-333, 383-385 | every claim that passes the test overwrites B, so the last measured claim wins | the sample with its two EXTI1 runs swapped: B_EXTI2 = 9 | B_i is the longest such claim (gdb.py:896-899): 10 | not executed | Blocking.LastClaimWinsDependsOnOrder | Blocking.BlockingIsMax |
| gdb.py:332, 384 | any other task's claim with ceiling >= P_i counts, whatever that task's priority | a claim of EXTI2 (priority 3) at ceiling 3 lasting 5 sets B_EXTI3 = 5 | only lower-priority tasks block (gdb.py:896-897): 0 | not executed | Blocking.HigherPriorityClaimCounted | Blocking.BlockingIsMax |
| gdb.py:412-419 | the loop stops when the last higher-priority task's term repeats, not when R does | H1 (P 3, T 2, C 1), H2 (P 2, T 100, C 1), L (P 1, T 100, C 3): the loop stops at R = 7 | R is the fixpoint of the recurrence (gdb.py:957): 8 | not executed | Exact.LoopStopsBeforeFixpoint | Exact.ExactResponse |
| gdb.py:412-424 | the deadline is compared only after the loop ends: the loop has no deadline exit, and a diverging busy period grows until Python raises `OverflowError`, never reporting a miss | H (P 2, T 1, C 2) above L (P 1, T 10, C 1): R = 1, 3, 7, 15, … doubles each round until the float division at gdb.py:417 overflows | stop once R exceeds the period (gdb.py:958) | not executed | Exact.OverloadNeverStops | Exact.SolveCorrect |
| gdb.py:398-400 | the highest-priority task is never compared with its period | one task with C + B = 50 and period 30 is not flagged | R > A means a missed deadline for every task (gdb.py:958) | not executed | Exact.HighestNeverFlagged | Exact.SolveOfHighest |
