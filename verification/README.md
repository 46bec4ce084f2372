# Loop kernels, their transformations, and the tools around them

A Dafny model of the hard parts of this repository: the TSVC loop kernels and the
transformations a vectorising compiler applies to them, and the algorithms of the scripts,
harnesses and pipeline that build, run and evaluate the kernels.

## How the model is built

**Kernels.** Each kernel is a method over arrays of any length that repeats one pass of the
source's loops statement by statement. Its contract says what every cell of the arrays holds in the
end, in terms of the arrays themselves, and ties them to a *schedule*: a sequence of statement
instances, each a parallel assignment over a memory. The element type
`real_t` is a type parameter and its `+ - * /` are uninterpreted functions, so no result
reassociates or commutes arithmetic and all of them carry over to floating point. Where a
statement needs numbers (a counterexample, a sum, a solution) it says so and uses integers or
exact reals.

- `Dependence.dfy` holds the theory: `Reorder` (a permutation of instances that swaps only
  independent ones keeps the memory), `Strips` (strips of VF lanes that do all their loads before
  all their stores keep the memory when no flow dependence is shorter than VF), and
  `ReorderRepeated`, which carries a reordering through the suite's outermost timing loop.
- `Schedules.dfy` holds loop nests as sequences of instances and the order of their instances.
- `StripKernels.dfy`, `NestKernels.dfy`, `InterchangeKernels.dfy`, `StatementKernels.dfy`,
  `NodeSplitKernels.dfy`, `SplitKernels.dfy`, `IndexKernels.dfy`, `TriangleKernels.dfy` and
  `PackKernels.dfy` hold the kernels, by the transformation their comments name; `SumOrders.dfy`
  says exactly which orders of s231 and s233 are right.

**Tools.** `Regression.dfy` and `Labels.dfy` (plotting scripts, over exact reals), `Decimal.dfy`
(the harnesses' number printers), `Heap.dfy` (the bump allocator), `CutPaste.dfy`
(from the suite to one file per loop), `Arguments.dfy`, `Converter.dfy`, `Programs.dfy` and
`Conversion.dfy` (from there to a kernel: the lines and the rewriting of the argument, the three
passes over them, the statement trees they stand for, and their meaning), `Pasting.dfy` (how the
text of an argument is read where it is pasted), `RunCache.dfy` (the pipeline's result cache) and
`RunReports.dfy` (what its sessions report, in which order, and which runs come from the cache).
`Common.dfy` holds what several of them share.

## What the code does that its comments or names do not say

- s141's comment gives the packed index as j*(j-1)/2+i over one-based indices; the code walks
  j*(j+1)/2+i over zero-based ones. The model follows the code (`TriangleKernels.PackedBijection`).
- The third pass of `place_label_rows`, which pulls rows up from the bottom, never changes a row,
  because the first pass has already spaced the rows and the second moves them together
  (`Labels.PlaceRows`). As a result labels can end outside the plot although there is room:
  `Labels.RoomIsNotEnough` is an input, `Labels.FitsExactlyWhen` the exact condition, and
  `Labels.RoomExactlyWhen` the condition for there to be room at all.
- The kernels that read a `real_t` argument as `*(int*)` (s272, s2710, s332, vpvts) do not survive
  the conversion to a kernel: `Conversion.S272Changes` is an input, and `Conversion.ReadExact` says
  that a read survives for every value of the global exactly when it is at the global's own type.
- A struct argument is looked up by its fields' names only. A struct type that lists its members in
  another order than `tsvc_prepare_args` fills them is accepted and does not survive the conversion:
  `Conversion.SwappedMembers` is an input, and `Conversion.FieldExact` says that a field survives
  for all values of the globals exactly when the member's place and type are those of the expression
  stored under its name.
- The expression of a field is pasted without parentheses. `Pasting.PastedQuotient` is a line the
  pasting changes, and `Pasting.PastingExact` says which expressions are read as one in which places.
- `memalign` does not check that the end of a block stays below the last address: `Heap.StepExact`
  and `Heap.RunExact` say exactly when a call, and a run, keeps the heap safe, and
  `Heap.WrappedRequest` is a family of requests that does not. `Heap.RoomyRun` is a condition on the
  requests alone that keeps every run safe. `align_up` aligns exactly for
  powers of two (`Heap.AlignUpExact`).
- Scatter and gather undo each other, and a scatter may run in any order, under conditions on the
  index vector that are necessary as well as sufficient (`IndexKernels`); the vector `init` builds
  meets them all.

## Model

| member | source | states |
|---|---|---|
| Dependence.Reorder | emulator/benchmarks/TSVC_2/src/tsvc.c:953-956 | Reordering statement instances without swapping two dependent ones leaves the same arrays, for every memory and every arithmetic |
| Dependence.ReorderRepeated | emulator/benchmarks/TSVC_2/src/tsvc.c:2223-2228 | The same under the timing loop: n repeated passes in the new order leave what n passes in the old order leave |
| Dependence.Strips | emulator/benchmarks/TSVC_2/src/tsvc.c:3101-3114 | With no flow dependence shorter than VF, strips of VF lanes with all loads before all stores leave the scalar result |
| StripKernels.ShiftStripsExact | emulator/benchmarks/TSVC_2/src/tsvc.c:3101-3114 | For every fixed-distance kernel: strips of VF agree with the scalar loop on all inputs if and only if the distance is not positive, or VF or the trip count does not exceed it |
| StripKernels.ShiftStripsSafe | emulator/benchmarks/TSVC_2/src/tsvc.c:3101-3114 | The same, left to right, for any element type and uninterpreted addition |
| StripKernels.S424 | emulator/benchmarks/TSVC_2/src/tsvc.c:3105-3114 | flat[i+64] = flat[i] + a[i] for every i and nothing else changes; it is the scalar schedule's array, which every VF up to 64 also leaves |
| StripKernels.S424StripWidths | emulator/benchmarks/TSVC_2/src/tsvc.c:3101-3114 | Exactly the widths up to 64 are right on all inputs, once the loop is longer than 64 iterations |
| StripKernels.S423 | emulator/benchmarks/TSVC_2/src/tsvc.c:3078-3087 | flat[i+1] is the old flat[i+64] plus a[i]; loads run ahead of stores, so every VF leaves this array |
| StripKernels.S422 | emulator/benchmarks/TSVC_2/src/tsvc.c:3056-3061 | flat[i+4] is the old flat[i+8] plus a[i]; loads run ahead of stores, so every VF leaves this array |
| StripKernels.S1221 | emulator/benchmarks/TSVC_2/src/tsvc.c:1040-1042 | b[i] = b[i-4] + a[i] from i = 4 on: a recurrence of distance 4, and every VF up to 4 leaves this array |
| StripKernels.S1221StripWidths | emulator/benchmarks/TSVC_2/src/tsvc.c:1040-1042 | Exactly the widths up to 4 are right on all inputs, once the array is longer than 8 |
| StripKernels.S112 | emulator/benchmarks/TSVC_2/src/tsvc.c:111-113 | a[i+1] is the old a[i] plus b[i]: counting down, every VF leaves this array |
| StripKernels.S121 | emulator/benchmarks/TSVC_2/src/tsvc.c:362-365 | a[i] is the old a[i+1] plus b[i]: the induction variable j is i+1, so every VF leaves this array |
| NestKernels.S2111 | emulator/benchmarks/TSVC_2/src/tsvc.c:2223-2228 | Every cell off the first row and column is (left + upper) / 1.9 of the final matrix, the edges are kept, and the matrix is that of the row-major schedule |
| NestKernels.WavefrontSafe | emulator/benchmarks/TSVC_2/src/tsvc.c:2223-2228 | Sweeping the anti-diagonals in increasing order, the cells of one in any order, leaves the row-major matrix |
| NestKernels.WaveOrdersExact | emulator/benchmarks/TSVC_2/src/tsvc.c:2223-2228 | Over exact reals with the division by 1.9: a permutation of the iterations gives the row-major matrix on every input if and only if each cell follows its left and its upper neighbour |
| NestKernels.WavefrontStrips | emulator/benchmarks/TSVC_2/src/tsvc.c:2223-2228 | The sweep over the anti-diagonals, each of them in strips of any width, leaves the row-major matrix |
| InterchangeKernels.S231 | emulator/benchmarks/TSVC_2/src/tsvc.c:1084-1089 | aa[j][i] = aa[j-1][i] + bb[j][i] in the final matrix, with row 0 kept; it is the matrix of the column-by-column schedule |
| InterchangeKernels.S231AnyOrder | emulator/benchmarks/TSVC_2/src/tsvc.c:1084-1089 | Every order that keeps each column's iterations in sequence leaves the same matrix |
| SumOrders.S231OrdersExact | emulator/benchmarks/TSVC_2/src/tsvc.c:1084-1089 | Over integers: a permutation of the iterations gives the source's matrix on every input if and only if it keeps each column's iterations in sequence |
| InterchangeKernels.S231Interchange | emulator/benchmarks/TSVC_2/src/tsvc.c:1084-1089 | The interchanged loops leave the same matrix |
| InterchangeKernels.S231Strips | emulator/benchmarks/TSVC_2/src/tsvc.c:1084-1089 | The interchanged loops with every row in strips of any width leave the same matrix |
| InterchangeKernels.S233 | emulator/benchmarks/TSVC_2/src/tsvc.c:1154-1162 | aa[j][i] = aa[j-1][i] + cc[j][i] and bb[j][i] = bb[j][i-1] + cc[j][i] in the final matrices, with the edges kept; they are the matrices of the schedule |
| InterchangeKernels.S233AnyOrder | emulator/benchmarks/TSVC_2/src/tsvc.c:1154-1162 | Every order that runs aa down its columns and bb along its rows leaves the same matrices |
| SumOrders.S233OrdersExact | emulator/benchmarks/TSVC_2/src/tsvc.c:1154-1162 | Over integers: a permutation of the instances gives the source's matrices on every input if and only if it runs aa down its columns and bb along its rows |
| InterchangeKernels.S233Interchange | emulator/benchmarks/TSVC_2/src/tsvc.c:1154-1162 | Distributing the two statements and interchanging the aa nest leaves the same matrices |
| InterchangeKernels.S2275 | emulator/benchmarks/TSVC_2/src/tsvc.c:1793-1799 | aa[j][i] grows by bb[j][i] * cc[j][i], a[i] becomes b[i] + c[i] * d[i], and the rest of a is kept; they are the arrays of the schedule |
| InterchangeKernels.S2275AnyOrder | emulator/benchmarks/TSVC_2/src/tsvc.c:1793-1799 | No instance depends on another: every permutation leaves the same arrays |
| InterchangeKernels.S2275Interchange | emulator/benchmarks/TSVC_2/src/tsvc.c:1793-1799 | Distribution, then interchange of the matrix nest, leaves the same arrays |
| StatementKernels.SplitLoops | emulator/benchmarks/TSVC_2/src/tsvc.c:953-956 | When the first statement never reaches the second, the loop may be split with the second statement first, both halves in strips of any width |
| StatementKernels.S211 | emulator/benchmarks/TSVC_2/src/tsvc.c:953-956 | a[i] = b[i-1] + c[i] * d[i] of the new b, b[i] = b[i+1] - e[i] * d[i] of the old, with the ends kept; they are the arrays of the interleaved schedule |
| StatementKernels.S211Reordered | emulator/benchmarks/TSVC_2/src/tsvc.c:953-956 | The whole b loop, then the whole a loop, each in strips of any width, leaves the same arrays |
| StatementKernels.S1213 | emulator/benchmarks/TSVC_2/src/tsvc.c:997-1000 | a[i] = b[i-1] + c[i] of the new b, b[i] = a[i+1] * d[i] of the old a, with the ends kept; they are the arrays of the interleaved schedule |
| StatementKernels.S1213Reordered | emulator/benchmarks/TSVC_2/src/tsvc.c:997-1000 | The whole b loop, then the whole a loop, each in strips of any width, leaves the same arrays |
| NodeSplitKernels.S241 | emulator/benchmarks/TSVC_2/src/tsvc.c:1231-1234 | a[i] = b[i] * c[i] * d[i] of the old b, b[i] = a[i] * a[i+1] * d[i] of the new a[i] and the old a[i+1]; they are the arrays of the interleaved schedule |
| NodeSplitKernels.PreloadInline | emulator/benchmarks/TSVC_2/src/tsvc.c:1231-1234 | Loading a[i+1] into a temporary at the start of each iteration leaves the same arrays |
| NodeSplitKernels.S241Split | emulator/benchmarks/TSVC_2/src/tsvc.c:1231-1234 | The preload loop, then the a loop, then the b loop, leaves the same arrays |
| NodeSplitKernels.S241Strips | emulator/benchmarks/TSVC_2/src/tsvc.c:1231-1234 | Each of the three loops vectorises at any width |
| NodeSplitKernels.S241SplitStrips | emulator/benchmarks/TSVC_2/src/tsvc.c:1231-1234 | The three loops one after the other, all in strips of any width, leave the same arrays |
| NodeSplitKernels.S244 | emulator/benchmarks/TSVC_2/src/tsvc.c:1304-1308 | Closed form of both arrays: of the stores to a[i+1] only the last one survives |
| SplitKernels.SplitSafe | emulator/benchmarks/TSVC_2/src/tsvc.c:2053-2058 | Cutting a loop so that no dependence stays inside a part makes any strip width safe |
| SplitKernels.S281 | emulator/benchmarks/TSVC_2/src/tsvc.c:2053-2058 | Leaves the scalar schedule's arrays, and in closed form: up to the middle from old elements of a, after it from new ones |
| SplitKernels.S281Split | emulator/benchmarks/TSVC_2/src/tsvc.c:2053-2058 | Two loops split after element (N-1)/2, each in strips of any width, leave the same arrays, for odd and even N |
| SplitKernels.S1113 | emulator/benchmarks/TSVC_2/src/tsvc.c:173-175 | Up to N/2 the old middle element is added, after it the new one |
| SplitKernels.S1113Split | emulator/benchmarks/TSVC_2/src/tsvc.c:173-175 | Two loops split after N/2, each in strips of any width, leave the same array |
| SplitKernels.S256 | emulator/benchmarks/TSVC_2/src/tsvc.c:1566-1572 | The closed form of both arrays, and: computing a once and then filling the cells of aa in any order leaves the same arrays |
| SplitKernels.S256AnyOrder | emulator/benchmarks/TSVC_2/src/tsvc.c:1566-1572 | For any memory, that second schedule leaves a alternating, each aa[j][i] made of its own a[j], and the rest as it was |
| IndexKernels.InitIndices | emulator/benchmarks/TSVC_2/src/common.c:161-167 | For every length divisible by 5: ip[i] is 4 + 3i modulo 5 within its block of five, and the vector is a permutation |
| IndexKernels.ShuffledIsPermutation | emulator/benchmarks/TSVC_2/src/common.c:161-167 | Any vector of that stride is in bounds, injective and onto, as 3 is invertible modulo 5 |
| IndexKernels.S491 | emulator/benchmarks/TSVC_2/src/tsvc.c:3412-3415 | Cells no index reaches are kept, every other one is b + c * d of its last writer; it is the scatter in index order |
| IndexKernels.Vas | emulator/benchmarks/TSVC_2/src/tsvc.c:3680-3683 | Cells no index reaches are kept, every other one is b of its last writer; it is the scatter in index order |
| IndexKernels.Vag | emulator/benchmarks/TSVC_2/src/tsvc.c:3654-3657 | a[i] = b[ip[i]] for every i: the gather of b |
| IndexKernels.ScatterAnyOrder | emulator/benchmarks/TSVC_2/src/tsvc.c:3412-3415 | Through an injective index vector any two orders of the same iterations scatter alike |
| IndexKernels.ScatterOrderExact | emulator/benchmarks/TSVC_2/src/tsvc.c:3412-3415 | A scatter may run in every order on all inputs if and only if its index vector is injective |
| IndexKernels.GatherScatterExact | emulator/benchmarks/TSVC_2/src/tsvc.c:3654-3657 | vag and then vas restores the source into any array if and only if the indices reach every cell |
| IndexKernels.ScatterGatherExact | emulator/benchmarks/TSVC_2/src/tsvc.c:3680-3683 | vas and then vag restores the source if and only if no two indices collide |
| TriangleKernels.S141 | emulator/benchmarks/TSVC_2/src/tsvc.c:631-638 | Each packed cell (j, i) of the triangle is increased exactly once, by its own bb[j][i], and nothing else changes |
| TriangleKernels.TriClosed | emulator/benchmarks/TSVC_2/src/tsvc.c:633 | The start of row j is j(j+1)/2 |
| TriangleKernels.PackedBijection | emulator/benchmarks/TSVC_2/src/tsvc.c:631-638 | (j, i) with i at most j below N maps one-to-one onto the cells below N(N+1)/2 |
| TriangleKernels.S115 | emulator/benchmarks/TSVC_2/src/tsvc.c:219-224 | Over exact reals the nest solves the unit triangular system held in aa for the initial a |
| TriangleKernels.SolutionUnique | emulator/benchmarks/TSVC_2/src/tsvc.c:219-224 | That system has no other solution |
| PackKernels.S341 | emulator/benchmarks/TSVC_2/src/tsvc.c:2809-2816 | The k-th positive element of b becomes a[k], and the rest of a stays |
| PackKernels.S342 | emulator/benchmarks/TSVC_2/src/tsvc.c:2837-2844 | The k-th positive element of a becomes b[k], and the rest of a stays |
| PackKernels.UnpackPack | emulator/benchmarks/TSVC_2/src/tsvc.c:2837-2844 | Packing v and unpacking the result into v leaves v unchanged |
| PackKernels.PackUnpackExact | emulator/benchmarks/TSVC_2/src/tsvc.c:2809-2816 | Packing after unpacking p gives back the used prefix of p if and only if all of it is positive |
| Regression.LeastSquares | scripts/plot_results.py:162-178 | The returned line leaves a smaller sum of squared residuals than every other line |
| Regression.FitsExactlyWhen | scripts/plot_results.py:162-171 | A line is returned if and only if the inputs pair up, are at least two, and do not share one x |
| Regression.RSquaredIs | scripts/plot_results.py:172-178 | The clamp never fires, r squared lies in [0, 1] and is the squared cross sum over both square sums |
| Regression.RSquaredIsSquaredCorrelation | scripts/plot_results.py:149-178 | The correlation exists if and only if r squared does, lies in [-1, 1], has the sign of the slope, and r squared is its square |
| Regression.CorrelationIsScaledSlope | scripts/plot_results.py:149-159 | The correlation times the deviation of y is the slope times the deviation of x |
| Regression.PerfectCorrelation | scripts/plot_results.py:149-159 | The correlation is 1 if and only if all points lie on a rising line, and -1 if and only if they lie on a falling one |
| Labels.PlaceRows | scripts/plot_results_cmp.py:187-201 | The four passes in place leave the pushed rows lowered by one common amount |
| Labels.PlaceLabelRows | scripts/plot_results_cmp.py:178-202 | Texts keep their order and the rows are the placed ones; no labels give none |
| Labels.PushedLeast | scripts/plot_results_cmp.py:188-190 | The forward pass gives the pointwise least rows that keep the gap and stay at or below the wishes |
| Labels.PushedClosed | scripts/plot_results_cmp.py:188-190 | A pushed row is the furthest that any earlier wish pushes it |
| Labels.PlacedSpaced | scripts/plot_results_cmp.py:178-202 | Whatever the arguments, neighbouring labels end at least the gap apart |
| Labels.ShiftClosed | scripts/plot_results_cmp.py:191-201 | The rows are lowered by max(0, min(last - max_y, first - min_y)) |
| Labels.ClampedIs | scripts/plot_results_cmp.py:187 | A wish inside the plot is kept, one outside moves to the nearer edge |
| Labels.WishesKept | scripts/plot_results_cmp.py:178-202 | Labels whose wishes are spaced and inside the plot are placed exactly there |
| Labels.FitsExactlyWhen | scripts/plot_results_cmp.py:178-202 | The labels end inside the plot if and only if no wish, with the gaps after it, lies further below the first wish than the plot is high |
| Labels.RoomExactlyWhen | scripts/plot_results_cmp.py:178-202 | Some placement inside the plot exists if and only if the gaps alone fit |
| Labels.RoomIsNotEnough | scripts/plot_results_cmp.py:195-197 | Wishes 0, 10, 10 on [0, 10] with gap 2 end at 12 although there is room |
| Decimal.NotationValue | emulator/run/common/harness.c:35-42 | The digits have positional value n and no leading zero |
| Decimal.NotationUnique | emulator/run/common/harness.c:35-42 | No other digits without a leading zero have that value |
| Decimal.WordLengths | emulator/run/common/harness_xiangshan.c:28-34 | 64-bit numbers have at most 20 digits, 32-bit ones at most 10 |
| Decimal.PrintDec64 | emulator/run/common/harness.c:35-42 | The backward fill of 24 bytes emits the notation of every 64-bit number and stays in the buffer |
| Decimal.PrintDec32 | emulator/run/common/harness_t1.c:28-35 | The backward fill of 12 bytes emits the notation of every 32-bit number and stays in the buffer |
| Decimal.WriteDec | emulator/run/common/harness_gem5.c:33-48 | The backward fill of 32 bytes, with its explicit length, emits the same notation |
| Decimal.UartPrintU64 | emulator/run/common/harness_xiangshan.c:28-34 | The forward fill of 20 bytes, emitted in reverse, emits the same notation |
| Heap.AlignUpLeast | emulator/run/common/tsvc_runtime.c:23-31 | With no address wrap and a power of two, align_up gives the least aligned address not below its input |
| Heap.AlignUpExact | emulator/run/common/tsvc_runtime.c:23-31 | It does so for every address that does not wrap if and only if the alignment is a power of two |
| Heap.AndNotMask | emulator/run/common/tsvc_runtime.c:29-30 | Masking with the complement of 2^k - 1 clears the k lowest bits |
| Heap.StepExact | emulator/run/common/tsvc_runtime.c:40-53 | For every call: all blocks stay in the heap, disjoint and aligned if and only if it is refused or no address wraps; without a wrap it is granted exactly when the aligned block fits; a refusal changes nothing |
| Heap.WrappedRequest | emulator/run/common/tsvc_runtime.c:47-51 | A request for all words but those in use is granted although it does not fit |
| Heap.RunExact | emulator/run/common/tsvc_runtime.c:33-53 | Over every run the heap stays safe throughout if and only if no granted call wraps |
| Heap.RunDisjoint | emulator/run/common/tsvc_runtime.c:33-53 | After every run without such a call, the blocks since the last reset are aligned, in the heap, and share no byte |
| Heap.RoomyRun | emulator/run/common/tsvc_runtime.c:33-53 | When every request leaves room below the last address for the heap, its alignment and its size, no call of the run wraps and the heap stays safe throughout |
| Heap.BumpHeap.Memalign | emulator/run/common/tsvc_runtime.c:40-53 | The method on the static offset makes the modelled step, for every pair of words, and keeps the heap safe exactly when the call does not overrun |
| Heap.BumpHeap.Reset | emulator/run/common/tsvc_runtime.c:33-35 | The reset sets the offset to zero and forgets all blocks |
| Heap.InitFits | emulator/benchmarks/TSVC_2/src/common.c:157-159 | The two requests of init succeed on a fresh heap for every array length |
| CutPaste.ExtractBlock | emulator/benchmarks/TSVC_2/scripts/generate_loops.py:28-38 | Finds the first return to depth zero at a closing brace, or fails when there is none |
| CutPaste.ExtractFunction | emulator/benchmarks/TSVC_2/scripts/generate_loops.py:41-52 | Cuts the function at a signature match, or fails when no closing brace ends it |
| CutPaste.ExtractFunctionBody | scripts/benchmark_sources.py:412-431 | Cuts the text between the outer braces, or fails when there is no such text |
| CutPaste.BodyBalanced | scripts/benchmark_sources.py:421-429 | What lies between the outer braces is balanced and never closes more than it opened |
| CutPaste.PlacedCut | scripts/benchmark_sources.py:412-431 | A block placed in any text is cut there again, and only it: nothing after its end is seen |
| CutPaste.RoundTrip | emulator/benchmarks/TSVC_2/scripts/generate_loops.py:115-139 | The body cut from the assembled file is the body the function has in the suite |
| Arguments.RewriteArgInfoLines | scripts/benchmark_sources.py:536-575 | The line loop computes the rewriting or its first error, and succeeds if and only if every line uses the argument as it was prepared |
| Arguments.RewriteExactly | scripts/benchmark_sources.py:536-593 | The rewriting succeeds if and only if pointers are taken only from an argument that is no struct, scalars read only from no struct or a struct of one field, and struct pointers taken only from a struct with a field; it then rewrites the code line by line |
| Arguments.FirstError | scripts/benchmark_sources.py:536-593 | Otherwise the error is that of the first line that does not use the argument so |
| Arguments.RewriteKeepsIndent | scripts/benchmark_sources.py:541-573 | Every line but those that take a struct pointer stays, in order and at its indentation |
| Arguments.RewrittenFree | scripts/benchmark_sources.py:374-375 | Nothing of the argument is left in the rewritten lines |
| Converter.StripOuterLoop | scripts/benchmark_sources.py:492-515 | Replaces the first repeat loop by its moved body, keeps text without one, and fails if its braces never balance |
| Converter.FilterRuntimeLines | scripts/benchmark_sources.py:596-602 | The k-th line that is no harness call becomes line k, as it was but for trailing blanks, and no other line is left |
| Converter.DedentKeeps | scripts/benchmark_sources.py:518-529 | Moving a block left keeps every text and all relative indentation, and brings some line that is not blank to the left edge |
| Converter.ConvertBody | scripts/benchmark_sources.py:370-372 | The three passes one after the other turn the lines into a kernel, or fail when there is none to turn them into |
| Programs.UnwrapFindsLoop | scripts/benchmark_sources.py:492-515 | On the lines of a function, however they are indented, the unwrapping takes away the head and the own closing brace of the repeat loop and leaves the function with the loop replaced by its body, whatever stands ahead of the loop |
| Programs.ListingRewritten | scripts/benchmark_sources.py:536-575 | Rewriting a program's lines gives the lines of the program rewritten statement by statement |
| Programs.KernelText | scripts/benchmark_sources.py:370-372 | The three passes over a function's lines, however they are indented, succeed if and only if every line uses the argument as it was prepared, and then leave the lines of the kernel: the repeat loop replaced by its body, the argument's uses rewritten, the harness calls dropped |
| Conversion.RewriteMeaning | scripts/benchmark_sources.py:536-593 | With every read at its own type, and every struct pointer used in its scope for fields that stand where they were stored and whose expressions are read as one, the rewritten program, loops and branches included, does what the program did, whatever the argument pointer is |
| Conversion.UsableAtTop | scripts/benchmark_sources.py:538-556 | Struct pointers bound outside all blocks, to a type with the members that were filled, are usable everywhere |
| Conversion.FieldExact | scripts/benchmark_sources.py:549-555 | A struct type is accepted, and a field read as a whole right side keeps its value for all globals if and only if the member's offset and type are those of the expression stored under its name |
| Conversion.SwappedMembers | scripts/benchmark_sources.py:549-555 | A type with a real b ahead of an int a, where ints a and b are filled, is accepted, and neither field survives |
| Pasting.PastingExact | scripts/benchmark_sources.py:549-555 | An expression pasted into a line of operands and operators is read as one if and only if it is one operand, or a product not behind a multiplication or division, or a sum in front of no such operator |
| Pasting.PastedQuotient | scripts/benchmark_sources.py:549-555 | With LEN_2D/2 pasted for x->b, the line 1000/x->b means 7 before and 1 after, at a LEN_2D of 256 |
| Conversion.DroppedMeaning | scripts/benchmark_sources.py:596-602 | Dropping lines that have no effect changes no program's effect |
| Conversion.KernelMeaning | scripts/benchmark_sources.py:370-372 | The kernel, whatever the argument pointer is, does what the loop function does when its repeat loop runs once |
| Conversion.ConversionSound | scripts/benchmark_sources.py:357-376 | On a loop function's lines, however they are indented, the three passes succeed and leave the lines of the kernel, and that kernel does to the arrays what the function does when its repeat loop runs once |
| Conversion.ReadExact | scripts/benchmark_sources.py:561-564 | A read of a global through the argument is accepted, and the program means the same before and after the rewriting for every value of the global, if and only if the read is at the global's type |
| Conversion.S272Changes | scripts/benchmark_sources.py:561-564 | At s272's own line, with tsvc_s1 at 1.0, the function gets 0x3F800000 and the kernel 1 |
| Conversion.PointerKept | scripts/benchmark_sources.py:566-571 | A line that takes a pointer from an argument that is one expression is accepted, names the expression afterwards, and means the same |
| Conversion.S491Kept | scripts/benchmark_sources.py:566-571 | s491's line `int * ip = func_args->arg_info` becomes `int * ip = tsvc_ip` and means the same |
| RunCache.RequestsComplete | experiment/vf-performance/src/vf_performance/pipeline.py:266-312 | Every factor some plan of a loop offers is requested for that loop, nothing else, besides the default run |
| RunCache.JoinInjective | experiment/vf-performance/src/vf_performance/storage.py:86-104 | Joining parts without the separator loses nothing |
| RunCache.KeyInjective | experiment/vf-performance/src/vf_performance/storage.py:77-105 | Two requests share a run key only if they ask for the same run |
| RunCache.RequestStepSound | experiment/vf-performance/src/vf_performance/pipeline.py:572-598 | A request, cached or not, reports the cycles the simulator takes; a forced one, its cycles less the default run's and the quotient of the default run's by its own; and it leaves a sound store |
| RunCache.SessionSound | experiment/vf-performance/src/vf_performance/pipeline.py:449-474 | A session on a sound store reports what a cold session does, and leaves a sound store |
| RunCache.CacheRefinement | experiment/vf-performance/src/vf_performance/pipeline.py:449-474 | From every sound store, every sequence of sessions, cached or not in any mix, reports the cold runs up to the cache mark |
| RunCache.CacheRefinementFromEmpty | experiment/vf-performance/src/vf_performance/pipeline.py:449-474 | The same from an empty cache |
| RunCache.RunCount | experiment/vf-performance/src/vf_performance/pipeline.py:453-473 | A session makes exactly the announced number of runs |
| RunReports.SessionReports | experiment/vf-performance/src/vf_performance/pipeline.py:449-474 | A session on a sound store reports run by run, in order, the cycles the simulator takes, each forced run with its delta and speedup against its benchmark's default run, and no other run with either |
| RunReports.SessionHits | experiment/vf-performance/src/vf_performance/pipeline.py:572-598 | A run comes from the cache if and only if caching is on and its key was stored before it, by this session or an earlier one |
| RunReports.WarmSession | experiment/vf-performance/src/vf_performance/pipeline.py:449-474 | Benchmarks of a session that has run are reported again from the cache alone, which stays as it is |
| RunReports.VfsOrder | experiment/vf-performance/src/vf_performance/pipeline.py:266-274 | Every factor a loop's plans offer is requested once, in the order of first offer |
| RunReports.RunsOrder | experiment/vf-performance/src/vf_performance/pipeline.py:289-312 | The default run comes first, then the runs of each loop, loop after loop |
| RunCache.PipelineRunner.RunRequest | experiment/vf-performance/src/vf_performance/pipeline.py:572-598 | The method makes the modelled step: with caching on, a stored key is a hit that changes nothing, else the run is executed and stored; the result is compared with the default run's cycles |
| RunCache.PipelineRunner.LoadOrAnalyze | experiment/vf-performance/src/vf_performance/pipeline.py:494-502 | The method makes the modelled step: with caching on, a stored analysis is returned as it is, else the analysis is made and stored |
| RunCache.PipelineRunner.Run | experiment/vf-performance/src/vf_performance/pipeline.py:449-474 | The whole session makes the modelled step on both stores, and progress counts 1 to the number of runs |

## Assumptions

- The methods take distinct arrays and the lengths the loops need (for example 63 cells beyond
  LEN_1D for s424); the suite's global arrays meet both.
- Square roots are a parameter with its defining property (`Regression.IsSqrt`).
- `RunCache` takes compiler and simulator as deterministic functions, the key digest as injective,
  and names and factors as free of the separator `|`.
- `Heap` takes a heap that ends below the last address, and pointers whose size is a power of two.
- `Arguments`, `Converter` and `CutPaste` take the outcome of the regular expressions (what kind a
  line is, where a signature starts and ends) as given.
- `Conversion` takes a function body whose dropped lines have no effect (so a dropped `return`
  ends the body) and whose globals do not change between preparing and reading the arguments, and
  a `tsvc_prepare_args` that stores every expression in a field of its own type. `int` and `real_t`
  take 4 bytes, pointers 4 or 8, and members are aligned to their size.
- `Conversion.ReadExact` uses two facts of IEEE 754 single precision: the word of 1.0 is 0x3F800000,
  and the word 1 is a positive number below 1.

## Left out

- The timing loop `nl`, `dummy`, `initialise_arrays`, `calc_checksum` and `gettimeofday`: the kernel methods model one pass; `Dependence.ReorderRepeated` carries reorderings through repeated passes.
- The assignment of the global pointers `xx` and `yy`: the kernels index the array they point into.
- Floating-point rounding: element operations are uninterpreted, or exact where a row says so.
- `goto`, `break` and a `return` in the middle of a kernel, `else if` chains, and loops whose trip count is not fixed by the state on entry, in the converter's statement trees.
- Conversion.ConversionSound: text substitution works on the tokens of a line, and `tsvc_prepare_args` is given as what it returns; its own parsing is not modelled.
- Conversion.RewriteMeaning: a pasted expression has to be one token or a whole right side, as in every loop of the suite; which other places are safe is said by `Pasting.PastingExact`, for lines of operands and binary operators and not for other C syntax.
- Conversion.FieldExact: reads of a field as a whole right side; reads inside a longer line are covered, in one direction, by `Conversion.RewriteMeaning`.
- Converter.StripOuterLoop: lines are an indentation and a text without blanks at its ends, so tabs are not told apart from other text.
- RunCache.PipelineRunner.Run: results are values, so updating a cached object in place is not captured; the worker threads of the analysis phase are one loop in the order discovery lists the loops, which is also the order the results are sorted into.
- Corrupt or half-written cache files, the JSON encoding, wall-clock times, and a backend whose answers vary.
- The constants of `Heap` follow 4-byte `real_t` and `int`.
- `build_forced_vf_arg`, `dense_rank`, `build_metric_summaries` and the report generators: they format or count values that the modelled parts produce, and nothing depends on their being right.
- Element-wise kernels and the per-loop copies of the kernels: no transformation is at stake in them.
- Docker, SSH, QEMU, subprocess, database, HTML and plotting code: I/O around tools outside this repository.
