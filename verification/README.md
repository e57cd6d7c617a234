# Kernel proofs

The repository's `scripts/` hold self-contained kernels of the inference engine, each a fast form beside a plain form it must equal.
This project models them in Dafny and proves that they do: for all lengths, tile sizes, loop orders and thread counts, and for the
concurrent parts in every interleaving.

| files | models |
|---|---|
| `Complex`, `Dft`, `RealDft`, `RealFft`, `Stft` | `bench54.cpp`: the in-place radix-2 transform, the real transform pair by the even/odd split, windowed analysis and overlap-add synthesis |
| `PackedGemm`, `SpinBarrier`, `SharedSchedule`, `WorkerPool` | `bench66.cpp`: the packed, blocked matrix product, the reusable spin barrier, the cooperatively packed schedule, the worker pool |
| `ResblockChain` | `bench11.cpp`: two convolutions fused over a rolling window |
| `DirectSweep` | `bench67.cpp`: the direct convolution with its weight packs, groups, staging and overlapping tail |
| `PhaseConv` | `bench10.cpp`: the phase-major dilated convolution |
| `Polyphase` | `bench56.cpp`: the transposed convolution as phases |
| `Depthwise`, `DepthwiseF32` | `bench43.cpp`: the depthwise convolution, int8 on packed pairs and float |
| `Int8Gemm`, `Int8Gemv` | `bench60.cpp`, `bench59.cpp`, `bench58.c`: int8 products that cannot overflow |
| `NibbleDot` | `bench23.c`, `bench24.c`, `bench29.c`: Q4_0 by Q8_0 dot and matrix products |
| `JobCounter`, `ColumnTiles` | `bench7.cpp`: jobs from an atomic counter, the uneven column split |
| `ShortVecText`, `ShortVecTokens`, `ShortVec`, `ShortVecMode`, `ShortVecInsn`, `ShortVecRuns`, `ShortVecListing` | `armv6_shortvec.py`: the checker for short-vector regions, the instructions it must not let through, by what they do, what its acceptance means on the machine, and the sequences generators emit |
| `Simd32`, `Powers`, `Index`, `Bounds`, `Cells` | ARMv6 packed-integer operations, powers of two, index arithmetic, output cells that count their stores |

How numbers are modelled. Schedules and tilings (`bench66`, `bench67`, `bench7`, `bench29`, `bench23`, float `bench43`) leave float
operations uninterpreted, so an equality of values is an equality of bits. `bench11` and `bench10` use one uninterpreted
multiply-accumulate where the code fuses in one path and not in another. `bench54` and `bench56`, whose fast forms reorder sums, use
exact reals. Integer kernels use 32-bit words with SMLAD, SXTB16, UXTB16, SSUB16, SMMULR and SSAT written out from the ARM
Architecture Reference Manual (DDI 0100I, chapters A3 and A4).

Concurrency. The barrier, the pool, mode s of the schedule and the job counter are state machines whose steps are single atomic
operations (or one panel, tile or job) by any thread; the lemmas quantify over every reachable state. Loops that an OpenMP or ggml
worker runs over its own share are methods with a contract that says what the thread writes and what it leaves alone.

Where the code and its promise part:

- `bench10`'s two-pass input split keeps a thread-local scratch between calls. Cells past the end of the input are not written, so
  after a call of another shape they can hold old values that then stand where the padding should be zero. `PhaseConv.StagedIff`
  says when the padded phases are right, `ReadsIff` when every read of them is, `AlwaysRightIff` and `NeverReadsIff` for which
  shapes they are whatever the scratch held; `EarlierCall` and `StaleOutput` give a wrong output after an earlier call.
- `armv6_shortvec.py` promises to reject any way out of the function, any pc write, a second FPSCR write, double precision and
  wrapping vectors. It knows them by spelling: `pc` and `s<n>` in lower case, `vmsr` and the vector operations without a condition
  and by their unified names, and only as the first statement of a line with no label before it. `ShortVecInsn.RejectedIff` gives
  the exact spellings on lines of one statement. What it misses: `ShortVecRuns.UnseenPc`, `UnseenList`, `UnseenWrites`,
  `UnseenVectors`, `UnseenDouble`, `UnseenExits` and `UnseenReturn` by spelling, `LabelledIsAccepted` any instruction after a
  label, `SecondIsAccepted` any in a second statement, `HiddenCalls` the lines `1: bl f` and `add r0, r1; bl f`. `AcceptedSafeIff`
  says that acceptance means safety exactly when every unsafe instruction within a region stands alone on its line in a known
  spelling and the statements outside the modelled instructions do no such thing; what those do is a parameter.
- `bench7`'s column split runs past N when N is too small: `ColumnTiles.WalkCoversIff`.
- `bench11`'s window is one position short when (KW - 1) dB is odd and L >= T: `ResblockChain.ReadsFitIff`, and `OddSpanIsWrong` for
  a wrong output.
- `bench58` and `bench59` size the activation range for weights up to 127 in magnitude, where the promise is about int8 weights:
  `Int8Gemm.OverflowIff` and `Int8RowsIff` say which rows fit, `Int8Gemv.Range127Iff` for which K that range covers -128,
  and `Int8Gemv.GemvI8` and `GemmI8` what an output is where they do not: the sum modulo 2^32.

`dafny verify dfyconfig.toml` checks the whole project.

## Model

| member | source | states |
|---|---|---|
| `Complex.FourPointRoot` | scripts/bench54.cpp:71-78 | the abstract twiddles the transform lemmas assume exist: the four-point ones satisfy every law |
| `Complex.DoubledRoot` | scripts/bench54.cpp:71-78 | and from those for n points come those for 2 n, given a point half way to the first twiddle: every power of two |
| `Complex.HalfAngle` | scripts/bench54.cpp:71-78 | that point is the cosine and sine of half the angle, the two square roots of the half-angle formulas |
| `Complex.EvalEvenOdd` | scripts/bench54.cpp:86-98 | a coefficient sequence evaluated at z splits into its even and odd halves evaluated at z squared |
| `Complex.EvalReverse` | scripts/bench54.cpp:111-116 | evaluation of a reversed coefficient sequence, the identity behind pairing bin k with bin m - k |
| `Dft.DftIsEval` | scripts/bench54.cpp:83-84 | the k-th output of the transform, defined as a sum of products with powers of the root, is the coefficient polynomial evaluated at that power |
| `Dft.RevInvolution` | scripts/bench54.cpp:66-70 | bit reversal stays in range and undoes itself, so the table is a permutation |
| `Dft.UnscrambleHalves` | scripts/bench54.cpp:66-70 | reading bit-reversed input back, the even and odd parts are the two halves of the array |
| `Dft.EvalThroughHalves` | scripts/bench54.cpp:92-95 | one butterfly turns the two half-size transforms into outputs t and t + m |
| `Dft.StagesAreDft` | scripts/bench54.cpp:86-98 | s stages over 2^s positions leave in place the transform of the unscrambled input, at the root of that size and either sign |
| `Dft.DftInversion` | scripts/bench54.cpp:135-140 | the conjugate-twiddle transform of a transform is the input times its length |
| `RealDft.SplitPacked` | scripts/bench54.cpp:110-115 | the even and odd spectra of a real signal are recovered from the packed half-size transform at every k from 0 to m, both ends included |
| `RealDft.BinFromHalves` | scripts/bench54.cpp:115-116 | bin k of the real transform is E + w^k O |
| `RealDft.HermitianIsReal` | scripts/bench54.cpp:120-134 | a half spectrum extended by conjugate symmetry, the imaginary parts of bins 0 and m dropped, has a real inverse |
| `RealDft.PackedInverse` | scripts/bench54.cpp:124-140 | the half-size inverse of E + i O carries sample 2 j in its real part and 2 j + 1 in its imaginary part |
| `RealDft.SamplesFromPacked` | scripts/bench54.cpp:136-140 | sample by sample, the packed inverse delivers the inverse of the full Hermitian spectrum |
| `RealDft.RealRoundTrip` | scripts/bench54.cpp:102-140 | the inverse real transform of the half spectrum of any real signal is the signal |
| `RealFft.ReverseBits` | scripts/bench54.cpp:66-70 | the shift-and-or loop computes bit reversal |
| `RealFft.MakePlan` | scripts/bench54.cpp:60-81 | the plan holds the bit reversal, the two twiddle tables as powers of one root, and the window |
| `RealFft.ButterflyAt` | scripts/bench54.cpp:92-95 | the in-place butterfly: (a + b w, a - b w), nothing else touched |
| `RealFft.CfftBlock` | scripts/bench54.cpp:89-96 | the j loop combines one block and leaves every other position alone |
| `RealFft.CfftStage` | scripts/bench54.cpp:87-97 | the i loop combines every block of a stage |
| `RealFft.Cfft` | scripts/bench54.cpp:84-99 | on bit-reversed input the in-place transform leaves output k of the forward or conjugate transform at position k, for every power-of-two m |
| `RealFft.LoadFrame` | scripts/bench54.cpp:104-108 | the scatter through the bit-reversal table holds the windowed frame packed two samples to a number |
| `RealFft.SplitBins` | scripts/bench54.cpp:110-117 | the split loop turns the packed transform into bins 0 to m of the real one |
| `RealFft.Rfft` | scripts/bench54.cpp:102-118 | the half spectrum of the windowed frame |
| `RealFft.PackBins` | scripts/bench54.cpp:123-134 | the packed bit-reversed spectrum of the Hermitian extension |
| `RealFft.Irfft` | scripts/bench54.cpp:121-141 | every sample of the inverse real transform, times the window |
| `Stft.FrameIs` | scripts/bench54.cpp:158 | frame f's half spectrum is that of the samples x[f hop + q] win[q] |
| `Stft.StftOp` | scripts/bench54.cpp:149-164 | thread ith stores the half spectra of its own frames, frame f from sample f hop on, real rows then imaginary rows, and no other column changes |
| `Stft.StftAllThreads` | scripts/bench54.cpp:149-164 | threads in any order: every frame is analysed |
| `Stft.IstftOp` | scripts/bench54.cpp:169-191 | every output sample is the sum of the windowed inverse frames over it divided by the sum of squared window values over it |
| `Stft.FrameRoundTrip` | scripts/bench54.cpp:102-141 | the windowed inverse of one analysed frame is the frame times the squared window |
| `Stft.OverlapRoundTrip` | scripts/bench54.cpp:186-189 | overlap-adding such frames gives each sample times its window-square sum |
| `Stft.SampleRoundTrip` | scripts/bench54.cpp:149-191 | a sample comes back exactly where the window-square sum is not zero, and is 0 / 0 elsewhere |
| `Stft.Spanned` | scripts/bench54.cpp:185-188 | with a window nowhere zero and a hop of at most its length, every sample from the first frame's start to the last one's end has a positive window-square sum |
| `Stft.AnalyseThenSynthesise` | scripts/bench54.cpp:149-191 | analysis by any number of threads and synthesis with the same plan and hop return the signal wherever some squared window value is not zero, and so every sample of that span for such a window |
| `PackedGemm.ChainResume` | scripts/bench66.cpp:200-207 | a contraction cut into chunks, each resuming the stored accumulator, is the same ordered chain |
| `PackedGemm.Transpose4` | scripts/bench66.cpp:161-167 | the shuffles transpose four rows of four |
| `PackedGemm.PackFour` | scripts/bench66.cpp:156-174 | four k-steps of a panel from two transposes |
| `PackedGemm.PackRows` | scripts/bench66.cpp:152-180 | the vector part and the remainder together make the panel, rows past N as zeros |
| `PackedGemm.PackPanels` | scripts/bench66.cpp:144-181 | one panel per eight rows, each after its optional zero line, nothing outside written |
| `PackedGemm.PanelLine` | scripts/bench66.cpp:142-143 | line k of a panel holds weight k of its eight rows |
| `PackedGemm.StoreAcc` | scripts/bench66.cpp:246-250 | rows that alias the last real one end with its own values |
| `PackedGemm.TileLoop` | scripts/bench66.cpp:209-245 | four steps at a time and the remainder are the same ordered chain per lane |
| `PackedGemm.Tile4x8` | scripts/bench66.cpp:189-251 | 1 to 4 rows by 8 columns advance from the stored accumulator or zero by kc products in k order; nothing else changes |
| `PackedGemm.ComputeBlockByRow` | scripts/bench66.cpp:287-293 | order r over a block |
| `PackedGemm.ComputeBlockByPanel` | scripts/bench66.cpp:294-303 | order p over a block, rows in runs of MB |
| `PackedGemm.ComputeBlock` | scripts/bench66.cpp:285-305 | either order advances every output of the block by the chunk and touches nothing else |
| `PackedGemm.BlockOfColumns` | scripts/bench66.cpp:345-350 | packing and computing chunk after chunk brings a block of columns to the full chain |
| `PackedGemm.RunThread` | scripts/bench66.cpp:342-352 | thread ith brings exactly its own column blocks to the full chain |
| `PackedGemm.RunModeT` | scripts/bench66.cpp:317-354 | mode t: every output is the k-ordered fma chain from zero, for any NB, KC, MB, order and thread count |
| `SpinBarrier.LastArrival` | scripts/bench66.cpp:132 | an arrival that finds nth - 1 counted is the last: every other thread is waiting |
| `SpinBarrier.ActKeeps` | scripts/bench66.cpp:129-138 | every atomic operation of every thread keeps the barrier invariant |
| `SpinBarrier.ArrivalCounts` | scripts/bench66.cpp:129-138 | the arrivals of a thread go up by one where it is counted, and nowhere else |
| `SpinBarrier.NoEarlyLeave` | scripts/bench66.cpp:129-138 | no thread leaves round g before every thread has arrived at it |
| `SpinBarrier.RunnersAgree` | scripts/bench66.cpp:129-138 | threads outside the barrier are all in the same round |
| `SpinBarrier.ResetLosesNothing` | scripts/bench66.cpp:133-134 | when the counter is reset no thread stands between reading the generation and being counted |
| `SpinBarrier.NeverStuck` | scripts/bench66.cpp:129-138 | when every thread is inside, some operation changes the state |
| `SharedSchedule.RowSplitValid` | scripts/bench66.cpp:324-326 | the row split deals each row to exactly one thread |
| `SharedSchedule.RowGroups` | scripts/bench66.cpp:324-326 | every share starts at a multiple of four or at the end, and has at most one group of four more than the even one |
| `SharedSchedule.BuildPieces` | scripts/bench66.cpp:327-332 | the column-block and chunk loops resume each column where it was left and together reach K |
| `SharedSchedule.NextKeeps` | scripts/bench66.cpp:322-341 | one packed panel, one tile or one barrier operation by any thread keeps the invariant |
| `SharedSchedule.RoundPacked` | scripts/bench66.cpp:333-337 | when the last arrival ends a packing half every panel of the piece is in its slot |
| `SharedSchedule.NoRunPacksDuringCompute` | scripts/bench66.cpp:333-339 | in every interleaving no thread packs while another computes |
| `SharedSchedule.RunIsRight` | scripts/bench66.cpp:322-341 | for any pieces and rows that are valid, in every interleaving, once all threads have finished, every output is the k-ordered chain |
| `SharedSchedule.PlanShared` | scripts/bench66.cpp:317-341 | for every schedule, K, N, M and thread count the pieces and rows dealt are valid, a buffer of NB columns by the chunk length has room for every piece, and every finished run gives the chain in every output |
| `SharedSchedule.NeverStuckRun` | scripts/bench66.cpp:322-341 | until all have finished some thread can change the state |
| `WorkerPool.MainKeeps` | scripts/bench66.cpp:118-128 | every step of the caller keeps the pool invariant |
| `WorkerPool.WorkerKeeps` | scripts/bench66.cpp:93-107 | every step of a worker keeps it |
| `WorkerPool.RunInv` | scripts/bench66.cpp:93-128 | every state of every run satisfies it |
| `WorkerPool.OncePerGeneration` | scripts/bench66.cpp:104-105 | each worker has executed functions 1, 2, ... once each, in order |
| `WorkerPool.FnNotInUse` | scripts/bench66.cpp:119 | fn is assigned only while no worker is about to call it or inside it |
| `WorkerPool.InsideIsCurrent` | scripts/bench66.cpp:102-104 | a worker inside a call runs the function of the generation it took |
| `WorkerPool.RunReturnsAfterAll` | scripts/bench66.cpp:127 | run returns only after every worker finished |
| `WorkerPool.GoneMeansExited` | scripts/bench66.cpp:110-117 | the destructor is past its joins only when every worker has exited, having executed every function once, in order |
| `WorkerPool.AwaitedRunProgresses` | scripts/bench66.cpp:125-127 | an awaited run never depends on a wake-up that was lost |
| `WorkerPool.NeverStuck` | scripts/bench66.cpp:93-128 | no state short of the end is stuck |
| `ResblockChain.ReadsFitIff` | scripts/bench11.cpp:174-175 | every tap of every output of every tile reads inside its row of the window if and only if (KW - 1) dB is even or L < T |
| `ResblockChain.MiddleTap` | scripts/bench11.cpp:240-253 | for an odd number of taps the middle one reads the output's own position, the others dil apart |
| `ResblockChain.FlatIsConv` | scripts/bench11.cpp:240-253 | where the reads fit, the rows one after another in memory give the convolution by channel and position |
| `ResblockChain.OddSpanCrosses` | scripts/bench11.cpp:240-253 | otherwise the last tap of a full tile reads the next channel's first position |
| `ResblockChain.OddSpanIsWrong` | scripts/bench11.cpp:240-253 | and the output can be wrong: KW = 2, dB = 1, L = T = 1 gives 1 for an output of 0 |
| `ResblockChain.ConvInWindow` | scripts/bench11.cpp:240-251 | a convolution over a window that holds zeros outside the signal is the convolution of the signal |
| `ResblockChain.Tile` | scripts/bench11.cpp:113-143 | a register tile stores bias, channels, taps and residual in order, and nothing else |
| `ResblockChain.ConvA` | scripts/bench11.cpp:188-210 | positions [a0, a1) of the first convolution plus residual, whole tiles and guarded points together |
| `ResblockChain.Prologue` | scripts/bench11.cpp:223-226 | the first step leaves the window holding positions p0 - hB and on, zeros outside the signal |
| `ResblockChain.Advance` | scripts/bench11.cpp:227-239 | every later step shifts and appends, and the window again holds exactly its positions |
| `ResblockChain.WindowConv` | scripts/bench11.cpp:240-253 | convolving the window gives the output of the definition for every output whose last tap lies in its row |
| `ResblockChain.ConvB` | scripts/bench11.cpp:240-253 | outputs [p0, p1) are the definition where the last of them reads inside its row, others stay |
| `ResblockChain.ChainThread` | scripts/bench11.cpp:220-254 | where the reads fit, a thread writes exactly its run of tiles, with the definition |
| `ResblockChain.ThreadOf` | scripts/bench11.cpp:176-177 | each position lies in exactly one thread's run |
| `ResblockChain.ChainAllThreads` | scripts/bench11.cpp:170-256 | threads in any order: every output is conv B of the activated intermediate plus the intermediate, for every L, T, KW and dilation pair whose reads fit |
| `DirectSweep.Arith.LeakyIs` | scripts/bench67.cpp:50-55 | both activations: a positive input plus the slope times zero, a negative one times the slope plus zero |
| `DirectSweep.Arith.LeakyAgrees` | scripts/bench67.cpp:50-55 | the fused and the plain activation agree where fusing a product with a zero term changes nothing |
| `DirectSweep.Problem.TapPosition` | scripts/bench67.cpp:272 | for an odd number of taps tap kx of output p reads position p + (kx - (KW - 1) / 2) dil, zero outside the signal, and the middle one p itself |
| `DirectSweep.Problem.DefinedIs` | scripts/bench67.cpp:71-112 | the definition is then the ordered sum of those taps plus the residual |
| `DirectSweep.LeakyCopy` | scripts/bench67.cpp:56-61 | the first whole fours by the vector activation, the rest by the scalar one, nothing else touched |
| `DirectSweep.PadRow` | scripts/bench67.cpp:153-159 | a row of the padded copy, element by element, zeros around it |
| `DirectSweep.StageRow` | scripts/bench67.cpp:192-198 | a row of a staged chunk, element by element by the form its place in the chunk gives it, zeros before and after the signal |
| `DirectSweep.PackRuns` | scripts/bench67.cpp:140-145 | thread ith's tile runs of the weight pack |
| `DirectSweep.PackChannels` | scripts/bench67.cpp:146-151 | thread ith's input channels of the shipped pack |
| `DirectSweep.TileSums` | scripts/bench67.cpp:71-93 | each accumulator is bias, then channel, then tap |
| `DirectSweep.Tile` | scripts/bench67.cpp:67-112 | the tile stores its outputs with the residual, a clamped one only from pmin on, and touches nothing else |
| `DirectSweep.GlobalThread` | scripts/bench67.cpp:168-179 | thread ith stores its blocks and its share of the overlapping tail, each once |
| `DirectSweep.ChunkWidest` | scripts/bench67.cpp:181-185 | a staged chunk with its taps is as many blocks as fit the budget of kilobytes, or of positions, or one |
| `DirectSweep.StagedThread` | scripts/bench67.cpp:180-208 | the same over staged chunks, the thread with the last block taking the tail, on whatever mixture of the two activations the chunks hold |
| `DirectSweep.GlobalThreads` | scripts/bench67.cpp:168-179 | threads in any order, each once: every output is stored exactly once |
| `DirectSweep.StagedThreads` | scripts/bench67.cpp:180-208 | the same for threads that stage their own chunks |
| `DirectSweep.MixtureIsDefined` | scripts/bench67.cpp:50-61 | where the two activations agree on the inputs, any mixture of them gives the definition's ordered sum |
| `DirectSweep.Sweep` | scripts/bench67.cpp:130-211 | for every tile, pack, group, stage and thread count, threads in any order, each output is stored exactly once, as the ordered sum over inputs activated by one form or the other, and as the definition where the forms agree, for an odd number of taps the sum centred on the output |
| `PhaseConv.Deint` | scripts/bench10.cpp:292-319 | element j f + r to column j of phase r, vector part and remainder, any factor; every other cell stays |
| `PhaseConv.Inter` | scripts/bench10.cpp:322-345 | the inverse gather into the first n positions, every other cell stays |
| `PhaseConv.SplitAndBack` | scripts/bench10.cpp:321-345 | interleaving undoes de-interleaving |
| `PhaseConv.GatherAndSplit` | scripts/bench10.cpp:288-345 | de-interleaving undoes interleaving on every cell that holds an element |
| `PhaseConv.TwoPassIndex` | scripts/bench10.cpp:347-349 | splitting by a, then by b, puts element p in phase p mod ab at index p div ab |
| `PhaseConv.PhaseFactors` | scripts/bench10.cpp:350-357 | the two factors multiply to the dilation |
| `PhaseConv.TwoPasses` | scripts/bench10.cpp:384-390 | both passes: the phases, and past the end whatever the scratch's unwritten cells held |
| `PhaseConv.StagedIff` | scripts/bench10.cpp:384-390 | the two-pass input is right if and only if the scratch cells it does not write are zero |
| `PhaseConv.AlwaysRightIff` | scripts/bench10.cpp:384-390 | it is right on every scratch content if and only if the first factor divides the length |
| `PhaseConv.ReadsIff` | scripts/bench10.cpp:384-390 | every tap of every output within the length reads what it should if and only if each unwritten cell is zero, or KW is 1, or the cell stands before position dil |
| `PhaseConv.NeverReadsIff` | scripts/bench10.cpp:384-390 | no output reads a leftover, whatever the scratch held, if and only if the split is in one pass, or its first factor divides the length, or KW is 1, or the scratch ends before position dil |
| `PhaseConv.KnownDilations` | scripts/bench10.cpp:350-390 | by dilation: 6 and 8 need an even length, 9 one divisible by three, 12 and 16 by four, unless KW is 1 or the length rounded up is at most the dilation; no other dilation has leftovers |
| `PhaseConv.EarlierCall` | scripts/bench10.cpp:384-390 | a call of length 8 leaves a 5 in the scratch where a call of length 7 does not write |
| `PhaseConv.StaleOutput` | scripts/bench10.cpp:384-390 | from that scratch an output is 5 where it should be 0: length 7, dilation 6, three taps |
| `PhaseConv.PadInputPhase` | scripts/bench10.cpp:359-392 | every channel phase-major between zeros, by any of the four ways of splitting |
| `PhaseConv.DenseIsDilated` | scripts/bench10.cpp:278-284 | the dense sum over one phase is the dilated sum |
| `PhaseConv.Problem.TapPosition` | scripts/bench10.cpp:268-270 | tap kx of output p reads position p + (kx - (KW - 1) / 2) dil, the middle one p itself |
| `PhaseConv.ConvPhases` | scripts/bench10.cpp:395-473 | every index of every phase, whether in a whole block, the overlapping last block or the scalar tail |
| `PhaseConv.UnphaseTwoPasses` | scripts/bench10.cpp:484-492 | both passes back: the scratch is written before it is read |
| `PhaseConv.PhaseAndBack` | scripts/bench10.cpp:384-492 | splitting a row in two passes and gathering it in two gives it back, whatever either scratch held |
| `PhaseConv.BackAndPhase` | scripts/bench10.cpp:384-492 | gathering and splitting in two passes gives back every cell that holds an element |
| `PhaseConv.UnphaseOutput` | scripts/bench10.cpp:476-498 | position p of a channel is index p div dil of phase p mod dil |
| `PhaseConv.PhaseMajorConv` | scripts/bench10.cpp:359-498 | whatever the scratch held the three steps give the dense sums over the streams, and the dilated same-padded convolution where no tap reads a leftover |
| `Polyphase.ChannelByTaps` | scripts/bench56.cpp:207-212 | what a channel's positions below i scatter into an output is a prefix of one phase's taps |
| `Polyphase.SumsExchange` | scripts/bench56.cpp:207-212 | the scatter's sums over positions and channels exchange |
| `Polyphase.PhaseIsOutput` | scripts/bench56.cpp:97-109 | phase p at position q is output q s + p of the transposed convolution |
| `Polyphase.ChunksCover` | scripts/bench56.cpp:87-89 | the even chunks cover the input channels, none of them empty |
| `Polyphase.Poly.constructor` | scripts/bench56.cpp:79-95 | shapes of the buffers and chunks that cover the channels |
| `Polyphase.Poly.Pack` | scripts/bench56.cpp:98-109 | each phase's taps reversed, absent channels and a missing bias zero |
| `Polyphase.Poly.Kernel` | scripts/bench56.cpp:133-139 | what run relies on from the direct kernel: a chunk's products added to the bias or to what is there |
| `Polyphase.Poly.Chunks` | scripts/bench56.cpp:120-140 | after the last chunk the scratch holds the full sums, the bias in once |
| `Polyphase.Poly.Block` | scripts/bench56.cpp:117-148 | a block of positions stores its outputs, each once |
| `Polyphase.Poly.Run` | scripts/bench56.cpp:111-150 | every output is stored exactly once and is the scatter definition's |
| `Depthwise.BuildPairs` | scripts/bench43.cpp:246-257 | E and O hold the even- and odd-aligned int16 pairs of the padded byte row |
| `Depthwise.FourAtStride1` | scripts/bench43.cpp:179-200 | four outputs through the unrolled swap of (e0, o0) and (e1, o1) are four plain SMLAD chains |
| `Depthwise.FourAtStride2` | scripts/bench43.cpp:205-222 | the renamed window at stride 2 is four plain chains |
| `Depthwise.RequantExact` | scripts/bench43.cpp:160-173 | int32 SMMULR, rounding shift and SSAT equal the int64 reference for every int32 accumulator, multiplier in [0, 2^31) and shift in 1..31 |
| `Depthwise.RequantIs` | scripts/bench43.cpp:169-173 | that reference is the int8 nearest to v + zp, v being h over 2^sh rounded and h the product over 2^32 rounded, each given by its inequalities |
| `Depthwise.OutputsIff` | scripts/bench43.cpp:50 | output t of a row exists if and only if its window lies in the padded row |
| `Depthwise.DwRow` | scripts/bench43.cpp:175-234 | every output of a row, blocks of four and remainder |
| `Depthwise.ZeroPointFolds` | scripts/bench43.cpp:242 | padding with the zero point and starting from -zp sum(w) is subtracting it from every tap |
| `Depthwise.AccIsTapSum` | scripts/bench43.cpp:152-154 | the SMLAD chain is the tap sum wrapped once, the zero-padded odd tap adding nothing |
| `Depthwise.SumFits` | scripts/bench43.cpp:264-273 | the sum of n taps is within 32640 n, and an int32 with at most 65793 taps |
| `Depthwise.OutputIsRef` | scripts/bench43.cpp:227-233 | what the packed kernel stores is what the reference computes |
| `Depthwise.DwI8` | scripts/bench43.cpp:236-275 | every output of every channel equals the reference at strides 1 and 2: the taps inside the input around position t s, requantized to the nearest int8 |
| `DepthwiseF32.EightOutputs` | scripts/bench43.cpp:97-122 | eight outputs through the renamed window are eight plain sums in tap order |
| `DepthwiseF32.DwF32Row` | scripts/bench43.cpp:91-140 | every output of a row is the plain ordered sum |
| `Int8Gemm.XRangeSafe` | scripts/bench58.c:101-106 | K products at the ends of their ranges fit int32, and the range fits int16 |
| `Int8Gemm.XRangeWidest` | scripts/bench58.c:101-106 | no wider range up to the int16 cap would |
| `Int8Gemm.QuantizedInRange` | scripts/bench60.cpp:104-112 | every quantized activation lies in [-R, R], an all-zero column included |
| `Int8Gemm.AbsMaxIsPeak` | scripts/bench60.cpp:104-106 | the scale comes from the largest magnitude, which some element has |
| `Int8Gemm.QuantizedNearest` | scripts/bench60.cpp:104-112 | a quantized activation is a nearest integer to x R / m, m the largest magnitude, the even one where two are as near |
| `Int8Gemm.ProductNear` | scripts/bench60.cpp:194 | an output differs from the product of the weights and the activations themselves by at most half a quantum m / R for every unit of weight |
| `Int8Gemm.DotFits` | scripts/bench58.c:99-106 | where each row's magnitudes times the range fit int32, every prefix of its dot product with activations in the range does |
| `Int8Gemm.OverflowIff` | scripts/bench58.c:99-106 | a weight row never overflows, at any prefix against any activations in [-R, R], if and only if the sum of its magnitudes times R is at most 2^31 - 1 |
| `Int8Gemm.Int8RowsIff` | scripts/bench58.c:99-106 | no row of K int8 weights does if and only if 128 K R is at most 2^31 - 1 |
| `Int8Gemm.QuantizeTile` | scripts/bench60.cpp:104-112 | a column's int16 pairs in k order in its half of the column pair, the other columns kept, and its scale |
| `Int8Gemm.UnpackWord` | scripts/bench60.cpp:148-150 | (b0, b2), (b1, b3) become (b0, b1), (b2, b3) |
| `Int8Gemm.Unpack` | scripts/bench60.cpp:141-154 | a group's int8 weights of a chunk as int16 pairs in k order |
| `Int8Gemm.SmladAdvances` | scripts/bench60.cpp:181-182 | one SMLAD on neighbouring positions advances the unbounded dot product by two |
| `Int8Gemm.TilePairs` | scripts/bench60.cpp:181-182 | what the driver relies on from the tile: eight accumulators advanced by n pairs |
| `Int8Gemm.QuadChunk` | scripts/bench60.cpp:180-183 | 128 pairs at a time, then 16, cover a chunk |
| `Int8Gemm.QuantizeColumns` | scripts/bench60.cpp:159-163 | every column, and zeros beside an odd last one |
| `Int8Gemm.AccumulateBlock` | scripts/bench60.cpp:171-185 | a block's accumulators reach K whatever the chunk, unpacked once or per chunk |
| `Int8Gemm.GemmTile` | scripts/bench60.cpp:156-197 | every output is the integer dot product of weight row and quantized column, scaled once, and so that near the real dot product |
| `Int8Gemv.QuantizeX` | scripts/bench59.cpp:75-88 | activations packed (x0, x2), (x1, x3) |
| `Int8Gemv.PairFits` | scripts/bench58.c:101-106 | two later products on a prefix, in any pairing, stay inside int32 |
| `Int8Gemv.WordStep` | scripts/bench58.c:63-66 | the two SMLADs of a weight word add four products, neither wrapping, on rows that fit |
| `Int8Gemv.WordWraps` | scripts/bench58.c:63-66 | on any int8 weights they add the four products modulo 2^32 |
| `Int8Gemv.Gemv4` | scripts/bench58.c:54-71 | one k-word a pass, any int8 weights: four dot products modulo 2^32, and the dot products themselves where the rows fit |
| `Int8Gemv.Gemv4U2` | scripts/bench58.c:74-98 | two k-words a pass: the same |
| `Int8Gemv.GemvI8` | scripts/bench58.c:131-139 | every output of the product with one column, for any int8 weights: the integer sum modulo 2^32, scaled once, which is the integer product if and only if that sum is an int32 (a zero scale apart), as it is for rows that fit the range, and then as near the real dot product as ProductNear says |
| `Int8Gemv.PassWidest` | scripts/bench59.cpp:93-94 | a pass holds as many rows or columns as its cache budget, or one |
| `Int8Gemv.GemmI8` | scripts/bench59.cpp:91-113 | the same of every output of the blocked product, for any int8 weights and any block budgets |
| `Int8Gemv.RowsFitWhen` | scripts/bench58.c:99-106 | on the range for 127 every row without -128 fits, and so does every int8 row with K up to 512 |
| `Int8Gemv.Range127Iff` | scripts/bench58.c:99-106 | on that range no row of int8 weights overflows if and only if 128 K times the range is at most 2^31 - 1, which fails at K = 1024 |
| `NibbleDot.HalvesAreParts` | scripts/bench23.c:35-41 | byte columns hold weights j and j + 16: the two running sums together are the block's dot product |
| `NibbleDot.HighByte` | scripts/bench23.c:62 | shift and mask leave every byte's high nibble |
| `NibbleDot.UnpackWeights` | scripts/bench29.c:31-37 | eight nibbles less eight, two to a word |
| `NibbleDot.UnpackActs` | scripts/bench29.c:38-41 | eight activations, two to a word |
| `NibbleDot.MacAdvances` | scripts/bench29.c:42-44 | four SMLADs advance the block sum by four byte columns without wrapping |
| `NibbleDot.BiasHoists` | scripts/bench24.c:32-43 | leaving the bias in adds eight times the activations' sum |
| `NibbleDot.BlockGeneric` | scripts/bench23.c:35-41 | the scalar loop computes the block's dot product |
| `NibbleDot.BlockSmlad` | scripts/bench23.c:55-68 | the packed loop computes the same |
| `NibbleDot.BlockHoisted` | scripts/bench24.c:33-43 | the hoisted loop computes the same |
| `NibbleDot.DotGeneric` | scripts/bench23.c:32-45 | the float sum over blocks, in block order |
| `NibbleDot.DotSmlad` | scripts/bench23.c:50-72 | the same float |
| `NibbleDot.TotalFits` | scripts/bench24.c:45-50 | the int32 total over blocks does not overflow below 2^15 blocks |
| `NibbleDot.DotHoisted` | scripts/bench24.c:49-50 | the hoisted int32 total is the plain one, and below 2^15 blocks the integer one |
| `NibbleDot.GemmB11` | scripts/bench29.c:49-58 | every output is the ordered float sum |
| `NibbleDot.GemmB22` | scripts/bench29.c:60-78 | the 2 by 2 tile gives the same |
| `NibbleDot.GemmA14` | scripts/bench29.c:80-97 | the other loop order, four columns at a time, gives the same |
| `JobCounter.StepKeeps` | scripts/bench7.cpp:181-184 | each test, job or fetch-and-add of any thread keeps the invariant |
| `JobCounter.AtMostOnce` | scripts/bench7.cpp:181-184 | in every interleaving no job is run twice and no two threads are on one job |
| `JobCounter.ExactlyOnce` | scripts/bench7.cpp:181-196 | when every thread has returned every job was run exactly once |
| `JobCounter.NeverStuck` | scripts/bench7.cpp:181-184 | until then some thread can step |
| `JobCounter.RunsEnd` | scripts/bench7.cpp:181-196 | every interleaving ends within three steps a job and two a thread |
| `JobCounter.FinishedOrder` | scripts/bench7.cpp:181-196 | in a finished interleaving the jobs, in the order they were run, are each job once |
| `ColumnTiles.WalkCoversIff` | scripts/bench7.cpp:157-164 | the uneven split covers [0, N) exactly if and only if ceil(N / RN) (RN - 1) <= N, and overruns N otherwise |
| `ColumnTiles.TwoCoinBound` | scripts/bench7.cpp:157-164 | that holds for every N from (RN - 1)(RN - 2) on |
| `ColumnTiles.TwoCoinSharp` | scripts/bench7.cpp:157-164 | and fails one below |
| `ColumnTiles.Bloc` | scripts/bench7.cpp:90-112 | a tile stores the lane-wise chains' sums of its rows and columns, either loop nest |
| `ColumnTiles.OutIsDot` | scripts/bench7.cpp:93-111 | in exact arithmetic an output is the sum over k of A(m, k) B(n, k) |
| `ColumnTiles.RowTiles` | scripts/bench7.cpp:160-165 | all columns of a row block, each once |
| `ColumnTiles.Job` | scripts/bench7.cpp:184-191 | a job stores exactly its rows |
| `ColumnTiles.Jobs` | scripts/bench7.cpp:177-197 | jobs in any order: each output is stored as often as its job is run, with the product's value |
| `ColumnTiles.RunJobs` | scripts/bench7.cpp:177-197 | every finished interleaving of the counter's threads stores each output of the whole row blocks exactly once, with the product's value, and no other; all of them when RM BM divides M |
| `ShortVec.Lint` | scripts/armv6_shortvec.py:77-129 | accepts, or reports the first line with a fault or the end inside a region, a line being inside when an enter precedes it with no leave since |
| `ShortVec.ExitsIff` | scripts/armv6_shortvec.py:49 | the ways out the checker knows are bl, blx, bx, svc or swi, then two more word characters or none, then a dotted suffix or none |
| `ShortVec.SizeLineIff` | scripts/armv6_shortvec.py:103-108 | a line ends a function for the checker if and only if it reads, after white space, .size, white space and a name |
| `ShortVec.EndInside` | scripts/armv6_shortvec.py:103-106 | such a line between the marks is reported, at that line |
| `ShortVec.CheckedIff` | scripts/armv6_shortvec.py:86-116 | the lines checked as instructions are those that are no mark, not empty before a comment, start with no dot and end with no colon |
| `ShortVec.LabelLine` | scripts/armv6_shortvec.py:109-112 | a name and a colon is a label, a number and a colon is passed over |
| `ShortVec.RegionsAlternate` | scripts/armv6_shortvec.py:86-102 | in an accepted listing every enter is followed by its leave before another enter and before a function ends |
| `ShortVec.LeavesMatch` | scripts/armv6_shortvec.py:91-95 | every leave closes a region one enter opened |
| `ShortVecMode.ConsecutiveIff` | scripts/armv6_shortvec.py:13-17 | the vector at a register is the next four registers if and only if it does not reach its bank's end |
| `ShortVecMode.VectorAt14` | scripts/armv6_shortvec.py:14-16 | at LEN 4 the vector at s14 is s14, s15, s8, s9 |
| `ShortVecMode.NumbersFaultIff` | scripts/armv6_shortvec.py:57-74 | an operand list is accepted if and only if every vector operand, a ring's Sn excepted, is four consecutive registers under the bank rule |
| `ShortVecMode.VectorLineReads` | scripts/armv6_shortvec.py:111-112 | a generated vector line reads back as its op, operands and ring mark |
| `ShortVecMode.VectorLineChecked` | scripts/armv6_shortvec.py:122-127 | such a line, as text, is accepted inside a region if and only if its vectors stay consecutive |
| `ShortVecTokens.OperandsTokens` | scripts/armv6_shortvec.py:53-54 | the checker's operands, read as tokens, are the segments between the commas |
| `ShortVecTokens.MentionsToken` | scripts/armv6_shortvec.py:118 | its search for pc as a word finds pc if and only if it is one of the tokens |
| `ShortVecText.Spaces` | scripts/armv6_shortvec.py:53-54 | the white space the text operations strip |
| `ShortVecText.Letters` | scripts/armv6_shortvec.py:116 | the letters they lower, each to its own, and the characters of a word |
| `ShortVecInsn.ListLoads` | scripts/armv6_shortvec.py:118 | a register list loads pc if and only if one of its names is pc or r15, in either case |
| `ShortVecInsn.LocalBranch` | scripts/armv6_shortvec.py:13-15 | a branch to a numbered label is safe, one to a name is a way out |
| `ShortVecInsn.ModeAndCondition` | scripts/armv6_shortvec.py:118 | a block load may carry its mode and its condition in either order |
| `ShortVecInsn.PopText` | scripts/armv6_shortvec.py:117-119 | as text: pop { r4 - r6 , pc } is the list of r4 to r6 and pc |
| `ShortVecInsn.MoveText` | scripts/armv6_shortvec.py:122-125 | as text: vmov d8 , D9 is the untyped double-precision move |
| `ShortVecInsn.SpelledReads` | scripts/armv6_shortvec.py:107-112 | a line that is one instruction with no label, in any case, spacing and comment, reads as its mnemonic and an operand text of its tokens |
| `ShortVecInsn.RenderedSpells` | scripts/armv6_shortvec.py:111-112 | every instruction can be written as such a line |
| `ShortVecInsn.RejectedIff` | scripts/armv6_shortvec.py:107-127 | inside a region such a line, of one statement and no label, is rejected if and only if what the instruction does is unsafe there and its spelling is one the checker knows |
| `ShortVecRuns.ModeBits` | scripts/armv6_shortvec.py:21-43 | entering sets LEN 4 and STRIDE 1, leaving clears both, and no other bit changes |
| `ShortVecRuns.FlagsSurvive` | scripts/armv6_shortvec.py:8-10 | exception flags raised inside a region survive its end and nothing else differs from before it |
| `ShortVecRuns.ListedLines` | scripts/armv6_shortvec.py:77-81 | the checker reads an emitted listing line for line |
| `ShortVecRuns.WithinIsInside` | scripts/armv6_shortvec.py:30-43 | the checker's regions are those between the emitted sequences |
| `ShortVecRuns.ModeTracksIff` | scripts/armv6_shortvec.py:30-43 | on every run, branches into the middle of lines included, and every machine behaviour LEN is 4 and STRIDE 1 exactly within regions, if and only if no statement of the generator's own writes the FPSCR: by vmsr, fmxr or mcr, after a label or not, or as a statement outside the model said to |
| `ShortVecRuns.AcceptedSafeIff` | scripts/armv6_shortvec.py:12-18 | in an accepted listing every call, return, branch to a name, pc write, FPSCR write, double-precision operation and wrapping vector, in any statement of its line and after any label, and every function end and the end of file meets the mode off on every run, if and only if each such instruction in a region is alone on its line, unlabelled, and spelled in a way the checker knows, and no statement there outside the model does any of these |
| `ShortVecRuns.UnseenIsAccepted` | scripts/armv6_shortvec.py:77-129 | every unsafe instruction in any other spelling is accepted inside a region and runs there with the mode on |
| `ShortVecRuns.LabelledIsAccepted` | scripts/armv6_shortvec.py:100-119 | so is every unsafe instruction after a label, whose name the checker takes for the mnemonic, unless that begins with pop or ldm |
| `ShortVecRuns.SecondIsAccepted` | scripts/armv6_shortvec.py:107-119 | so is every unsafe instruction as the second statement of a line, after an addition |
| `ShortVecRuns.HiddenCalls` | scripts/armv6_shortvec.py:105-119 | as text: 1: bl f, and add r0, r1; bl f, inside a region are accepted |
| `ShortVecRuns.UnseenPc` | scripts/armv6_shortvec.py:117-119 | r15, and PC in capitals, as a destination |
| `ShortVecRuns.UnseenList` | scripts/armv6_shortvec.py:117-119 | r15 in a register list, alone or at the end of a range |
| `ShortVecRuns.UnseenWrites` | scripts/armv6_shortvec.py:120-121 | the FPSCR written by fmxr, by mcr with c1, c0 or cr1, cr0 and its last operand or none, or by vmsr on a condition |
| `ShortVecRuns.UnseenVectors` | scripts/armv6_shortvec.py:122-127 | a wrapping vector in capitals, on a condition, or by its older name |
| `ShortVecRuns.UnseenDouble` | scripts/armv6_shortvec.py:122-125 | a double-precision move without its type |
| `ShortVecRuns.UnseenExits` | scripts/armv6_shortvec.py:49 | bxj, and a plain branch to a name |
| `ShortVecRuns.UnseenReturn` | scripts/armv6_shortvec.py:117-119 | as text: mov r15, r14 inside a region is accepted |
| `ShortVecRuns.SecondStatement` | scripts/armv6_shortvec.py:107-121 | nothing after the first operand of an addition is looked at, so a second statement is not |
| `ShortVecListing.Listing.Emit` | scripts/armv6_shortvec.py:80-81 | a chunk of one line or more adds its lines to what the checker will read |
| `ShortVecListing.Listing.Enter` | scripts/armv6_shortvec.py:31-36 | what enter appends, read from its text and run on any machine state with any register, turns the mode on and changes nothing else of the FPSCR, and leaves the checker inside a region |
| `ShortVecListing.Listing.Leave` | scripts/armv6_shortvec.py:39-43 | what leave appends, read likewise, turns the mode off, changes nothing else of the FPSCR, and leaves the checker outside |
| `ShortVecListing.Listing.Check` | scripts/armv6_shortvec.py:77-129 | a generator's own check accepts exactly the clean listings, and an accepted one runs safely, whatever the other statements do, if and only if its unsafe instructions in regions are alone on their lines in known spellings and those others are harmless |
| `Simd32.SxtbOfWord` | scripts/bench60.cpp:80-81 | SXTB16 of a word and of the word rotated by eight give its four signed bytes in pairs |
| `Simd32.WrapAdd` | scripts/bench43.cpp:183-194 | a sum wrapped at every step is the sum wrapped once |

## Left out

- Timing, medians, printing, file reading and the `main` drivers; the ggml and onnxruntime arms the drivers compare with.
- Rounding error: where reals or one multiply-accumulate stand for floats, how far the float result is from them.
- Sines and cosines: twiddles are powers of an abstract root with w(0) = 1, w(a + b) = w(a) w(b), w(m) = -1 and conjugate symmetry. `Complex.DoubledRoot` builds the next size from real square roots, whose existence is not derived.
- Flat addressing: tensors are arrays of two to five dimensions, or functions where they are only read; strides and row widths appear as dimensions.
- Memory ordering, caches and prefetch: atomics are sequentially consistent.
- Stft.IstftOp: the division 0 / 0 of a sample no window reaches is the value NotANumber; the source stores a float NaN.
- PackedGemm.ComputeBlock: the branch that calls XNNPACK's assembly kernel is not modelled (that kernel is not part of this model); its panel layout with the leading zero line is.
- SpinBarrier.NeverStuck: says some operation changes the state, not that a fair scheduler runs it.
- WorkerPool.RunInv: the generation number is unbounded; the source's int would overflow after 2^31 runs.
- ResblockChain.ChainAllThreads: assumes multiplying by a padding zero adds nothing, since the fused path multiplies by zeros the definition skips; asks for C a multiple of 4, which the tile loop needs, and for the reads to fit.
- ResblockChain.ConvA: the packed weights are taken as a function of channel and tap; `pack_weights`, `pad_copy` and the unfused `sweep` of the same file are not modelled, `DirectSweep` covering their like.
- DirectSweep.Sweep: threads of a phase run one after another, in any order; that they cannot interfere is in the per-thread contracts. Asks for at least one tile of positions, without which the clamped tile would start before the row. Which of the two activations a staged element got is in StageRow's contract, not in this one.
- PhaseConv.PhaseMajorConv: parallel loops over channels run in order; `conv1d_direct` and the variant without the padded copy are not modelled.
- Polyphase.Poly.Kernel: stands for the assembly `ggml_armv6_conv_f32_k*` by the contract `run` relies on; which tap counts have such a kernel is not modelled.
- Depthwise.RequantExact: multipliers outside [0, 2^31) and shifts outside 1..31, which the shift expressions do not define.
- Depthwise.DwI8: how the driver derives scales, multipliers and shifts from float weights.
- Int8Gemm.TilePairs: stands for the assembly `ggml_armv6_i8_tile_p*`, whose text is in a patch, by the contract the driver relies on.
- Int8Gemm.GemmTile: activations and scales are reals, so the rounding of x * inv and of the final products is not modelled; asks for 128 K < 2^31, beyond which the range is zero and the scale divides by it.
- Int8Gemm.AbsMax: NaN activations, which fmax passes over.
- NibbleDot.DotSmlad: the half-precision scales are taken as floats already converted.
- ColumnTiles.Jobs: asks for K a multiple of four, the step the lanes take; rows outside whole row blocks (M not a multiple of RM BM) are not stored by the source.
- ColumnTiles.RunJobs: a job is one step of its thread; jobs that overlap in time store disjoint rows (`ColumnTiles.Job`).
- JobCounter.RunsEnd: thread creation and joining are not modelled.
- ShortVec.Lint: text is ASCII; the wording of messages, with the function name it tracks for them, is not modelled.
- ShortVecRuns.AcceptedSafeIff: a branch to a numbered label is taken to stay in its region, a branch to a name to leave the function; condition codes are not executed, an instruction on a condition counts as run. A statement that is none of the instructions of `ShortVecInsn` (a directive, a macro call, a register under a name the listing gave it) does what the parameter `Other` says. Comments are those after `@`; a line whose code has a string, a slash or a leading `#` is taken whole as such a statement, and a comment over several lines is not modelled. Outside the regions a generator's own FPSCR writes are taken to keep LEN and STRIDE.
- ShortVecListing.Listing.Enter: what the emitted text does is stated for a register given as a name; any other text is emitted as it is given.
- ShortVecInsn.RejectedIff: speaks of lines of one statement and no label; for the others `AcceptedSafeIff` counts their unsafe statements whatever the checker says of them. The instructions are calls, returns, supervisor calls and branches, data processing and loads by their destination, ldm and pop, the three FPSCR writes, and the vector operations; others, such as a store or a comparison whose first operand is pc, which the checker rejects though it writes nothing, are not modelled.
- The register-tile variants of `bench30` to `bench42` and `bench16`, the gathers of `bench39` and `bench41`, and `bench6`'s and `bench7`'s hand-named tiles, which would add easier copies of the results here.
