# Verified model of the native signal path

This project models the streaming machines between the capture hardware and the
wire of a software-defined radio backend, and proves that each of them computes
what a simple whole-stream definition says, however its input is cut into packets
and however its threads are scheduled. `dafny verify dfyconfig.toml` checks all of it.

What is modelled, in the order of the signal:

- **Capture owner** (`IqsOwner`). The thread that owns the vendor handle fetches,
  numbers and tags packets, holds one while the bounded queue is full, and serves
  control requests in between; a consumer receives. Every interleaving is a run of
  atomic steps. The event ring is an array written in place.
- **Vendor session** (`San90Session`, `RtaCapture`). A dispatcher with one operation
  in flight and a device-handle life cycle that has to survive any status the vendor
  returns; and the packet counting of a finite level-triggered capture.
- **Polyphase filter bank** (`Channelizer`, `Layouts`, `Pfb`). Two ring layouts of one
  history, two kernels, an inverse transform taken as its defining sum, and the
  identity that makes the three of them a direct windowed mixer.
- **Parallel pool** (`PfbPool`). Four workers process packets out of order, each on a
  copy of the filter bank state that is cloned or rebuilt from a tail; a reorder
  buffer delivers them in order. The main result is that `Take` returns what one
  serial filter bank gives, packet by packet, for every schedule.
- **Decimation** (`Fir`, `Oscillator`, `Narrow`, `RatePlan`, `ChannelOpen`). The
  oscillator, doubled ring histories, multistage cascades, the fused two-stage filter,
  the search for a decimation and the opening of channels.
- **Resampling** (`Rational`, `ClockRate`). A rational output clock with a closed-form
  output count and a closed-form causal input index, and the exact ratio of a
  binary64 rate to an integer rate.
- **Clocks and windows** (`SamplePosition`, `FineChannel`, `FineBank`, `Ft8Window`,
  `Ft8Receiver`, `Ft8Runs`). Raw-sample coordinates through filter bank, fine
  decimation and adapter; channel admission and lockstep delivery; the cutter of
  overlapping FT8 windows, the receiver that feeds it, and two runs in which it fails.
- **The whole path** (`SignalPath`, `BankPath`). Pool outputs, column choice, fine kernel
  and clock composed into one statement about the raw capture stream, for one channel
  and for a whole bank across changes of the bin selection.
- **Wire** (`Wire`, `Framer`). The coalescing framer and the byte layout of its frames.
- **Timings** (`Timing`). A log2 histogram against true order statistics.

`Arith` and `Complex` hold the number theory and the finite sums that these need.

## How to read the model

Classes keep the fields of the program's objects; a ghost parameter or ghost field
holds the whole stream, log or run so far, and a predicate (`After`, `Valid`, `Ok`)
says what the concrete fields must be for it. Nearly every method takes a state that
is right for the stream `x` to one that is right for `x` plus its input, so a run of
any length is covered by composing calls; `AnyRun` methods do that for machines whose
steps are chosen by a scheduler.

- Sample and coefficient values are reals and arithmetic on them is exact. A pair of
  real and imaginary arrays is one array of pairs.
- Masks and shifts by a power of two are remainders and quotients. 64-bit wrap-around
  is written out where the program relies on it (rebuilding a history at an index
  below its length); 64-bit and 128-bit overflow errors are modelled as such.
- Binary64 rates are their sign, exponent and fraction (`F64`), and binary32 payload
  values are their 32 bits, so that exactness claims are about real encodings.
- Vendor statuses, timeouts, thread scheduling, consumer failures and slow calls are
  nondeterministic or parameters.

Where code and comments could be read differently, the code is followed: a full-queue
record carries the zero-based number of its packet, while packets are numbered from
one; and `finish` treats a -110 that the vendor returns from closing like the refusal
for an active mode, so the session then stays open.

Four promises do not hold of the code in every case; the model keeps the code, shows an
input for each and proves exactly when they hold.

- One spectrum frame per interval, whatever the decimation: holds exactly while a
  packet is no longer than an interval (`FramesAreIntervals`,
  `SlowPacketsMissIntervals`).
- A valid real-time capture has buffers for its geometry, and a level capture an
  accumulator as wide as its frame. After a reconfiguration that ends with an exception
  (status -101) this holds exactly when the state survives: the geometry is replaced
  first, and the buffers may not follow (`RtaDevice.Reconfigure`, `LosesAccumulator`,
  `OutgrowsTrace`). After one that returns, it holds exactly when new buffers cover the
  geometry in force: a rollback does not check what the vendor reports, and the trace
  size is computed in 32 bits (`OutgrowsRollback`). `Next` therefore asks for a
  consistent state: a caller closes the capture after -101 unless `CertainlySurvives`
  holds, and after a rollback unless the reported geometry is `Allotted`.
- An FT8 job reports the position of its first sample: after a retune of a receiver
  that has already converted samples, exactly when `PlacedTruly` says so
  (`RetunedRun`).
- Every FT8 message lies inside some job: the cutter moves on before the job is given
  its position, so a job is lost exactly when that position does not fit or a later step
  of the same call fails (`Receiver.Process`, `LosesFirstJob`).

## Model

| member | source | states |
|---|---|---|
| `Channelizer.PolyphaseIsMixer` | backend/src/pfb.rs:131-151 | For every m-th root of one W and every m, taps and input: branch sums, then inverse transform, then rotation by W^(-kt) equal the direct windowed mixer, the sum over all lags of h[lag]·x[t-lag]·W^(-k(t-lag)) |
| `Channelizer.MixerDemodulates` | backend/src/pfb.rs:335-343 | The output of bin k at instant t, turned up again by W^(kt), is the sum over all lags of h[lag]·x[t-lag]·W^(k·lag): the input filtered around bin k and moved down from it, by powers of W with non-negative exponents only |
| `Channelizer.ToneIsTotal` | backend/src/pfb.rs:335-343 | A unit tone of bin k, W^(kn) at sample n, gives in bin k the sum of the prototype and no imaginary part, at every instant with a full window |
| `Complex.TwiddleBack` | backend/src/pfb.rs:66-74 | The rotation by a negative exponent undoes that power of W |
| `Complex.TwiddleIsPow` | backend/src/pfb.rs:66-74 | The rotation by a non-negative exponent is that power of W |
| `Channelizer.PhaseCycle` | backend/src/pfb.rs:66-74 | The table entry of group number mod oversample is the rotation at the true instant (group+1)·hop-1, for every group and every oversample factor |
| `Channelizer.MixerStable` | backend/src/pfb.rs:316-343 | Input that arrives after an output instant never changes that output |
| `Channelizer.NewGeometryValid` | backend/src/pfb.rs:54-63 | A geometry exists exactly for oversample 1, 2, 4 with 4, 8 or 16 taps, and it always has power-of-two sizes with m = hop·oversample, so that the masks are remainders |
| `Channelizer.SlotInjective` | backend/src/pfb.rs:250-256 | Two samples less than one history length apart never share a cell of the row layout |
| `Layouts.RowExtend` | backend/src/pfb.rs:250-281 | A chunk written inside one row of descending branches, into both copies, extends "the last L samples are in their cells" from x to x + chunk |
| `Layouts.RowRead` | backend/src/pfb.rs:170-197 | The cell a lane reads for tap j of branch r is the sample with absolute index t-r-(taps-1-j)·m, zero before the start, and it is inside the array |
| `Layouts.BranchExtend` | backend/src/pfb.rs:299-308 | One sample stored at both ring cells of its branch extends the branch layout from x to x + [sample] |
| `Layouts.BranchRead` | backend/src/pfb.rs:131-137 | The ring window that the scalar kernel reads for branch r and tap j is the same absolute sample t-r-(taps-1-j)·m |
| `Layouts.BranchLoaded` | backend/src/pfb.rs:232-241 | A tail of L samples stored by (branch, row) at any input index gives exactly the branch layout of a stream that ended there |
| `Pfb.PhaseOrder` | backend/src/pfb.rs:76-81 | The branch-major table holds prototype coefficient r + (taps-1-j)·m at branch r, tap j |
| `Pfb.GroupOrder` | backend/src/pfb.rs:82-90 | The eight-lane table holds the same coefficients, by the same prototype index |
| `Pfb.PhaseTable` | backend/src/pfb.rs:66-74 | The rotation table has oversample rows, row q holding the rotation of every bin at instant hop-1+q·hop |
| `Pfb.NewDesign` | backend/src/pfb.rs:76-129 | The tables of a bank agree with one prototype, and the grouped kernel is chosen exactly for kernel 1 with AVX2 and a hop of at least eight |
| `Pfb.Pfb.constructor` | backend/src/pfb.rs:101-124 | A new bank is the bank after the empty stream, in both layouts |
| `Pfb.Pfb.Clone` | backend/src/pfb_pool.rs:362 | A clone has the same state value and no storage in common with its original |
| `Pfb.Pfb.WriteHistoryRow` | backend/src/pfb.rs:250-281 | Vector and scalar stores together write exactly the chunk, into its row, in both copies |
| `Pfb.Pfb.LoadHistory` | backend/src/pfb.rs:213-246 | From a tail that equals the last L samples before the index, the object becomes the bank after the whole stream, whatever it held before; a tail of any other length is refused and changes nothing |
| `Pfb.Pfb.FirBankBaseline` | backend/src/pfb.rs:131-151 | The scalar kernel fills the buffer with every branch sum of the stream |
| `Pfb.Pfb.LaneDots` | backend/src/pfb.rs:171-197 | The eight accumulators, with taps j and j+8 fused for sixteen taps, are the branch sums of their eight branches |
| `Pfb.Pfb.FirBankGrouped` | backend/src/pfb.rs:166-204 | The eight-lane kernel fills the buffer with the same branch sums as the scalar kernel |
| `Pfb.Pfb.WriteColumns` | backend/src/pfb.rs:335-343 | Each selected bin is written to its own column as the mixer value at the group instant; nothing else is written |
| `Pfb.Pfb.Process` | backend/src/pfb.rs:283-357 | From the bank after x, any packet gives the bank after x + packet and exactly the groups completed inside it, each column being the direct mixer of the whole stream: the input filtered around its bin and moved down from it, hence the sum of the prototype for a unit tone of the bin |
| `Pfb.BankDemodulates` | backend/src/pfb.rs:335-343 | In every column of every group stands the input around the bin of that column, moved down from it, as it is when the group is complete |
| `Pfb.GroupCountBound` | backend/src/pfb.rs:290-316 | A packet of n samples completes (phase + n) / hop groups, at most n / hop + 1 |
| `PfbPool.Open` | backend/src/pfb_pool.rs:201-236 | A pool exists exactly for AVX2, a known strategy, a non-empty in-range selection (distinct when samples are emitted) and 1 to 65536 samples a packet, and starts empty |
| `PfbPool.PfbBenchPool.Submit` | backend/src/pfb_pool.rs:341-409 | -1 exactly for a stopped pool, a wrong sequence or an unusable size, then nothing at all changes; -2 only with three undrained outputs, and then clock, history, selection, log and sequence are unchanged; otherwise the packet is logged with the current selection. With fewer than three ready and at most two outstanding packets a well-formed packet is always accepted |
| `PfbPool.PfbBenchPool.Take` | backend/src/pfb_pool.rs:521-532 | The k-th output taken, under every schedule, is what one serial filter bank gives for packet k: sequence, stamp, input index, group count and samples. With samples emitted, each column is the whole input so far around its bin, moved down from it; a unit tone of the bin gives the sum of the prototype |
| `PfbPool.PfbBenchPool.QueuesStayBounded` | backend/src/pfb_pool.rs:350-358 | In every reachable state each outstanding packet is in flight or pending and there are at most 3 of them, ready plus outstanding is at most 5, both channels stay below their capacity so no send blocks, and a packet missing from the output is still being worked on |
| `PfbPool.SerialRun` | backend/src/pfb.rs:283-357 | The reference: one filter bank run over the logged packets produces exactly those results |
| `PfbPool.SerialFilters` | backend/src/pfb.rs:283-357 | The serial result of packet i has its number, stamp, start and exact group count, and every column is the input around its bin, moved down from it |
| `PfbPool.PacketsDoNotShow` | backend/src/pfb.rs:290-316 | With one selection, the outputs of all packets end to end are the bank of the concatenated input: packet boundaries do not show |
| `PfbPool.PfbBenchPool.RunTask` | backend/src/pfb_pool.rs:248-272 | A worker that runs a task on its own copy of the state returns the serial result of that packet, and its output buffer is large enough |
| `PfbPool.PfbBenchPool.WorkerTake` | backend/src/pfb_pool.rs:246-250 | Any worker may take the oldest task at any time without breaking the pool invariant |
| `PfbPool.PfbBenchPool.WorkerFinish` | backend/src/pfb_pool.rs:254-275 | Workers may finish in any order; the result joins the queue and the invariant holds |
| `PfbPool.PfbBenchPool.AwaitResult` | backend/src/pfb_pool.rs:310 | A blocking receive with something in flight always ends with a result |
| `PfbPool.PfbBenchPool.ReceiveOne` | backend/src/pfb_pool.rs:307-339 | One receive lowers the in-flight count by one, appends to the ready outputs, keeps ready + outstanding, and leaves no deliverable packet pending |
| `PfbPool.PfbBenchPool.DeliverReady` | backend/src/pfb_pool.rs:329-334 | The reorder loop stops exactly when the next sequence is missing, having only appended to the ready outputs |
| `PfbPool.Received` | backend/src/pfb_pool.rs:325-327 | A received result is never already pending: the duplicate error cannot occur |
| `PfbPool.PfbBenchPool.ShiftTail` | backend/src/pfb_pool.rs:371-378 | The tail is the last L samples of the zero-padded stream, for packets shorter and longer than L |
| `PfbPool.PfbBenchPool.StartState` | backend/src/pfb_pool.rs:362-381 | Both strategies hand the worker the exact bank state after everything accepted so far |
| `PfbPool.PfbBenchPool.FlushPending` | backend/src/pfb_pool.rs:536-546 | Flushing always succeeds, empties the flight and the reorder buffer, and only appends to the ready outputs |
| `PfbPool.PfbBenchPool.Finish` | backend/src/pfb_pool.rs:420-436 | Finishing collects everything accepted, never fails, and stops the pool |
| `PfbPool.PfbBenchPool.ReplaceBins` | backend/src/pfb_pool.rs:471-494 | A selection is replaced exactly when it is distinct and in range and the running stream is drained; otherwise nothing changes |
| `PfbPool.PfbBenchPool.constructor` | backend/src/pfb_pool.rs:281-304 | A new pool satisfies the invariant with an empty log and a zero tail |
| `Fir.PushSample` | backend/src/narrow.rs:51-58 | Two stores into a doubled ring, at the ring position and one length behind it, turn the history of a stream into that of the stream with one more sample |
| `Fir.DotScalar` | backend/src/narrow.rs:84-91 | The scalar kernel at the ring position is the FIR output of the stream |
| `Fir.DotLanes` | backend/src/narrow.rs:67-82 | Eight lane accumulators added up are the same FIR output |
| `Fir.StageStep` | backend/src/narrow.rs:59-63 | One more input adds one output exactly when the phase wraps, and it is the FIR output at that instant |
| `Fir.StagePrefix` | backend/src/narrow.rs:51-64 | Outputs already produced are a prefix of those for any longer input |
| `Fir.Fuse` | backend/src/narrow.rs:237-244 | The nested loops build a filter, padded in front to a multiple of eight, that acts on every stream as all coefficient pairs of the two filters |
| `Fir.FusedIsCascade` | backend/src/narrow.rs:227-249 | The fused filter decimated by d gives, for every input, exactly the outputs of the two stages in sequence, at the same instants |
| `Oscillator.Mix` | backend/src/narrow.rs:433-454 | Sample n is multiplied by the exact n-th power of the step, and the renormalisation every 4096 samples changes nothing |
| `Oscillator.MixedNext` | backend/src/narrow.rs:433-454 | The next sample of a stream is rotated by the next power whatever packet it comes in: the phase survives packet cuts |
| `Oscillator.MixedByOne` | backend/src/narrow.rs:433-436 | At offset zero mixing changes nothing |
| `ChannelOpen.Geometry` | backend/src/narrow.rs:145-161 | Gives the largest first decimation, from the power of two near one megasample downwards, that divides the whole and leaves 2 to 24 for the second; fails exactly when there is none |
| `ChannelOpen.Open` | backend/src/narrow.rs:178-223 | Opens exactly for an offset inside the band and a decimation that splits, and then decimates by exactly the asked factor with two designed filters: twelve taps per first decimation in whole lanes, cut off at 0.40 over it, and 32 taps per second one, cut off at 0.49 over it |
| `ChannelOpen.OpenCoarse` | backend/src/narrow.rs:227-249 | Opens the fused form exactly when no first decimation is needed, from the designs of 16 taps at 0.40 and of 32 taps per decimation at 0.49 over it |
| `ChannelOpen.OpenPlanned` | backend/src/narrow.rs:253-283 | Opens exactly for a valid plan, an offset inside the band and a filter length for every stage of its fixed factors; the cascade of these stages and the final filter then decimates by exactly the planned factor, and every stage has the filter of its own rate, from the occupied edge to the first alias or the stopband |
| `ChannelOpen.PlansOpen` | backend/src/narrow.rs:257-270 | Every stage of every plan that the planner returns has a filter: stage outputs keep at least a quarter more than the occupied band, so no length reaches its limit |
| `Narrow.Decimator.Push` | backend/src/narrow.rs:51-64 | The streaming stage gives an output exactly at every factor-th input and continues the whole-stream filter-and-downsample map |
| `Narrow.ChainLength` | backend/src/narrow.rs:501-529 | A cascade emits floor(n / product of factors) outputs for n inputs |
| `Narrow.ChainPrefix` | backend/src/narrow.rs:501-529 | Splitting the stream changes no output of a cascade |
| `Narrow.Cascade.PushThrough` | backend/src/narrow.rs:513-522 | One sample through the stages, stopping where a stage holds it back, continues the composition of the whole-stream stage maps |
| `Narrow.Cascade.Process` | backend/src/narrow.rs:395-416 | -1 exactly for an oversized packet or too little room, then nothing changes; otherwise, for every packetization and offset, the cascade continues rotation followed by the composition of whole-stream stage maps, and emits exactly the counted outputs |
| `Narrow.Channel.Coarse` | backend/src/narrow.rs:227-249 | The fused channel has the meaning of the two-stage channel with a first decimation of one |
| `Narrow.Channel.Process` | backend/src/narrow.rs:369-391 | -1 exactly for an oversized packet or too little room, then nothing changes; otherwise, at every offset, rotation followed by the two-stage meaning continues, fused or not |
| `Narrow.TwoStagePrefix` | backend/src/narrow.rs:419-499 | Splitting the stream changes no output of the two-stage channel |
| `Narrow.RatioChannel.Process` | backend/src/narrow.rs:424-498 | With a rational adapter the channel continues the resampling of that meaning; it panics exactly when a packet that passed the size check gives more outputs than there is room for |
| `Narrow.ChannelQuantum` | backend/src/narrow.rs:127-140 | Returns the power of two up to 1024 that brings the rate between 0.8 and 1.25 MHz, and zero exactly when there is none |
| `Rational.EmittedExactly` | backend/src/rational.rs:202-208 | After n inputs output k has been emitted if and only if its causal input index is below n |
| `Rational.TargetIsCausal` | backend/src/rational.rs:205-207 | The comparison target computed from the split coordinate is the closed-form causal index |
| `Rational.LagInTable` | backend/src/rational.rs:209-215 | At emission the lag needs no negative intermediate result, and its phase row and the next one are always in the table |
| `Rational.CausalInputIndex` | backend/src/rational.rs:169-176 | Returns ceil((2k·down + (taps-1)·up) / (2·up)), and fails exactly when that does not fit 64 bits |
| `Rational.Rational.OutputFramesForInput` | backend/src/rational.rs:181-189 | The closed form equals the number of outputs the next call emits, saturated at the word size |
| `Rational.BlockOutputs` | backend/src/rational.rs:181-189 | k inputs give at most k·up/down + 1 outputs |
| `Rational.Rational.Interpolate` | backend/src/rational.rs:209-226 | Two table rows blended after filtering equal the stream filtered with the blended row of that output |
| `Rational.AffineIsExact` | backend/src/rational.rs:209-226 | Blending the two rows gives, for a table whose coefficients are affine in the phase, the coefficients at exactly the distance of the output behind its causal input, less than one sample |
| `Rational.Rational.EmitDue` | backend/src/rational.rs:204-234 | The loop after one input emits exactly the outputs that became due, in order, and leaves next_whole·up + next_remainder = produced·down with remainder below up |
| `Rational.Rational.Process` | backend/src/rational.rs:191-237 | For every packetization the outputs so far are the resampling of the whole stream; when every coefficient of the table is affine in the phase, each output has its coefficients at exactly its own place between the input samples |
| `Rational.ResamplePrefix` | backend/src/rational.rs:191-237 | Splitting the input changes no output |
| `RatePlan.SupportedDecimation` | backend/src/rate_plan.rs:79-86 | Accepts exactly the values 1 to 65536 without a prime factor above seven |
| `RatePlan.StageFactors` | backend/src/rate_plan.rs:89-100 | Succeeds exactly for the supported decimations; the factors are the fixed ones of that decimation, 2 to 8, and multiply to it |
| `RatePlan.FactorsMultiply` | backend/src/rate_plan.rs:89-100 | Taking 8, 7, 5, 4, 3 and 2 out of a supported decimation, each as often as it divides, leaves one |
| `RatePlan.Decimation` | backend/src/rate_plan.rs:33-41 | The search gives the largest supported decimation whose rate still covers the occupied bandwidth and both transitions, and fails exactly for a rate or bandwidth that is not positive or a bandwidth that does not fit the coarse rate |
| `RatePlan.NewPlan` | backend/src/rate_plan.rs:17-66 | A plan is valid for its rate and has that decimation and the transition of its mode; the request fails exactly for an unknown mode, an unusable rate or bandwidth, or a final filter that is too long, because every other validity condition holds by construction |
| `RatePlan.FilterTaps` | backend/src/rate_plan.rs:69-77 | A filter length is a multiple of eight between 8 and 65536 |
| `RatePlan.TapsSuffice` | backend/src/rate_plan.rs:69-77 | For a positive rate and increasing positive band edges a length exists exactly when the formula asks for at most 65535 taps; it is then the shortest multiple of eight that exceeds the demand by a tap |
| `RatePlan.CountTaps` | backend/src/rate_plan.rs:69-77 | The computed length is that length |
| `RatePlan.CheckPlan` | backend/src/rate_plan.rs:54-66 | The checks accept exactly the plans that are valid for the rate |
| `ClockRate.GcdLoop` | backend/src/rational.rs:28-33 | The Euclidean loop computes the greatest common divisor |
| `ClockRate.FromRates` | backend/src/rational.rs:43-87 | The result is output rate over the exact dyadic value of the binary64 rate, in lowest terms; it fails exactly for unusable rates or terms beyond the bound |
| `ClockRate.LowestIs` | backend/src/rational.rs:84-88 | A coprime pair with the right value is the value in lowest terms, so cancelling in steps loses nothing |
| `ClockRate.RateMeans` | backend/src/rational.rs:47-54 | Sign, exponent and fraction denote the binary64 number: 1.fraction times 2^(exponent-1023), or a subnormal one |
| `ClockRate.ClockRatio` | backend/src/receiver.rs:814-823 | Defined exactly for rates from 1 to 1e9, and then a coprime fraction of 64-bit terms with the exact value of the rate |
| `SamplePosition.TryPositionAt` | backend/src/receiver.rs:783-790 | Returns the exact capture coordinate with a proper fraction, and fails exactly when the rate is out of range or denominator or index do not fit |
| `SamplePosition.CheckedAdvance` | backend/src/receiver.rs:136-159 | Returns the exact advanced coordinate in lowest terms; fails exactly for unusable arguments, 128-bit overflow, or a result that does not fit 64-bit words |
| `SamplePosition.DecoderPosition` | backend/src/receiver.rs:791-813 | Behind an adapter: the exact coordinate of the causal input of that frame, in lowest terms; it fails exactly when that input or one of the products, the index or the reduced denominator is too wide; without an adapter: the plain position |
| `SamplePosition.PastEnd` | backend/src/receiver.rs:794-812 | When the capture clock is at least as fast as the IQ clock, an adapter input whose number lies past the end of the 64-bit counter from the origin on has no position |
| `SamplePosition.AdvanceComposes` | backend/src/receiver.rs:136-159 | Advancing by a and then by b is advancing by a + b |
| `SamplePosition.AdvanceIsPosition` | backend/src/receiver.rs:783-790 | Advancing a position equals positioning at the sum |
| `SamplePosition.ReducedUnique` | backend/src/receiver.rs:151-157 | Two reduced positions with the same value are equal |
| `Ft8Window.Ft8Window.Extract` | backend/src/receiver.rs:221-242 | At most one job per block, exactly when a hop (first) or a window (later) is buffered; each job is the true stream slice at its start with the exact position; failure exactly when that position does not fit; while blocks are short enough the buffer stays below the next job exactly as long as nothing fails |
| `Ft8Window.Ft8Window.Flush` | backend/src/receiver.rs:243-255 | After the flush every 12.64 s stretch of the pass lies wholly inside some emitted job |
| `Ft8Receiver.AdmittedBlock` | backend/src/receiver.rs:431-434 | A block of at most 65536 samples, behind an adapter with less than 15 outputs for 8 inputs, gives fewer 12 kHz samples than a window and a hop differ |
| `Ft8Receiver.RatioBound` | backend/src/receiver.rs:318-329 | The adapter's exact ratio has that bound because its 3200 Hz pass band must lie below half of the input rate |
| `Ft8Receiver.Receiver.Process` | backend/src/receiver.rs:431-477 | Refused, without change, exactly: incomplete or non-finite blocks, more than 65536 samples, an unsupported clock rate or one that changed. Every other block is converted and, unless the conversion overflows, cut. When a job becomes due and the cutter has a position for it, it is handed out, a true slice at the exact coordinate of its start, exactly when that coordinate fits and no later step of the call fails; otherwise it is lost. While the cutter was never stuck, the buffer is below the next job, hence below one window |
| `Ft8Receiver.Receiver.Flush` | backend/src/receiver.rs:723-730 | Unless a job was lost since the last flush or retune, or this flush fails, every 12.64 s of the stream since then lie inside one job that was handed out; the flush fails exactly when a job is left and has no position |
| `Ft8Receiver.Receiver.Retune` | backend/src/receiver.rs:416-425 | A retune starts a new, empty window after everything converted so far; adapter and clock go on |
| `Ft8Receiver.Receiver.Place` | backend/src/receiver.rs:472-477 | A job is given the exact coordinate of the 12 kHz sample whose number, since the receiver opened, equals the job's start in its window; it gets none exactly when that coordinate does not fit |
| `Ft8Receiver.Receiver.PlacedTruly` | backend/src/receiver.rs:416-425 | While no conversion overflowed, the position of a job is the coordinate of its own first sample if and only if nothing was converted before its window began or, behind an adapter, both samples became available with the same input: after a later retune the reported position is too early |
| `Ft8Runs.RetunedRun` | backend/src/receiver.rs:416-477 | The input that breaks it: a 12 kHz receiver that converted one sample is retuned, and the first job of the new window is given the position of that earlier sample, not of its own first one |
| `Ft8Runs.LosesFirstJob` | backend/src/receiver.rs:472-477 | A job that is lost: a 48 kHz receiver at the end of the 64-bit capture counter cuts its first job, whose window position fits, and ends the call with an error because the adapter input behind it has none |
| `FineChannel.ReportedClock` | backend/src/fine.rs:156-163 | From the packet start and the samples consumed before it, the sum of both phase offsets is the raw index (g0+(k+1)·D)·hop-1 of the next output k |
| `FineChannel.FineChannel.ReportIndex` | backend/src/fine.rs:156-163 | The checked sum of the packet start and both phase offsets gives the raw index of the next output, and fails exactly when it does not fit 64 bits |
| `FineChannel.FineChannel.Process` | backend/src/fine.rs:134-190 | A packet is refused for sequence, then shape, and changes nothing; otherwise the outputs continue rotation, filtering and decimation of the channel's own column, output_index is the exact output count and input_index its exact raw index; the output buffer always suffices |
| `FineChannel.RunKernel` | backend/src/narrow.rs:395-416 | With the room a channel reserves, the kernel never fails and continues its whole-stream meaning, at every offset |
| `FineChannel.ChannelClock` | backend/src/narrow.rs:347-358 | The kernel clock reports exactly the samples consumed and produced |
| `FineChannel.StaysInStep` | backend/src/fine.rs:154-163 | A packet start and the group count move together, also for packets without groups |
| `FineChannel.PoolStaysInStep` | backend/src/pfb_pool.rs:521-532 | Between consecutive ordered pool outputs the packet start advances by exactly the groups of the earlier one |
| `FineChannel.ColumnIsBin` | backend/src/fine.rs:139-146 | The column of a bank packet is the mixer output of that bin |
| `FineChannel.RemappedColumn` | backend/src/fine.rs:611-626 | The same bin gives the same samples in any selection that contains it |
| `SignalPath.Follow` | backend/src/fine.rs:134-190 | End to end, for every offset: a channel that joins at any packet boundary and is fed the ordered pool outputs gives its kernel's rotation and filtering of the direct mixer of its bin over the raw stream; output k is numbered k and reported at raw index (g0+(k+1)·D)·hop-1, for every packetization, including packets without groups or outputs; it can stop only when that index does not fit 64 bits |
| `SignalPath.FollowOne` | backend/src/fine.rs:134-190 | One ordered pool output: a channel that has consumed exactly its bin's groups and given their filtered samples has done so after it as well, or is untouched because the next raw index does not fit 64 bits |
| `BankPath.FollowBank` | backend/src/fine.rs:611-660 | End to end for a whole bank: given the ordered pool outputs and the selection of each, across any changes of the selection that keep the channels' bins, every channel has given its kernel's rotation and filtering of the direct mixer of its own bin over the raw stream, with exact output numbers and raw indices; it stops only when the bank fails or a selection loses a bin |
| `BankPath.BankStep` | backend/src/fine.rs:635-660 | One ordered pool output takes every channel of the bank from standing after i packets to standing after i + 1 |
| `BankPath.Reselect` | backend/src/fine.rs:611-626 | A change of the selection between two packets leaves every channel standing where it was |
| `FineBank.PrepareTuned` | backend/src/fine.rs:528-563 | An accepted request is tuned to a provisioned bin plus a remaining offset of at most a quarter of the coarse rate; bin and offset name the same frequency as the requested bin and offset, bin spacings less offset, up to whole turns of the bins |
| `FineBank.RoundTies` | backend/src/fine.rs:550 | The quotient that is rounded to a bin goes away from zero when it lies halfway |
| `FineBank.PrepareKeeps` | backend/src/fine.rs:538-563 | A request for a bin with an offset below a quarter of the coarse rate is granted exactly when that bin is provisioned and both passbands allow it, and then with that same bin and offset |
| `FineBank.PrepareReceives` | backend/src/fine.rs:538-563 | A channel on the granted bin that rotates by the granted offset receives the requested frequency |
| `FineBank.FineBank.PrepareTuning` | backend/src/fine.rs:529-563 | The steps give that tuning, and none exactly when one of the checks fails |
| `FineBank.FineBank.CheckCost` | backend/src/fine.rs:232-253 | The summed calibrated costs are accepted exactly when they are affordable |
| `FineBank.FineBank.CheckAdmission` | backend/src/fine.rs:368-384 | Admission is exactly: a bank that has not failed, room for a new channel, a positive decimation, the rate budget without the replaced channel, and the cost budget of the others and the new one |
| `FineBank.FineBank.CheckId` | backend/src/fine.rs:495-504 | An id is accepted exactly when it is a nonzero 32-bit number above the last one |
| `FineBank.ReplacedAffordable` | backend/src/fine.rs:378-381 | Whether a set of channels is affordable does not depend on where in the list the replacement stands |
| `FineBank.Dropped` | backend/src/fine.rs:581-585 | Removing a channel keeps the bank within its rate and cost budgets; the used rate stays the exact sum of the active rates and never becomes negative, so the clamp at zero never acts |
| `FineBank.FineBank.SubscribeOpening` | backend/src/fine.rs:387-442 | Succeeds exactly for an allowed request whose kernel can be built: a decimation that needs no first stage, or a valid plan all of whose stages have a filter. One channel then joins at the next sequence with the designed filters, on a provisioned bin and rotating by an offset that together name the requested frequency, and by the requested offset when its bin is provisioned and the offset is below a quarter of the coarse rate; otherwise nothing changes |
| `FineBank.FineBank.RetuneOpening` | backend/src/fine.rs:406-455 | For an active old id, succeeds exactly for an allowed request whose kernel can be built (a decimation without a first stage, or a valid plan all of whose stages have a filter), and replaces that channel alone by one that receives the requested frequency in the same sense; otherwise nothing changes |
| `FineBank.FineBank.OpenKernel` | backend/src/fine.rs:102-111 | A kernel is opened exactly for an offset inside the band and a request that can be built; it is new, decimates by exactly the asked factor, rotates by the given offset and has the designed filters |
| `FineBank.FineBank.PlanOpens` | backend/src/narrow.rs:253-283 | Every plan that the planner returns for the bank's rate can be built, so subscribing to it succeeds exactly when it is allowed |
| `FineBank.FineBank.Unsubscribe` | backend/src/fine.rs:581-589 | Removes exactly the named channel and gives back exactly its rate |
| `FineBank.FineBank.SetCostBudget` | backend/src/fine.rs:358-365 | Accepts exactly when no planned channel is active and the active ones are affordable |
| `FineBank.FineBank.RemapBins` | backend/src/fine.rs:611-626 | Succeeds exactly for a distinct in-range selection that keeps every active bin; every channel then reads its own bin's column, with its history and sequence untouched |
| `FineBank.FineBank.Deliver` | backend/src/fine.rs:635-660 | Channels are served in order: the consumer has been handed the outputs of a prefix, numbered by the exact output count and clocked exactly for a packet that starts where the channel stands; exactly these channels have advanced by their column, and on success it is all of them; a failure inside a packet breaks the bank for good; a wrong epoch or sequence changes nothing |
| `Wire.EncodeBaseband` | backend/src/wire.rs:182-228 | Rejects exactly what is out of bounds, and otherwise gives magic, version, number, sizes, rates, ids, index and delay in their order and little-endian, followed by the payload words |
| `Wire.FrameRoundTrip` | backend/src/wire.rs:209-226 | The 56-byte header and the payload read back as the same fields and words |
| `Wire.LeRoundTrip` | backend/src/wire.rs:214-222 | Little-endian bytes read back as the number |
| `Wire.LeDigits` | backend/src/wire.rs:214-225 | Byte i of an encoded number is its digit of weight 256^i |
| `Wire.WordsRoundTrip` | backend/src/wire.rs:223-226 | Payload words read back in order |
| `Wire.ScaledValue` | backend/src/wire.rs:130-131 | Multiplying a binary32 value by 1/32768 keeps its sign and finiteness, is exact for normal results and otherwise within half a unit of the smallest step, ties going to the even value |
| `Framer.BasebandFramer.Push` | backend/src/wire.rs:77-151 | Rejected exactly by the guard, and then nothing changes; otherwise the samples join the stream, a frame goes out exactly when a block is full (after the announcement, the first time), and the returned byte strings are exactly the new frames, each of which decodes to the stream's magic, channel, epoch, rate and center, to the next number and to its own payload |
| `Framer.BasebandFramer.Refuse` | backend/src/wire.rs:78-96 | A delivery is refused exactly when the stream has ended, its channel, epoch or rate differ, it is odd, too long or not finite, its clock is out of range, or its sample or packet number is not the expected one |
| `Framer.BasebandFramer.Finish` | backend/src/wire.rs:154-179 | After the tail frame the payloads of all frames are exactly the accepted samples, scaled, in order; the tail decodes to the stream's magic, channel, epoch, rate and center, to the next number and to its payload; a second finish is refused |
| `Framer.Framed` | backend/src/wire.rs:132-149 | Framing the pending samples keeps payloads + pending = accepted, numbers frames 0, 1, 2, ..., keeps each frame's index and delay those of the push that brought its first sample, and is always encodable |
| `Framer.StreamReadsBack` | backend/src/wire.rs:137-149 | Frame i on the wire decodes to sequence i, to the magic, channel, epoch, rate and center of the stream and to its payload, with the index and delay of the push that brought its first sample |
| `IqsOwner.RingRecord` | backend/src/hardware_iqs.rs:339-351 | A slot written at total mod capacity keeps the newest records |
| `IqsOwner.EventHistory.Record` | backend/src/hardware_iqs.rs:339-346 | The event is appended to the history with the running number |
| `IqsOwner.EventHistory.RecordQueueFull` | backend/src/hardware_iqs.rs:348-351 | The attribution is appended to its own history |
| `IqsOwner.EventHistory.Snapshot` | backend/src/hardware_iqs.rs:353-368 | Returns exactly the last min(total, capacity) records in order, how many are gone, and the last recovery even when it was overwritten |
| `IqsOwner.SpectrumSchedule.Received` | backend/src/hardware_iqs.rs:39-42 | A frame is counted exactly when one was due |
| `IqsOwner.FramesLaw` | backend/src/hardware_iqs.rs:36-43 | After n packets of one length the number of frames asked for is the smaller of n and the number of started 50 ms intervals |
| `IqsOwner.FramesAreIntervals` | backend/src/hardware_iqs.rs:28-43 | Frames equal started intervals for every n if and only if a packet is no longer than an interval; so decimation leaves the frame rate alone exactly up to that length |
| `IqsOwner.SlowPacketsMissIntervals` | backend/src/hardware_iqs.rs:28-43 | At device decimation 256 frames do not equal started intervals: 5 packets give 5 frames while 6 intervals have started |
| `IqsOwner.HardwareCapture.Fetch` | backend/src/hardware_iqs.rs:994-1101 | A good packet gets the next number, the generation of this moment and a spectrum when due, and ends the streak of failures; transient failures are skipped until 60 in a row or a stall, which latch an error; exactly the named events are recorded |
| `IqsOwner.HardwareCapture.TrySend` | backend/src/hardware_iqs.rs:1102-1147 | A free queue takes the held packet; a full one leaves it held, and only the first failure of a packet is attributed, with its ordinal, stamp and the samples enqueued before it |
| `IqsOwner.HardwareCapture.ServeRequest` | backend/src/hardware_iqs.rs:963-993 | Between packets or while one is held: a good reconfiguration starts one new generation at the new device decimation with a spectrum due and leaves the held packet its tag; a failed one latches the error |
| `IqsOwner.HardwareCapture.BacklogTimeout` | backend/src/hardware_iqs.rs:1172-1192 | A held packet that waits too long ends the owner with an error |
| `IqsOwner.HardwareCapture.Disconnected` | backend/src/hardware_iqs.rs:1196-1203 | A closed consumer ends the owner |
| `IqsOwner.HardwareCapture.BeginNext` | backend/src/hardware_iqs.rs:1352-1358 | A latched error is reported before anything is taken |
| `IqsOwner.HardwareCapture.Receive` | backend/src/hardware_iqs.rs:1359-1363 | The queue gives its oldest packet |
| `IqsOwner.HardwareCapture.EndNext` | backend/src/hardware_iqs.rs:1369-1377 | Nothing is delivered once an error is latched; a delivered packet has the next number |
| `IqsOwner.HardwareCapture.CallTimeout` | backend/src/hardware_iqs.rs:1258-1261 | A stalled control call latches an error and stops the owner |
| `IqsOwner.HardwareCapture.Close` | backend/src/hardware_iqs.rs:1407-1416 | Closing stops the owner and keeps the invariant |
| `IqsOwner.DeliveredInOrder` | backend/src/hardware_iqs.rs:1108-1109 | In every reachable state delivered packets are numbered 1, 2, 3, ... and generations never go back |
| `IqsOwner.FirstFull` | backend/src/hardware_iqs.rs:1134-1141 | Each held packet has at most one record, with input index 16240 times its zero-based number (saturating) |
| `IqsOwner.HardwareCapture.AnyRun` | backend/src/hardware_iqs.rs:959-1206 | Any interleaving of owner, callers and consumer keeps the invariant; delivered packets are only ever appended, and none after an error |
| `San90Session.Session.RetryBus` | backend/sdk/san90_sdk.cpp:268-276 | One to five calls, repeated only on bus timeouts; it stops at once when the device is gone, gives back the last status, and is one Apply of the configuration script |
| `San90Session.Session.OpenDevice` | backend/sdk/san90_sdk.cpp:226-257 | Refused while a mode is active; otherwise reuses a healthy session or opens a new handle, which a lost device takes back at once; success makes this mode the active one, failure leaves none; the status is that of the call that failed |
| `San90Session.Session.OpenFailed` | backend/sdk/san90_sdk.cpp:259-265 | Marks the session for closing and drops exactly a lost handle |
| `San90Session.Session.Release` | backend/sdk/san90_sdk.cpp:106-114 | Ends the mode; an invalidated usable device is closed, once, and its handle forgotten; otherwise the physical session stays exactly as it is |
| `San90Session.Session.AbandonOpen` | backend/sdk/san90_sdk.cpp:448-457 | A failed open leaves no mode and no usable device: a real-time stream is stopped, the signal object closed, and the device closed unless it is lost, in this order and nothing else |
| `San90Session.Session.CloseIdle` | backend/sdk/san90_sdk.cpp:126-138 | Closes only an idle, healthy handle; an active mode is refused with -110 and success leaves no handle; a failing close leaves everything as it was |
| `San90Session.Session.CloseAll` | backend/sdk/san90_sdk.cpp:139-150 | Refused with -110 while a mode is active unless forced; otherwise the mode is closed, then the device if it is still open, and no mode and no handle remain |
| `San90Session.Session.ConfigureIqs` | backend/sdk/san90_sdk.cpp:346-399 | No vendor call uses the handle after a -8 or -9 result. The calls are exactly: a stop if the stream runs, the default sweep profile, the stream's own profile, each Apply repeated on bus timeouts; the first failure but a stop that only failed, or the refusal of the applied profile, ends it and is given back |
| `San90Session.Session.ConfigureRta` | backend/sdk/san90_sdk.cpp:770-855 | No vendor call uses the handle after a -8 or -9 result, also when assigning the buffers throws. The calls are exactly: stop, reset, Apply with repeats, start; the first failure, or -102 for an unusable profile, ends it and is given back |
| `San90Session.Session.ConfigureSwp` | backend/sdk/san90_sdk.cpp:1050-1077 | A sweep is reset and applied with repeats; the first failure or -102 ends it and is given back |
| `San90Session.Session.ConfigurePnm` | backend/sdk/san90_sdk.cpp:1417-1436 | Phase noise is reset and applied once; the first failure or -102 ends it and is given back |
| `San90Session.Session.OpenSignal` | backend/sdk/san90_sdk.cpp:425-444 | The signal object is opened, reset and configured; the first failure or -106 ends it and is given back, and it is to be closed exactly when it was opened |
| `San90Session.Session.OpenMode` | backend/sdk/san90_sdk.cpp:857-884 | Success gives exactly one new active mode on a live handle, configured by its whole script; failure gives none, and closes the device unless the configuration was not reached; an exception leaves a mode that the dispatcher retires. -100 and -110 are given back without a call, every other failure is that of the first call that failed or the refusal of its profile |
| `San90Session.Session.ReconfigureMode` | backend/sdk/san90_sdk.cpp:959-990 | With every rollback path, including buffers that cannot be allocated, no vendor call follows a lost device and the mode stays active. The configuration script runs first; a failure that did not lose the device is followed by the rollback script of a real-time or sweep mode, and only its loss of the device, or an exception, replaces the status |
| `San90Session.Session.NextPnm` | backend/sdk/san90_sdk.cpp:1455-1507 | The measuring cycle never calls the vendor after a lost device; a failed start is shifted by two million, a failed update means nothing new, and only a lost device is reported as such; the cycle restarts after its last update and after too many calls without one |
| `San90Session.Session.NextIqs` | backend/sdk/san90_sdk.cpp:538-577 | A packet is given back as 0 for the statuses 0 and -12; any other vendor status is passed on, unusable data is -103, a spectrum without room -107 |
| `San90Session.Session.NextRta` | backend/sdk/san90_sdk.cpp:904-921 | Exactly the statuses that come with data are given back as 0; every other one is passed on |
| `San90Session.Session.NextSwp` | backend/sdk/san90_sdk.cpp:1156-1209 | A sweep gives back its own status 0 or -12; a failed fetch its status, unusable data -103 or that status, and a cut that does not fit -108, -103 or -109 |
| `San90Session.Session.ArmMode` | backend/sdk/san90_sdk.cpp:460-470 | An armed mode gives 0 without a call; otherwise the status is that of the one start call |
| `San90Session.Session.Simple` | backend/sdk/san90_sdk.cpp:97-181 | Every operation that cannot throw gives back the status named above, from the calls that it made |
| `San90Session.Session.CloseMode` | backend/sdk/san90_sdk.cpp:721-730 | Closing a mode always ends with no active mode, and with a handle that is live or gone: what the mode runs is stopped, its signal object closed, and the device closed exactly when it was to be closed or did not stop; the status is that of the first call that failed |
| `San90Session.Session.InvalidateMode` | backend/sdk/san90_sdk.cpp:169-178 | The device is marked for closing, and an abandoned one is forgotten; nothing else changes |
| `San90Session.Session.Perform` | backend/sdk/san90_sdk.cpp:97-104 | An operation for a mode that is not active is refused with -110 and changes nothing. Every other one gives back what its own vendor calls and checks say (-8 when the device cannot be used, -100 for bad arguments, then the status of the call that was made), makes no other calls, and leaves the mode and the device as these answers ask |
| `San90Session.Session.Execute` | backend/sdk/san90_sdk.cpp:50-65 | What is published is -101 for an exception and otherwise exactly the status that the operation gave back for the calls it made. Whatever that is, the session is consistent again: at most one mode, a live handle or none; a mode that a throwing open left is closed with its device, another one is marked for closing, and the handle is dropped after -8 or -9 |
| `San90Session.Session.Enter` | backend/sdk/san90_sdk.cpp:97-98 | Callers pass one at a time |
| `San90Session.Session.Submit` | backend/sdk/san90_sdk.cpp:72-77 | The operation is handed over exactly once; a stopped session answers 0 to a finish (line 141) and -112 to everything else |
| `San90Session.Session.WorkerFinishes` | backend/sdk/san90_sdk.cpp:66-69 | The published result is the outcome of the operation the current caller submitted, right for the situation that it found and the vendor calls that it made |
| `San90Session.ChainedNext` | backend/sdk/san90_sdk.cpp:40-71 | An operation that finds what the chain of those before it left, and does what it should, continues the chain |
| `San90Session.Session.Leave` | backend/sdk/san90_sdk.cpp:78-80 | Each caller gets its own operation's result, right for the vendor calls that the operation made; only a finish that is not refused stops the session |
| `San90Session.Session.AnyRun` | backend/sdk/san90_sdk.cpp:40-104 | Every run with arbitrary vendor statuses keeps: at most one mode, vendor calls on live handles only, no closed or lost handle used or closed again, and every caller its own result. The executed operations form one chain from an unused session: each found what the one before it left, made the calls of its own script, and gave back what they say |
| `RtaCapture.PeakIsMax` | backend/sdk/san90_sdk.cpp:930-936 | The peak of a bin over the traces of a packet bounds all of them and is one of them |
| `RtaCapture.CountsAreRead` | backend/sdk/san90_sdk.cpp:929-936 | The traces that are read are, with fixed points, exactly those that the packet announces and that lie inside its valid points, otherwise the first; the first one always |
| `RtaCapture.FrameIsPeaks` | backend/sdk/san90_sdk.cpp:929-936 | A frame holds in every bin the greatest level, count times scale plus offset, over exactly these traces, and it is the level of one of them |
| `RtaCapture.RtaDevice.PeakFrame` | backend/sdk/san90_sdk.cpp:929-936 | The loop over bins and traces gives that frame |
| `RtaCapture.BinMaxIsMax` | backend/sdk/san90_sdk.cpp:937-942 | The accumulated maximum bounds all frames and is attained |
| `RtaCapture.RtaDevice.Configure` | backend/sdk/san90_sdk.cpp:770-855 | The first failing step decides, with an exception where a buffer cannot be allocated; geometry is replaced before it is checked, trace, bitmap and accumulator in this order before the stream starts, everything else only on success |
| `RtaCapture.RtaDevice.Open` | backend/sdk/san90_sdk.cpp:857-884 | The capture is marked valid exactly when every step succeeded; it is then consistent exactly when the size of the trace buffer does not wrap around; a failed or thrown open leaves no valid capture |
| `RtaCapture.RtaDevice.Reconfigure` | backend/sdk/san90_sdk.cpp:959-990 | Success or rollback forgets what was counted and starts a new generation; a capture is marked valid after a rollback exactly when it was before and the rollback succeeded, and an invalid one recovers by success only. After a return the state is consistent if and only if new buffers cover the geometry of a running capture. After an exception it is consistent if and only if it survives: no valid capture, or buffers that hold the last reported geometry and, for a finite level capture, an accumulator of its width from which no counted packet was lost |
| `RtaCapture.LosesAccumulator` | backend/sdk/san90_sdk.cpp:816-820 | The input that breaks it: a refused non-level profile clears the accumulator and the rollback's first buffer cannot be allocated; the old level capture stays valid, on a usable device, without an accumulator |
| `RtaCapture.OutgrowsTrace` | backend/sdk/san90_sdk.cpp:806-817 | The input that breaks the trace buffer: a geometry with 2000 traces per packet is in place when its buffer cannot be allocated; the capture stays marked valid with a fitting accumulator, and a frame would read 8000 points from a buffer of 4100 |
| `RtaCapture.OutgrowsRollback` | backend/sdk/san90_sdk.cpp:971-980 | The input that breaks it without an exception: a rollback succeeds with a reported width of 9000 and four points per packet, the capture is marked valid, and a frame would read 9000 points from a buffer of 4100 |
| `RtaCapture.ReadsInside` | backend/sdk/san90_sdk.cpp:922-936 | Every index that a frame reads lies inside a trace buffer that fits |
| `RtaCapture.RtaDevice.AnyRun` | backend/sdk/san90_sdk.cpp:904-990 | Any run of packets and reconfigurations keeps the capture consistent when it is closed after an exception that does not certainly survive, and after a return whose geometry new buffers do not cover |
| `RtaCapture.ClearedIsSilent` | backend/sdk/san90_sdk.cpp:816-820 | A cleared accumulator is right exactly for frames that never rose above its start value |
| `RtaCapture.RtaDevice.Next` | backend/sdk/san90_sdk.cpp:904-957 | From a consistent state: every read lies inside the buffers; the status is 0 exactly for the statuses that come with data; the new frame is in every bin the greatest level over all traces that the packet announces inside its valid points; complete by count exactly when precisely packet_count data packets arrived unbroken since the last successful configuration or rollback; the trace then published is the bin-wise maximum of all their frames |
| `RtaCapture.RtaDevice.NoData` | backend/sdk/san90_sdk.cpp:916-921 | A status without data keeps the count only for bus timeout and trigger timeout, and never completes |
| `RtaCapture.RtaDevice.Data` | backend/sdk/san90_sdk.cpp:922-957 | Only unbroken data packets are counted, each by the greatest level of every bin over all its traces that count, and complete is reported exactly by a closing status or the configured count |
| `RtaCapture.RtaDevice.Accumulate` | backend/sdk/san90_sdk.cpp:937-942 | While the capture is open the accumulator is the maximum of all frames and is what is shown; afterwards the frame itself is shown |
| `Timing.Timing.Observe` | backend/src/timing.rs:31-38 | After any sequence of observations every bucket holds its saturated count, and count, total and maximum are exact up to saturation |
| `Timing.Rank` | backend/src/timing.rs:43-44 | The overflow-safe formula is ceil(count·percent/100), between 1 and count |
| `Timing.Timing.Quantile` | backend/src/timing.rs:41-53 | Below 2^64 observations: the top of the bucket that holds the nearest-rank order statistic x, hence at least x and at most 2x-1, and 0 when x is 0 |
| `Timing.Timing.Report` | backend/src/timing.rs:40-61 | Count, total, maximum and both quantiles of everything observed |
| `Timing.RankExists` | backend/src/timing.rs:43-44 | Every rank in range names exactly one observed value |
| `Timing.SortedRank` | backend/src/timing.rs:43-44 | In a sorted listing the r-th entry is that value |
| `Timing.CountPermuted` | backend/src/timing.rs:45-50 | The order of the observations does not matter |

## Left out

- Floating-point rounding and summation order; filter design and its decibel claims: coefficients are arbitrary and arithmetic is exact.
- Rounding of the oscillator: its step is an exact unit rotation, so renormalisation leaves it unchanged.
- Transform library, vector instructions, mutexes and channels as such: the defining sum, eight-lane index maps and atomic steps stand for them.
- Worker panics and disconnected channels, hence the pool's -3 and -4 results; process times, statistics and timing snapshots of the pool.
- Sample counts beyond the 64-bit clock in the filter bank, the pool and the FT8 window, where the program has no check.
- Odd-length interleaved buffers where samples are pairs in the model; the framer, which checks for them, works on single words.
- PfbPool.PfbBenchPool.RunTask: the state travels to the worker as a value, because the program moves it there.
- Narrow.Channel.Process: the one channel object of the program is three classes here (two-stage or fused, cascade, with adapter); null pointers and negative sizes are not representable.
- Narrow.RatioChannel.Process: says when the adapter panics, not what is left behind, because the panic ends the process; the room offered is a 32-bit count, as in the program.
- Pass-band and tap-count checks of the adapter beyond the pass-band bound that FT8 needs, and the search for a decimation below a ceiling: floating-point tables without a discrete law.
- RatePlan.TapsSuffice: the constant of the design formula is a positive parameter, and the tolerances of plan validity are compared exactly.
- Rational.Rational.Process: 128-bit overflow of the input counter inside the resampler is not modelled; that of the causal index is.
- SamplePosition.AdvanceComposes: stated for calls that return; when each call fails is stated on the calls.
- FineBank.FineBank.SubscribeOpening: cosine and sine of the offset are a parameter with unit values.
- ChannelOpen.PlansOpen: the rates after the stages are exact quotients, which the program divides in floating point; the constant of the design formula (about 5.01) is any positive number up to 1600.
- FineBank.FineBank.Deliver: the consumer and its time budget are nondeterministic.
- Channel metadata, reported delays and the command dispatch of the fine bank: no state of their own.
- Framer.BasebandFramer.Push: the frame size, computed from the rate in floating point, is a parameter of at least one.
- Audio, event and spectrum encoders: plain layouts of the kind proved for the baseband frame.
- Ft8Receiver.Receiver.Process: only the FT8 part of a block; whether samples are finite, a conversion overflows and a later step of the call fails are parameters; decoding, status events and message deduplication are not modelled.
- IqsOwner.HardwareCapture.Fetch: vendor arming, clock and front-end reads, counters and stage timings are left out; an event is its kind, packet number and running number.
- IqsOwner.HardwareCapture.EndNext: the consumer's own slow-service records are not modelled.
- San90Session.Session.ConfigureIqs: states which handle is used after which status and what is given back, not the values the vendor is asked to apply; the same holds for the other modes.
- San90Session.Session.Simple: which of two refusals comes first when a device is unusable and arguments are bad follows the common order (device, then arguments), not the entry points that test a pointer first; the sizes of a sweep's own buffers, tested before its fetch, are taken to be right.
- San90Session.Session.OpenDevice: a successful open gives a handle that was never seen before; address reuse by the vendor is not modelled.
- San90Session.Session.OpenMode: the wrapper object of a mode can always be allocated; its buffers may not.
- San90Session.Session.RetryBus: the vendor's statuses are arbitrary, so nothing is said about when a call succeeds.
- First-generation entry points that the native side no longer loads, device information and defaults queries beyond one generic query.
- RtaCapture.RtaDevice.Reconfigure: the geometry that the vendor reports is arbitrary, also for a failing call; trace and bitmap are their sizes.
- RtaCapture.RtaDevice.Next: the vendor is taken to write at most the larger of valid and sample points to the trace and width times height to the bitmap; bitmap contents and frequency axes are left out.
- HTTP and WebSocket adapters, demodulators, decoders, noise reduction, Python tools and the browser: outside the native signal path.
