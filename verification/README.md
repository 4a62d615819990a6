# Models of the audio and camera shims

The repository makes a vendor audio and camera stack usable on a newer system. This project
models the parts of it that compute: the signal path of the echo-cancelling capture shim with the
speexdsp code it compiles, and the camera shim that rewrites command buffers and white-balance gains.

Each layer of the signal path is the specification of the next one.

- **Transforms.** `KissFactor` and `MixedRadix` are kiss_fft.c: the factoriser, the digit-reversed
  shuffle and the in-place butterflies, proved equal to the plain Fourier sum. `KissFftr` packs real
  samples into it, `FftWrap` scales it and proves both round trips. `Complex`, `Sums`, `RootsOfUnity`,
  `Fourier`, `Inversion`, `HalfComplex`, `Butterflies` and `Divisors` hold the mathematics.
- **Echo canceller.** `Convolution`, `BlockFilter` and `GradientStep` show that the partitioned
  frequency-domain filter is a time-domain filter and that its gradient shrinks the error;
  `EchoCanceller` keeps the delay line, the two filters, the gradient and the constraint of mdf.c in
  step over any number of calls, and `EchoFilter` says when its echo is the direct filter;
  `PlaybackQueue` is its small buffer. `Blocks` is the flat layout of partitions, `Emphasis` and
  `CrossFading` are the pre-emphasis and the fade from one filter to the other.
- **Preprocessor.** `OverlapAdd`, `MinimumTracking` and `FilterBank`.
- **Capture shim.** `FrameBytes`, `BlockProcessor`, `BlockMeaning` and `CaptureShim`: samples in
  bytes, one block, and the session with its re-blocked stream.
- **Fixed point.** `FixedPoint` and `PseudoFloat`, the alternative arithmetic.
- **Camera shim.** `AwbTrim` and `EventMap`.

`dafny verify dfyconfig.toml` checks everything.

## How the model reads the code

- Numbers of the float build are exact reals; machine words are integers with their widths written
  out where a step could leave them.
- Twiddles come from an abstract unit circle (`IsCis`); `toBARK`, the cosine of the window and the
  square root are parameters with the few laws that are needed of them.
- Where the source stops the process (`speex_fatal`), methods return `ok` or nothing.
- Casts between real and complex buffers are copies. The loops over blocks and columns that every
  butterfly contains stand once, in `Work` and `Butterfly`.
- The echo canceller and the preprocessor use the functions `Fft` and `Ifft`; `SpxFft` and `SpxIfft`
  are proved to compute them in place.
- `EchoCanceller` takes the microphone frame after the notch filter and pre-emphasis, and what the
  statistics decide (whether to adapt, step sizes, when to exchange the filters, when to reset), as
  inputs; its results hold whatever they are. It returns the echo estimate.
- The processors behind process_block_l are functions of their state and input that keep the length
  of a block. Creating one may fail at any point. The handle of a read is not null.

Some things that the code or its comments suggest hold only under conditions. Each condition is
proved exact:

- kf_factor gives only radices that are 4 or prime unless a product of two primes above 32000
  divides the length; 32003 squared is such a length (`KissFactor.RadixesPrime`).
- A white-balance buffer is left alone by all further calls if and only if every triple that a scan
  visits still holds what was written last, or is mapped to itself by trims that are still in force
  (`AwbTrim.LeftAloneExactly`). A call that corrected leaves it so whenever no gain that it wrote
  leaves 300..1400 or becomes 512 (`AwbTrim.StayingSettles`).
- An entry of the event table leads back to its event if and only if its index keeps its sign in a C
  short and the first declaration of what is left of it names that event (`EventMap.EntryDecodes`).
- The pseudo-float product of operands with the top bit in use is right unless both mantissas are
  -32768, the quotient unless the dividend's is (`PseudoFloat.MultNormalised`, `PseudoFloat.DivU`).

## Model

| member | source | states |
|---|---|---|
| KissFactor.KfFactor | shims/libamznaec/speexdsp/libspeexdsp/kiss_fft.c:436-456 | terminates for every positive 32-bit length and leaves in the buffer, pair by pair, the chain that `FactorsChain`, `FactorsFit` and `RadixesPrime` are about; never writes beyond the 32 pairs |
| KissFactor.FactorsChain | shims/libamznaec/speexdsp/libspeexdsp/kiss_fft.c:433-456 | the pairs multiply up: p times m of one pair is the m of the pair before, the first product is n, the last m is 1 |
| KissFactor.FactorsFit | shims/libamznaec/speexdsp/libspeexdsp/_kiss_fft_guts.h:25-36 | a positive 32-bit length needs at most 30 of the 32 pairs |
| KissFactor.RadixDivides | shims/libamznaec/speexdsp/libspeexdsp/kiss_fft.c:442-455 | the radix that the search settles on divides what is left |
| KissFactor.FoursFirst | shims/libamznaec/speexdsp/libspeexdsp/kiss_fft.c:438-448 | fours come out first, then a two |
| KissFactor.RadixesPrime | shims/libamznaec/speexdsp/libspeexdsp/kiss_fft.c:442-455 | every radix is 4 or prime if and only if no product of two primes above 32000 divides n |
| KissFactor.RadixesPrimeBelow | shims/libamznaec/speexdsp/libspeexdsp/kiss_fft.c:442-455 | so every radix is 4 or prime for all n below 32001 squared |
| KissFactor.CompositeRadix | shims/libamznaec/speexdsp/libspeexdsp/kiss_fft.c:442-455 | the source means to take out 4, 2 and the remaining primes, but the length 32003 squared comes out as one composite radix |
| KissFactor.SupportedExactly | shims/libamznaec/speexdsp/libspeexdsp/kiss_fft.c:289-294 | no radix is above 17 if and only if no prime factor of n is |
| RootsOfUnity.Orthogonal | shims/libamznaec/speexdsp/libspeexdsp/kiss_fft.c:464-500 | the powers of the primitive root sum to n or to zero: the fact behind both round trips |
| Fourier.NodeStep | shims/libamznaec/speexdsp/libspeexdsp/kiss_fft.c:354-430 | decimation: the transform of every (s*p)-th sample set combines into that of every s-th |
| Fourier.StageCorrect | shims/libamznaec/speexdsp/libspeexdsp/kiss_fft.c:395-428 | a butterfly applied to a block that holds p shorter transforms leaves the longer transform |
| MixedRadix.TwidxStep | shims/libamznaec/speexdsp/libspeexdsp/kiss_fft.c:306-313 | the running twiddle index stays below the length, needs one subtraction only, and is q times its stride modulo the length |
| MixedRadix.GenericBin | shims/libamznaec/speexdsp/libspeexdsp/kiss_fft.c:306-315 | one output of the generic butterfly is the sum over q of input times w^(fstride*q*k) |
| MixedRadix.Bfly2Column | shims/libamznaec/speexdsp/libspeexdsp/kiss_fft.c:29-84 | radix 2 in place: column j becomes its p-point transform with twiddles, all other places keep their values |
| MixedRadix.Bfly3Column | shims/libamznaec/speexdsp/libspeexdsp/kiss_fft.c:168-212 | the same for radix 3, with the half-sum and the third root that the source uses |
| MixedRadix.Bfly4Column | shims/libamznaec/speexdsp/libspeexdsp/kiss_fft.c:86-166 | the same for radix 4, both directions |
| MixedRadix.Bfly5Column | shims/libamznaec/speexdsp/libspeexdsp/kiss_fft.c:214-275 | the same for radix 5 |
| MixedRadix.GenericColumn | shims/libamznaec/speexdsp/libspeexdsp/kiss_fft.c:278-319 | the same for every radix up to 17, through the scratch copy |
| MixedRadix.Butterfly | shims/libamznaec/speexdsp/libspeexdsp/kiss_fft.c:395-428 | all columns of one block: the block becomes the stage of the reference, nothing outside it changes |
| MixedRadix.Shuffle | shims/libamznaec/speexdsp/libspeexdsp/kiss_fft.c:321-352 | place pos+i holds the sample with the digit-reversed index, for every strided input; nothing outside the range changes |
| MixedRadix.Work | shims/libamznaec/speexdsp/libspeexdsp/kiss_fft.c:354-430 | from a scrambled input every block becomes the plain transform of its samples; fails exactly when a radix is above 17 |
| MixedRadix.KissFftStride | shims/libamznaec/speexdsp/libspeexdsp/kiss_fft.c:505-517 | output k is the plain sum over j of fin[j*stride]*w^(jk), for every k; fails exactly in place or when a radix is above 17 |
| MixedRadix.KissFft | shims/libamznaec/speexdsp/libspeexdsp/kiss_fft.c:519-522 | the same for adjacent samples |
| MixedRadix.KissFftAlloc | shims/libamznaec/speexdsp/libspeexdsp/kiss_fft.c:464-500 | the twiddles are the points at -e/n or e/n turns of the unit circle, the powers of a primitive n-th root, and the factors are those of n |
| MixedRadix.PowersRoot | shims/libamznaec/speexdsp/libspeexdsp/kiss_fft.c:487-497 | the phases of the twiddle loop give a root of unity with all the laws the butterflies need |
| MixedRadix.PowersDirection | shims/libamznaec/speexdsp/libspeexdsp/kiss_fft.c:487-494 | the forward twiddles turn clockwise by e/n, the inverse ones the other way |
| HalfComplex.PackUnpack | shims/libamznaec/speexdsp/libspeexdsp/kiss_fftr.c:173-259 | reading a packed spectrum and packing it again is the identity |
| HalfComplex.UnpackPack | shims/libamznaec/speexdsp/libspeexdsp/kiss_fftr.c:173-259 | packing a Hermitian spectrum loses nothing, including the unpaired first and middle entries |
| HalfComplex.RealHermitian | shims/libamznaec/speexdsp/libspeexdsp/kiss_fftr.c:173-259 | the spectrum of real samples is Hermitian |
| HalfComplex.HermitianReal | shims/libamznaec/speexdsp/libspeexdsp/kiss_fftr.c:261-297 | a Hermitian spectrum has a real inverse |
| KissFftr.ForwardBins | shims/libamznaec/speexdsp/libspeexdsp/kiss_fftr.c:237-255 | what the loop computes from bins k and n-k of the half-length transform are bins k and n-k of the real one, also when k and n-k coincide |
| KissFftr.StoreBins | shims/libamznaec/speexdsp/libspeexdsp/kiss_fftr.c:252-255 | storing the two bins, twice over each other at the middle, extends the stored range by one on both sides |
| KissFftr.KissFftr2 | shims/libamznaec/speexdsp/libspeexdsp/kiss_fftr.c:173-259 | the result is the packed half-complex plain transform of the real input; fails exactly for an inverse configuration or a radix above 17 |
| KissFftr.FoldedInverse | shims/libamznaec/speexdsp/libspeexdsp/kiss_fftr.c:272-291 | the folded half-length spectrum transforms back to the pairs of samples of the full inverse |
| KissFftr.KissFftri2 | shims/libamznaec/speexdsp/libspeexdsp/kiss_fftr.c:261-297 | the samples are the unscaled inverse sum of the packed spectrum |
| KissFftr.KissFftrAlloc | shims/libamznaec/speexdsp/libspeexdsp/kiss_fftr.c:32-79 | nothing for odd lengths, otherwise a configuration whose twiddles and super twiddles belong to the root of the full length |
| FftWrap.SpxFftInit | shims/libamznaec/speexdsp/libspeexdsp/fftwrap.c:304-312 | a table with both configurations for every even size; for an odd size a table without any |
| FftWrap.SpxFft | shims/libamznaec/speexdsp/libspeexdsp/fftwrap.c:336-345 | the executable forward transform is `Fft`, the plain sum over the length |
| FftWrap.SpxIfft | shims/libamznaec/speexdsp/libspeexdsp/fftwrap.c:348-352 | the executable inverse transform is `Ifft` |
| FftWrap.FftWrites | shims/libamznaec/speexdsp/libspeexdsp/fftwrap.c:336-345 | where the forward transform writes: N times entries 2k-1 and 2k are the real and imaginary part of the plain sum for bin k, the first and the last entry the real sums for bins 0 and N/2 |
| Inversion.DftInverted | shims/libamznaec/speexdsp/libspeexdsp/fftwrap.c:336-352 | the inverse sum of the spectrum is n times the signal |
| FftWrap.IfftOfFft | shims/libamznaec/speexdsp/libspeexdsp/fftwrap.c:336-352 | the inverse undoes the forward transform exactly, for every even length and all samples |
| FftWrap.FftOfIfft | shims/libamznaec/speexdsp/libspeexdsp/fftwrap.c:336-352 | and the other way round, for every packed spectrum |
| Convolution.UnpackedMul | shims/libamznaec/speexdsp/libspeexdsp/mdf.c:309-326 | the packed product of two packed spectra is the product bin by bin |
| Convolution.OverlapSave | shims/libamznaec/speexdsp/libspeexdsp/mdf.c:790-801 | the second half of the inverse transform of a product with a filter that is silent in its second half is the linear convolution, over the length |
| BlockFilter.SpectralMulAccum | shims/libamznaec/speexdsp/libspeexdsp/mdf.c:309-326 | accumulates the packed products of M blocks, from zero |
| BlockFilter.WeightedSpectralMulConj | shims/libamznaec/speexdsp/libspeexdsp/mdf.c:331-345 | entry by entry the weighted product with the conjugate |
| BlockFilter.WeightedConjBin | shims/libamznaec/speexdsp/libspeexdsp/mdf.c:331-345 | which is, bin by bin, weight times conjugate of X times Y |
| BlockFilter.ProductSumSample | shims/libamznaec/speexdsp/libspeexdsp/mdf.c:309-326 | a sample of the inverse of the accumulated products is the sum of the samples of the single products |
| BlockFilter.PartitionOut | shims/libamznaec/speexdsp/libspeexdsp/mdf.c:790-801 | one partition contributes its impulse response applied to one stretch of the far-end history |
| BlockFilter.FilterIsFir | shims/libamznaec/speexdsp/libspeexdsp/mdf.c:790-801 | the block filter is the time-domain filter of M*frame_size coefficients over the far-end history, summed over all speakers, up to the scale 1/N |
| BlockFilter.ConstrainedCausal | shims/libamznaec/speexdsp/libspeexdsp/mdf.c:855-860 | a constrained partition has a silent second half and keeps its first |
| BlockFilter.ConstrainedFixed | shims/libamznaec/speexdsp/libspeexdsp/mdf.c:855-860 | constraining a causal partition changes nothing |
| BlockFilter.ScheduleCovers | shims/libamznaec/speexdsp/libspeexdsp/mdf.c:826-832 | in any M-1 consecutive calls partition 0 is constrained every time and each other partition exactly once |
| BlockFilter.ScheduledExactly | shims/libamznaec/speexdsp/libspeexdsp/mdf.c:826-836 | partition j > 0 comes in exactly the calls j-1 + q(M-1) |
| BlockFilter.TapsGiveTwoPartitions | shims/libamznaec/amznaec_shim.cpp:357-361 | for every 32-bit property value there are at least two partitions, so the schedule never divides by zero, and they add up to the taps; the taps come to the requested length exactly from 20 to 134217 ms, where the 32-bit product neither falls short nor wraps |
| BlockFilter.OneCallLater | shims/libamznaec/speexdsp/libspeexdsp/mdf.c:770-778 | adding a frame of history makes what was j calls ago j+1 calls ago |
| BlockFilter.WindowIsPast | shims/libamznaec/speexdsp/libspeexdsp/mdf.c:746-768 | sample by sample, a window is a stretch of the far-end history |
| BlockFilter.PastIsHistory | shims/libamznaec/speexdsp/libspeexdsp/mdf.c:746-768 | counted from the first frame on, the sample d before position i of the newest frame is the one at that place of the history, or silence before it |
| EchoCanceller.SlideWindow | shims/libamznaec/speexdsp/libspeexdsp/mdf.c:746-768 | the window moves down one frame and takes in the pre-emphasised samples; the memory ends as the last raw sample |
| Emphasis.EmphasisRoundTrip | shims/libamznaec/speexdsp/libspeexdsp/mdf.c:750-768 | de-emphasis gives every far-end sample back and leaves off at the memory for the next frame |
| EchoCanceller.EchoState.ShiftFarEnd | shims/libamznaec/speexdsp/libspeexdsp/mdf.c:746-768 | the same for all interleaved speakers, each with its own memory |
| EchoCanceller.EchoState.ShiftSpectra | shims/libamznaec/speexdsp/libspeexdsp/mdf.c:770-781 | block j+1 takes what block j was, block 0 the spectrum of the window, for every speaker, in the source's order of copies |
| EchoCanceller.LineShifts | shims/libamznaec/speexdsp/libspeexdsp/mdf.c:770-781 | the shift keeps the line in step with a history that is one frame longer |
| EchoCanceller.EchoState.TakeFarEnd | shims/libamznaec/speexdsp/libspeexdsp/mdf.c:746-781 | keeps the invariant: block (j, speaker) is the spectrum of that speaker's window j calls ago |
| EchoCanceller.EchoState.FilterOutput | shims/libamznaec/speexdsp/libspeexdsp/mdf.c:790-797 | the output window of one microphone's filter, transformed back |
| EchoCanceller.EchoState.AdaptWeights | shims/libamznaec/speexdsp/libspeexdsp/mdf.c:808-824 | in every bin of every partition the new weight is the old one plus the rate times the power weight times the conjugate of X times the error |
| GradientStep.StepsBins | shims/libamznaec/speexdsp/libspeexdsp/mdf.c:816-818 | adding the weighted conjugate product moves every bin that way |
| GradientStep.StepShrinks | shims/libamznaec/speexdsp/libspeexdsp/mdf.c:807-824 | where the error is what the weights leave of a bin, the stepped weights leave it scaled by one less the step size times the power, so it shrinks when that product is between 0 and 2 |
| GradientStep.StepDescends | shims/libamznaec/speexdsp/libspeexdsp/mdf.c:807-824 | the same for every microphone and bin of the filter, over all its partitions and speakers |
| EchoCanceller.GradientSteps | shims/libamznaec/speexdsp/libspeexdsp/mdf.c:807-824 | all partitions of all microphones and speakers step that way |
| EchoCanceller.EchoState.ConstrainWeights | shims/libamznaec/speexdsp/libspeexdsp/mdf.c:826-865 | exactly the scheduled partitions are constrained, the others keep their weights |
| EchoCanceller.EchoState.Learn | shims/libamznaec/speexdsp/libspeexdsp/mdf.c:808-865 | both together |
| EchoCanceller.GradientPairs | shims/libamznaec/speexdsp/libspeexdsp/mdf.c:808-821 | the gradient pairs the previous call's error with exactly the spectra that the partition multiplied in that call |
| EchoCanceller.LearnedMeans | shims/libamznaec/speexdsp/libspeexdsp/mdf.c:807-865 | what a call learns: that step if there is one, with the old error and the spectra it came from, and for the scheduled partitions the first half of the impulse response with silence behind it |
| EchoFilter.VisitedCausal | shims/libamznaec/speexdsp/libspeexdsp/mdf.c:826-865 | a partition that the schedule visits is causal afterwards, and a causal one stays so |
| EchoFilter.FrozenBecomesCausal | shims/libamznaec/speexdsp/libspeexdsp/mdf.c:826-865 | after any M-1 consecutive calls without a gradient step every partition is causal |
| EchoFilter.LearnedFrozen | shims/libamznaec/speexdsp/libspeexdsp/mdf.c:808-865 | a call without a gradient step changes the weights by the schedule alone |
| EchoFilter.FrozenEchoIsFir | shims/libamznaec/speexdsp/libspeexdsp/mdf.c:790-932 | after M-1 calls that did not adapt, the last of which copied the background to the foreground, the next echo is the direct filter |
| EchoFilter.EchoIsFir | shims/libamznaec/speexdsp/libspeexdsp/mdf.c:790-801 | hence the echo estimate is the direct filter over the far-end history, up to the scale |
| EchoCanceller.EchoState.DecideAndMeasure | shims/libamznaec/speexdsp/libspeexdsp/mdf.c:873-1000 | each error spectrum is that of the microphone less the output of the weights that are kept; the two filters are exchanged as decided; the echo is the old foreground's, cross-faded when it is replaced |
| EchoCanceller.ResidualCompletes | shims/libamznaec/speexdsp/libspeexdsp/mdf.c:882-991 | the residual and the output add up to the microphone, behind one frame of silence |
| CrossFading.FadeWindow | shims/libamznaec/speexdsp/libspeexdsp/mdf.c:472-473 | the cross-fade window starts at zero and its halves add up to one |
| CrossFading.MixedFades | shims/libamznaec/speexdsp/libspeexdsp/mdf.c:926-929 | the cross-fade starts at the old output and moves towards the new one by the window, never outside the two |
| EchoCanceller.EchoState.Cancellation | shims/libamznaec/speexdsp/libspeexdsp/mdf.c:686-1036 | one whole call: keeps the delay-line invariant over any number of calls, learns by the step and the constraint from the old spectra and the old error, leaves the errors of the final weights, gives the old foreground's echo or its cross-fade into the new one, and ends with the last raw sample of every speaker in memory |
| EchoCanceller.EchoState.Reset | shims/libamznaec/speexdsp/libspeexdsp/mdf.c:524-580 | clears the extents that the source clears; the delay line is silent afterwards exactly when there is one speaker or the rest of it was silent before |
| EchoCanceller.ResetInStep | shims/libamznaec/speexdsp/libspeexdsp/mdf.c:545-569 | silent buffers are in step with an empty history |
| EchoCanceller.EchoState.constructor | shims/libamznaec/speexdsp/libspeexdsp/mdf.c:401-521 | a fresh state satisfies the invariant with everything silent |
| PlaybackQueue.EchoBuffer.constructor | shims/libamznaec/speexdsp/libspeexdsp/mdf.c:516-518 | starts as a queue of two silent frames |
| PlaybackQueue.EchoBuffer.Reset | shims/libamznaec/speexdsp/libspeexdsp/mdf.c:575-577 | empties the whole buffer and returns to two silent frames |
| PlaybackQueue.EchoBuffer.Capture | shims/libamznaec/speexdsp/libspeexdsp/mdf.c:630-651 | takes the oldest frame of the queue, also when the canceller resets the buffer in between; the corruption branch is never taken |
| PlaybackQueue.EchoBuffer.Playback | shims/libamznaec/speexdsp/libspeexdsp/mdf.c:653-677 | refines the queue: discard before the first capture and above three frames, append, duplicate when nearly empty; all indices stay inside |
| PlaybackQueue.EchoBuffer.DropFrame | shims/libamznaec/speexdsp/libspeexdsp/mdf.c:637-639 | shifting the samples down drops exactly the first frame |
| PlaybackQueue.RunBounds | shims/libamznaec/speexdsp/libspeexdsp/mdf.c:630-677 | on every sequence of calls the queue has at most three frames of full length |
| PlaybackQueue.FirstInFirstOut | shims/libamznaec/speexdsp/libspeexdsp/mdf.c:630-677 | between resets what the canceller was given, followed by what waits, is what waited at first followed by what was put in: twice into an empty queue, not at all into three frames |
| PlaybackQueue.AfterReset | shims/libamznaec/speexdsp/libspeexdsp/mdf.c:575-577 | a reset leaves two silent frames, one when it happens during a capture |
| PlaybackQueue.PlaybackDelay | shims/libamznaec/speexdsp/libspeexdsp/mdf.c:630-677 | with alternating calls every played frame is cancelled against exactly two captures later |
| OverlapAdd.ConjWindow | shims/libamznaec/speexdsp/libspeexdsp/preprocess.c:251-282 | every entry is a nonnegative root of the folded raised cosine, and for even lengths the squares half a window apart add to one |
| OverlapAdd.OppositePowers | shims/libamznaec/speexdsp/libspeexdsp/preprocess.c:251-282 | the four branches of the fold are complementary half a period apart |
| OverlapAdd.PowerShape | shims/libamznaec/speexdsp/libspeexdsp/preprocess.c:256-281 | the square of the window, a quarter at a time, is the squared half of one less the cosine, or one less that |
| OverlapAdd.UnitStep | shims/libamznaec/speexdsp/libspeexdsp/preprocess.c:939-989 | with unit gains a call emits the previous frame, sample for sample, and keeps the tail that the next one needs |
| OverlapAdd.FrameDelay | shims/libamznaec/speexdsp/libspeexdsp/preprocess.c:722-1007 | with noise suppression and gain control off the preprocessor is a one-frame delay for every sequence of frames |
| OverlapAdd.Word2IntExact | shims/libamznaec/speexdsp/libspeexdsp/arch.h:205-206 | rounding to 16 bits is the identity on 16-bit integers and clamps others |
| OverlapAdd.Word2IntNear | shims/libamznaec/speexdsp/libspeexdsp/arch.h:205-206 | within the limits other samples go to the nearest number |
| OverlapAdd.Preprocessor.Run | shims/libamznaec/speexdsp/libspeexdsp/preprocess.c:722-1007 | one call in place, for any gains: the windowed samples get the frame whose every bin is scaled by its gain, its first half under the window is added to the tail and rounded, its second half is the next tail; the previous frame comes out if every gain so far was one |
| OverlapAdd.Preprocessor.ApplyGains | shims/libamznaec/speexdsp/libspeexdsp/preprocess.c:939-946 | bin k of the spectrum that the buffer stands for is scaled by gain k, the middle bin by the last gain |
| OverlapAdd.GainsMeetBins | shims/libamznaec/speexdsp/libspeexdsp/preprocess.c:939-946 | entry by entry gains are bin by bin gains |
| OverlapAdd.CallEmits | shims/libamznaec/speexdsp/libspeexdsp/preprocess.c:722-989 | what a call emits and keeps, in terms of the spectra alone |
| OverlapAdd.OnlyThoseBins | shims/libamznaec/speexdsp/libspeexdsp/preprocess.c:939-956 | a gain of zero leaves nothing of its bin in the frame |
| OverlapAdd.Preprocessor.OverlapOut | shims/libamznaec/speexdsp/libspeexdsp/preprocess.c:981-989 | adds the old tail and keeps the new one |
| OverlapAdd.Preprocessor.constructor | shims/libamznaec/speexdsp/libspeexdsp/preprocess.c:444-497 | silent buffers and a power-complementary window |
| MinimumTracking.NoiseTracker.Smooth | shims/libamznaec/speexdsp/libspeexdsp/preprocess.c:666-670 | every bin is smoothed from the old value and its neighbours' power, a single bin twice; under flat power every bin keeps 0.8 of its distance, a single one 0.64 |
| MinimumTracking.SmoothedBetween | shims/libamznaec/speexdsp/libspeexdsp/preprocess.c:666-670 | smoothing is an average |
| MinimumTracking.FlatDecay | shims/libamznaec/speexdsp/libspeexdsp/preprocess.c:666-670 | under flat power every bin keeps 0.8 of its distance to it, a single one 0.64 |
| MinimumTracking.RaisedPower | shims/libamznaec/speexdsp/libspeexdsp/preprocess.c:666-670 | raising the power of one bin by d raises it by 0.1 d and inner neighbours by 0.05 d; the ends take 0.2 d of their own and nothing of a neighbour |
| MinimumTracking.Ranges | shims/libamznaec/speexdsp/libspeexdsp/preprocess.c:678-685 | the longest window grows at 100, 1000 and 10000 frames only |
| MinimumTracking.NoiseTracker.Update | shims/libamznaec/speexdsp/libspeexdsp/preprocess.c:660-711 | Stmp is the minimum of S over the current window and Smin over the current and the previous one, windows last 16 to 301 frames, Smin <= Stmp <= S |
| MinimumTracking.NoiseTracker.constructor | shims/libamznaec/speexdsp/libspeexdsp/preprocess.c:461-464 | the initial zeros count as the first spectrum |
| MinimumTracking.MinOverNext | shims/libamznaec/speexdsp/libspeexdsp/preprocess.c:688-703 | the running minimum extends by one spectrum |
| FilterBank.FilterbankNew | shims/libamznaec/speexdsp/libspeexdsp/filterbank.c:54-103 | every bin gets two neighbouring bands whose shares are in [0,1] and add to one, placed so that their centre is the bin's Bark position; the loop never stops early |
| FilterBank.BinFrequencyIs | shims/libamznaec/speexdsp/libspeexdsp/filterbank.c:61-80 | the bins divide the range up to half the sampling rate into equal steps |
| FilterBank.FindPlace | shims/libamznaec/speexdsp/libspeexdsp/filterbank.c:86-102 | the place and shares of one Bark value, including the top edge |
| FilterBank.ComputeBank32 | shims/libamznaec/speexdsp/libspeexdsp/filterbank.c:134-154 | the bands of a spectrum, in place |
| FilterBank.ComputePsd16 | shims/libamznaec/speexdsp/libspeexdsp/filterbank.c:156-169 | the bins of band values |
| FilterBank.RampGain | shims/libamznaec/speexdsp/libspeexdsp/filterbank.c:156-169 | spreading the band numbers puts every bin at its own place |
| FilterBank.Transposed | shims/libamznaec/speexdsp/libspeexdsp/filterbank.c:134-169 | the two maps are transposes of each other |
| FilterBank.EnergyConserved | shims/libamznaec/speexdsp/libspeexdsp/filterbank.c:134-154 | the bands hold exactly the energy of the spectrum |
| FilterBank.BandGainBetween | shims/libamznaec/speexdsp/libspeexdsp/filterbank.c:156-169 | gains between two bounds, such as [0,1], spread to gains between them |
| FixedPoint.SplitIsFloor | shims/libamznaec/speexdsp/libspeexdsp/fixed_generic.h:82 | for all 16-bit a and 32-bit b the split product is the floor of the wide one, reduced to 32 bits |
| FixedPoint.SplitIsRounded | shims/libamznaec/speexdsp/libspeexdsp/fixed_generic.h:81 | and the rounding version its rounded quotient |
| FixedPoint.SplitExact | shims/libamznaec/speexdsp/libspeexdsp/fixed_generic.h:81-82 | both are exact if and only if the operands are not both the most negative ones, in particular for |b| <= 2^30 |
| FixedPoint.SplitIsReference | shims/libamznaec/speexdsp/libspeexdsp/fixed_debug.h:289-325 | both equal the 64-bit reference on every pair of operands |
| FixedPoint.SuspiciousAt15 | shims/libamznaec/speexdsp/libspeexdsp/fixed_debug.h:289-325 | the reference complains about valid operands exactly for the most negative b, with rounding and without |
| FixedPoint.Debug.Mult16_32_QX | shims/libamznaec/speexdsp/libspeexdsp/fixed_debug.h:289-305 | without a complaint the result is the exact product rounded down, a complaint comes exactly for operands or results outside their ranges, and at 15 bits the result is the split product of the other build in any case |
| FixedPoint.Debug.Mult16_32_PX | shims/libamznaec/speexdsp/libspeexdsp/fixed_debug.h:307-325 | the same to the nearest number; six operations are counted, one of them for the rounding constant |
| FixedPoint.IntLog2 | shims/libamznaec/speexdsp/libspeexdsp/math_approx.h:64-92 | 2^r <= x < 2^(r+1) for every nonzero x, and 0 for 0 |
| FixedPoint.Log2Unique | shims/libamznaec/speexdsp/libspeexdsp/math_approx.h:64-92 | which determines r |
| PseudoFloat.FromInt | shims/libamznaec/speexdsp/libspeexdsp/pseudofloat.h:64-94 | every nonzero number above -2^31 becomes a normalised value of its sign holding its first 15 bits; -2^31 loses its sign |
| PseudoFloat.LeadingBits | shims/libamznaec/speexdsp/libspeexdsp/pseudofloat.h:78-79 | shifting by the logarithm less 14 leaves 15 significant bits |
| PseudoFloat.MultNormalised | shims/libamznaec/speexdsp/libspeexdsp/pseudofloat.h:185-206 | operands with the top bit in use have a normalised product of the right sign, close to the exact one, if and only if they are not both -32768 |
| PseudoFloat.MultOverflows | shims/libamznaec/speexdsp/libspeexdsp/pseudofloat.h:185-206 | because the square of -32768 wraps to itself |
| PseudoFloat.DivU | shims/libamznaec/speexdsp/libspeexdsp/pseudofloat.h:314-335 | for every dividend and divisor: at most 15 halvings, and the result is the quotient to within one unit if and only if the dividend mantissa is not -32768; normalised operands have a normalised quotient; a divisor that is not positive gives one |
| PseudoFloat.MostNegativeQuotient | shims/libamznaec/speexdsp/libspeexdsp/pseudofloat.h:314-335 | for every positive divisor the quotient of -32768 leaves 16 bits, and no 16-bit mantissa is near it |
| FrameBytes.PutOfGet | shims/libamznaec/amznaec_shim.cpp:270-281 | put24 after s24 is the identity on three bytes |
| FrameBytes.GetOfPut | shims/libamznaec/amznaec_shim.cpp:270-281 | s24 after put24 is the clamp |
| BlockMeaning.BytesOf | shims/libamznaec/amznaec_shim.cpp:270-273 | three bytes, the lowest first, in two's complement |
| FrameBytes.PutFOfGet | shims/libamznaec/amznaec_shim.cpp:315-321 | at unit gain a sample passes through the float conversion bit by bit |
| FrameBytes.GetOfPutF | shims/libamznaec/amznaec_shim.cpp:317-321 | otherwise putf is within one unit below full scale and saturates beyond |
| FrameBytes.ReadChannel | shims/libamznaec/amznaec_shim.cpp:387-391 | the samples of one interleaved channel |
| FrameBytes.WriteBack | shims/libamznaec/amznaec_shim.cpp:439-451 | the in-place loop replaces exactly the bytes of muted and processed microphones |
| FrameBytes.WrittenChannels | shims/libamznaec/amznaec_shim.cpp:439-451 | loopback and kept microphones keep their bytes, muted ones are silent, processed ones hold the processor's samples |
| BlockProcessor.MixSelected | shims/libamznaec/amznaec_shim.cpp:406-411 | the mean of the selected microphones |
| BlockProcessor.ReadReference | shims/libamznaec/amznaec_shim.cpp:390-397 | both loopback channels, clipped when asked for, and their mean |
| BlockProcessor.DispatchKeeps | shims/libamznaec/amznaec_shim.cpp:402-437 | a block changes the states of the processors but not which exist, and microphones without a processor keep their samples |
| BlockProcessor.EachToItsOwn | shims/libamznaec/amznaec_shim.cpp:414-421 | with separate processors every selected microphone gets its own processor's output for its own samples |
| BlockProcessor.BlockChannels | shims/libamznaec/amznaec_shim.cpp:385-451 | in every block that goes back, loopback bytes and those of unprocessed, unmuted microphones are untouched and muted ones silent |
| BlockMeaning.BlockCarried | shims/libamznaec/amznaec_shim.cpp:385-451 | every block carries the processors' output for its own bytes: in mode 0 each selected microphone its own processor's, or the first one Speex's; in mode 1 channel 0 the output for the mean of the selected microphones; in mode 2 that for all of them in order; amplified, unless muted; with the clipped loopback channels and their mean as the far end, and every processor one step further |
| BlockMeaning.OthersAreKept | shims/libamznaec/amznaec_shim.cpp:439-451 | all other bytes stay, and muted microphones are silent |
| BlockMeaning.BitsOf | shims/libamznaec/amznaec_shim.cpp:440-446 | the mask bits are the binary digits |
| CaptureShim.Session.constructor | shims/libamznaec/amznaec_shim.cpp:130-157 | a new state has no handle, no processors and empty queues |
| CaptureShim.Session.LiveInvariant | shims/libamznaec/amznaec_shim.cpp:478-591 | in every reachable state with a handle: one to four increasing microphones, a valid mode, exactly the processors that a block needs, and one block in the two queues together; without one nothing |
| CaptureShim.Session.TearDown | shims/libamznaec/amznaec_shim.cpp:253-268 | no handle, no processors, nothing queued |
| CaptureShim.Session.SelectMics | shims/libamznaec/amznaec_shim.cpp:492-495 | the set bits of the mask in increasing order, or microphone 0 |
| CaptureShim.ModeOf | shims/libamznaec/amznaec_shim.cpp:496-497 | modes 1 and 2 stand if two microphones are selected, everything else is mode 0 |
| CaptureShim.Session.MakeSpeex | shims/libamznaec/amznaec_shim.cpp:357-383 | succeeds when the canceller and, if wanted, the preprocessor can be made |
| CaptureShim.Session.MakeEach | shims/libamznaec/amznaec_shim.cpp:502-506 | one processor for each selected microphone, or failure |
| CaptureShim.Session.MakeProcessors | shims/libamznaec/amznaec_shim.cpp:499-510 | makes exactly what the mode needs, and succeeds if and only if all of it can be made |
| CaptureShim.Session.PcmOpen | shims/libamznaec/amznaec_shim.cpp:478-545 | passes the handle on; for the microphone stream the session becomes live if and only if it is enabled and its processors can be made, replacing any earlier one, with its selection, mode, mute, gain, clip and processors those of the settings; other streams touch nothing |
| CaptureShim.CreatableWhen | shims/libamznaec/amznaec_shim.cpp:499-510 | an enabled session goes live when everything can be made, and never without what its engine and mode call for |
| CaptureShim.MicPcmShape | shims/libamznaec/amznaec_shim.cpp:468-474 | exactly the six-channel 24-bit capture stream at 16 kHz is taken for the microphones |
| CaptureShim.Session.ProcessBlock | shims/libamznaec/amznaec_shim.cpp:385-451 | process_block_l in place: every processor it uses is present, every unmuted processed microphone leaves with the output for the samples that the mode feeds, and the processors have taken that step |
| CaptureShim.Session.RunProcessors | shims/libamznaec/amznaec_shim.cpp:402-437 | the branches of the dispatch, none of which meets a missing processor |
| CaptureShim.Session.DecideFates | shims/libamznaec/amznaec_shim.cpp:440-448 | which microphones are muted, replaced or kept |
| CaptureShim.Session.PcmRead | shims/libamznaec/amznaec_shim.cpp:547-580 | a read that failed, of another stream or of partial frames is passed on untouched; after any other the bytes returned since the open are the prefix of one silent block and the blockwise processed input; never an underrun |
| CaptureShim.Session.Reblock | shims/libamznaec/amznaec_shim.cpp:560-576 | the re-blocking loop, for any number of frames and any filling of the queues |
| CaptureShim.Session.PcmClose | shims/libamznaec/amznaec_shim.cpp:582-591 | closing the live handle tears the session down, closing another does nothing |
| CaptureShim.PromisedPrefix | shims/libamznaec/amznaec_shim.cpp:547-580 | what is promised for a stream only grows as input arrives, so it does not depend on how the reads are cut |
| CaptureShim.PromisedBlock | shims/libamznaec/amznaec_shim.cpp:527-580 | the promised stream is one block of zeros, then every block of the input carried by the processors as the blocks before left them |
| CaptureShim.BlockwiseExtends | shims/libamznaec/amznaec_shim.cpp:562-566 | earlier blocks do not depend on later input |
| AwbTrim.TrimProp | shims/libcmdqevent/cmdq_event_shim.c:393-406 | the leading digits modulo 2^32 if that is in 128..2048, else 512 |
| AwbTrim.TrimPropExact | shims/libcmdqevent/cmdq_event_shim.c:393-406 | wrapping matters exactly when what is left of a number above the word size lands in the accepted range away from 512 |
| AwbTrim.TrimPropWraps | shims/libcmdqevent/cmdq_event_shim.c:393-406 | a ten-digit string can pass for 400 |
| AwbTrim.MultiplierBetween | shims/libcmdqevent/cmdq_event_shim.c:472-485 | the multiplier lies between its anchors and meets them at both ends |
| AwbTrim.MultiplierMonotone | shims/libcmdqevent/cmdq_event_shim.c:472-485 | it moves monotonically with B |
| AwbTrim.NeutralGains | shims/libcmdqevent/cmdq_event_shim.c:472-487 | anchors of 512 are the identity |
| AwbTrim.ScaledPair | shims/libcmdqevent/cmdq_event_shim.c:476-487 | no 32-bit step wraps; red is scaled between the red anchors and blue between the blue ones: by the cool ones up to B 640, by the warm ones from 835 on |
| AwbTrim.ScalesBetween | shims/libcmdqevent/cmdq_event_shim.c:475-487 | a scaled gain lies between the products with its two anchors and meets them at both ends |
| AwbTrim.ScalesMonotone | shims/libcmdqevent/cmdq_event_shim.c:475-487 | warmer light moves it towards the warm anchor and never back |
| AwbTrim.ScalesUnique | shims/libcmdqevent/cmdq_event_shim.c:475-487 | anchors, gain and B determine it |
| AwbTrim.ScanCorrects | shims/libcmdqevent/cmdq_event_shim.c:457-496 | what a scan does to every word: visited pairs that were not written last are scaled between their own anchors and remembered, all others stay |
| AwbTrim.AnchorsAre | shims/libcmdqevent/cmdq_event_shim.c:441-446 | each of the four properties feeds its own anchor |
| AwbTrim.AwbHook.ScanWords | shims/libcmdqevent/cmdq_event_shim.c:458-496 | the loop over the words is the scan, with the memory it leaves |
| AwbTrim.AwbHook.HandleAwb | shims/libcmdqevent/cmdq_event_shim.c:408-501 | one call: the library's result passed on, the four properties read into their anchors every 64 calls, and every word and memory entry as `ScanCorrects` says, or nothing when all anchors are 512 |
| AwbTrim.SecondScan | shims/libcmdqevent/cmdq_event_shim.c:448-496 | if no written gain leaves the range or becomes 512, another scan with any trims changes no word and no memory |
| AwbTrim.SettledExactly | shims/libcmdqevent/cmdq_event_shim.c:448-496 | a scan with any trims leaves the words alone if and only if every triple that it visits still holds what was written last |
| AwbTrim.ScanUnchanged | shims/libcmdqevent/cmdq_event_shim.c:448-496 | for given trims, if and only if every such triple is its own value or is mapped to itself; the scan then leaves a settled buffer |
| AwbTrim.LeftAloneExactly | shims/libcmdqevent/cmdq_event_shim.c:441-496 | any number of further calls, with any properties, leave the words alone if and only if the buffer is settled, or settled for the current trims where these are still in force |
| AwbTrim.StayingSettles | shims/libcmdqevent/cmdq_event_shim.c:448-496 | a scan whose gains stay in range and apart from 512 leaves a settled buffer |
| AwbTrim.NoCompounding | shims/libcmdqevent/cmdq_event_shim.c:448-496 | so after a call that corrected with such gains, any number of further calls with any properties leave words and memory alone |
| AwbTrim.NeutralFirstCallForgets | shims/libcmdqevent/cmdq_event_shim.c:441-449 | a neutral call leaves a fresh triple unsettled, and a later one corrects it |
| AwbTrim.OutOfRangeCompounds | shims/libcmdqevent/cmdq_event_shim.c:460-468 | a buffer that a gain out of range leaves unsettled |
| AwbTrim.Becoming512Compounds | shims/libcmdqevent/cmdq_event_shim.c:460-468 | a buffer that a gain of 512 leaves unsettled |
| EventMap.LessTotal | tools/cmdq-trace/gen_event_map.py:58 | the order of names is total |
| EventMap.LessMeans | tools/cmdq-trace/gen_event_map.py:58 | the first differing character decides, and a proper prefix comes first |
| EventMap.SortNames | tools/cmdq-trace/gen_event_map.py:58 | every name once, in order |
| EventMap.EnumByDts | tools/cmdq-trace/gen_event_map.py:38-46 | the first nonnegative declaration of a name counts |
| EventMap.HwByDts | tools/cmdq-trace/gen_event_map.py:48-52 | the first property of a name counts |
| EventMap.EnumOfFirst | tools/cmdq-trace/gen_event_map.py:38-46 | the first declaration of a name counts whatever follows |
| EventMap.HwOfFirst | tools/cmdq-trace/gen_event_map.py:48-52 | and so does the first property |
| EventMap.Compose | tools/cmdq-trace/gen_event_map.py:57-62 | a hardware value is mapped if and only if some name has it and an index, and takes the index of the least such name |
| EventMap.ComposedUnique | tools/cmdq-trace/gen_event_map.py:57-62 | which determines the map |
| EventMap.EmitTable | tools/cmdq-trace/gen_event_map.py:64-76 | one entry up to the highest mapped value, -1 for the others, as C shorts |
| EventMap.Generate | tools/cmdq-trace/gen_event_map.py:39-85 | the whole generator |
| EventMap.ShortExact | tools/cmdq-trace/gen_event_map.py:64-76 | a value survives a C short exactly within its range |
| EventMap.DecodeExactly | tools/cmdq-trace/gen_event_map.py:16-22 | the kernel decodes an index to a hardware value if and only if the first declaration of that index names a property with it |
| EventMap.TableExact | tools/cmdq-trace/gen_event_map.py:64-76 | the table holds the composition if and only if every mapped index is at most 32767 |
| EventMap.TableCollides | tools/cmdq-trace/gen_event_map.py:64-76 | two mapped values share an entry if and only if their indices agree modulo 65536 |
| EventMap.TableInjective | tools/cmdq-trace/gen_event_map.py:39-76 | the table is injective on mapped values if and only if no two mapped indices agree modulo 65536 |
| EventMap.OnceInjective | tools/cmdq-trace/gen_event_map.py:39-76 | which holds for mapped indices that are declared once and fit |
| EventMap.EntryDecodes | tools/cmdq-trace/gen_event_map.py:39-76 | for any two files an entry leads back to its hardware value if and only if its index modulo 65536 is at most 32767 and the first declaration of what is left names that value |
| EventMap.TableDecodes | tools/cmdq-trace/gen_event_map.py:39-76 | where mapped indices are declared once and below 65536, if and only if the index is at most 32767; unmapped entries are negative |
| EventMap.RewriteEvents | shims/libcmdqevent/cmdq_event_shim.c:567-579 | the in-place loop rewrites every command by the same rule and counts the mapped ones |
| EventMap.MappedCounts | shims/libcmdqevent/cmdq_event_shim.c:570-578 | the count is the number of commands that wait on a mapped event |
| EventMap.RewriteExactly | shims/libcmdqevent/cmdq_event_shim.c:567-579 | for any two files: no other field and no other command changes, and the kernel waits on what the library asked for if and only if the first declaration of the index that it gets names that value |
| EventMap.RewriteFaithful | shims/libcmdqevent/cmdq_event_shim.c:567-579 | so with mapped indices declared once and at most 32767 the kernel waits on exactly the event the library asked for |
| EventMap.SharedIndexCollides | tools/cmdq-trace/gen_event_map.py:38-46 | two files that share an index send two values to one event |
| EventMap.LargeIndexTruncated | tools/cmdq-trace/gen_event_map.py:64-76 | two files with an index that a short cuts down to another one |

## Left out

- Float rounding: the properties are proved in exact arithmetic.
- The statistics of mdf.c (leak estimate, adaptation rate, two-path decision), the notch filter, de-emphasis and the conversion of the output to 16 bits: heuristics and simple filters around the modelled core.
- `cancel_count` is unbounded in the model; the source's int would overflow after 2^31 calls.
- EchoCanceller.EchoState.Reset: for several microphones or speakers the source clears only the extent of a single channel; the model does the same, and the delay line is then silent only as that row says.
- EchoCanceller.EchoState.Cancellation: calls the transforms as functions on blocks, where the source passes pointers into its buffers; that `FftWrap.SpxFft` and `FftWrap.SpxIfft` compute those functions in place is proved separately.
- PlaybackQueue: one speaker, as in the source's own use of the buffer.
- The gain formulas of preprocess.c, gain control, voice detection and speex_preprocess_estimate_update: the gains are inputs of `OverlapAdd`.
- The unused scaling array of filterbank.c and its floating-point twins.
- The addition, subtraction, comparison and square root of pseudofloat.h.
- WebRTC's processors, tinyalsa, properties, logging, replay and dump files, microphone geometry, level statistics, and locking: the session is modelled as one thread sees it.
- The 16-bit conversions and the high-pass filter of run_speex: part of the abstract processor step.
- Reading and writing the text of the header, the device tree and the generated table: the declarations, properties and entries are values.
- The kernel's own decoding is modelled as index to name to property, as the generator's comment describes it; the kernel is not part of this repository.
- Other ioctl handling of cmdq_event_shim.c (tracing, sensor overrides, dumps), smallft.c and the other transform back ends, dpframework_adapter.cpp and camera_shim.cpp, tools that only do device I/O, patches and scripts.
