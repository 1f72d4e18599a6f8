# Verified model of the speech codec, its modem and its tools

This project models the bit-level, integer and exact-real logic of the Codec 2 speech codec, the FDMDV modem around
it, its Golay error correction, its fast Fourier transform and its amplitude-quantiser experiments (`jni/codec2`),
and the configuration reader of the ad-hoc installer (`jni/adhoc-edify`). `dafny verify dfyconfig.toml` checks it.

| part of the system | modules |
|---|---|
| fast Fourier transform | `Fourier`, `Butterfly`, `KissFft`, `OddRadix`, `RadixSearch`, `FftRecursion`, `FftInverse`, `Complex`, `ComplexFft` |
| Golay code and error-correction framing | `Combinations`, `GolayCode`, `GolayTables`, `Fec`, `ProtectedLink` |
| modem bit path | `Bits`, `BytePacking`, `Interleaver`, `Dqpsk`, `FreqSync`, `FramePairing`, `ModemLink` |
| codec frames and codec state | `FieldPacker`, `FrameLayout`, `JointVq`, `ScalarQuantiser`, `Interpolation`, `Duplex`, `Decoding`, `FrameLink`, `Limiter` |
| amplitude quantiser | `SplitVq`, `GainShape`, `HarmonicBins`, `AmpPipeline`, `SmoothAmp` |
| configuration reader | `ConfigText`, `ConfigScanner` |
| fixed-point arithmetic and its range | `FixedPoint`, `FixedRange`, `FixedFft` |
| error channel | `ErrorChannel` |

The main results, each for all inputs or all runs:

- `ComplexFft.Fft`: the in-place mixed-radix program computes the discrete Fourier transform, for every length, and
  `ComplexFft.RoundTrip`: forwards and back multiplies every value by the length.
- `GolayTables.Golay23.Decode`: every 23-bit word decodes to the one codeword within three errors of it. The code's
  minimum distance of 7 and its perfection are proved, and so is the enumeration that fills the table.
- `ProtectedLink.ProtectedDelivery` and `ProtectedLink.FieldsRecovered`: over whole runs of the modem, three errors
  in each protected block of every frame, anywhere among its data and parity bits, are undone, down to the codec's
  fields.
- `FixedFft.TransformStays`: no value of a fixed-point transform of any length leaves the sample range, if its
  samples lie in a disc that is smaller than the range by 2k + 3 per stage of radix k.
- `ModemLink.CleanLink`: whatever the receiver's initial state and whatever gain and phase each carrier suffers, as
  long as none drifts out of its quadrant between two frames, every codec frame from the fifth on is delivered, in
  order and intact. `Dqpsk.PairRecoveredIff` says exactly which drifts a decision survives.
- `Interleaver.FileRoundTrip` and `Interleaver.UndoableIffInjective`: interleaving is undone by the inverse table,
  and exactly the permutations can be undone.
- `Duplex.NoInterference` and `FrameLink.PackedFrameInStep`: one codec state serves an encoder and a decoder in any
  interleaving as two states would, and the two ends' predictors stay equal through the packed bytes.
- `Decoding.EnergySteps`, `Decoding.PitchSteps` and `Decoding.LspSteps`: in every mode, and on from call to call, what
  is decoded advances in equal steps between the frames that carry it. `Decoding.NearestArrives`: what a frame carries
  arrives as near to the analysis as any index could bring it; `Decoding.PitchAlwaysInRange`: no bits received, over
  any run, take the pitch out of range.
- `ConfigScanner.GetCfg`: the destructive scanner computes the meaning of the text, whatever it overwrites, and
  `ConfigText.TextIsFile`: every text is a file of pairs, comments, blank and malformed lines with that meaning.
- `SplitVq.SplitIsExhaustive` and `AmpPipeline.QuantisedBest`: five independent searches find the optimum over all
  combinations of codewords, under the weights of the frame's own harmonics and no others.

Floats are exact reals. Signal-processing kernels other than the transform, the quantisers, the interpolators and the
limiter are functions of exactly the arguments passed to them; the two that draw random phases also read and move the
generator of `codec2_rand()`, which all codecs of a process share. The error channel's random draws, file contents and
the values that uninitialised memory holds are parameters. Words are unbounded; where a C type could overflow or
truncate the bound is written out or proved.

Where the code and its own words disagree, the model follows the code:

- `pack.c:99` says the Gray decoding works for at most 8 bits; it works for exactly 16 (`FieldPacker.GrayRoundTripIff`).
- In the 1600 bit/s mode the documented spare-bit index is 15, which is the fourth voicing bit; the third one is at
  14 (`FrameLayout.SpareIndexRightIff`, `FrameLayout.Rebuild1600`, `FrameLayout.Rebuild1600Changes`).
- `ear_protection` looks at positive peaks only, so it does not bound negative samples; the exact condition is
  `Limiter.NegativeSideIff`, and `Limiter.NegativePeakKept` is a frame that fails it.
- The fixed-point scaling keeps sums in range, but not sums of samples rotated by a twiddle factor: a corner of the
  range overflows (`FixedPoint.TwiddleOverflow`). The exact condition is `FixedFft.ButterflyTwoIff`; that the rotated
  samples lie in the disc r*r + i*i <= SAMP_MAX*SAMP_MAX is enough for a stage of radix 2 or 4
  (`FixedFft.FullScaleTwo`, `FixedFft.FullScaleFour`), and a slightly smaller disc for a whole transform.
- `defines.h` gives `TWO_PI` as 6.283185307, less than twice its `PI`; both constants are taken as written.
- In the 2000 bit/s mode `fec_enc` never writes the last two bits of the modem frame, so the model promises nothing
  about them.
- A configuration file of newlines only makes the first `strtok` return NULL, which is then dereferenced; the model
  reports this outcome as `NullLine` and says exactly when it happens (`ConfigText.RenderLookup`).

## Model

| member | source | states |
|---|---|---|
| `Fourier.CooleyTukey` | jni/codec2/kiss_fft.c:236-302 | A sum of p*m terms with any step equals the p interleaved sums of m terms, each turned into place: the identity the recursion rests on, over any commutative ring |
| `Fourier.SumPeriod` | jni/codec2/kiss_fft.c:204-235 | Steps that differ by a multiple of the period give the same transform value, so sub-transforms may be reused cyclically |
| `Butterfly.StageIsTransform` | jni/codec2/kiss_fft.c:204-302 | A block that holds the p interleaved transforms becomes, after one finished stage, the transform of the whole block, value by value |
| `Butterfly.ColumnUpdate` | jni/codec2/kiss_fft.c:218-232 | A write at u + i*m changes one entry of column u and no other column |
| `KissFft.Bfly2` | jni/codec2/kiss_fft.c:20-42 | The radix-2 loop turns every column into the stage outputs and touches nothing outside its block |
| `KissFft.Bfly4` | jni/codec2/kiss_fft.c:44-90 | The radix-4 loop, with its shared sums and multiplication-free quarter turns, computes the same stage outputs as the general definition |
| `KissFft.MixedFour` | jni/codec2/kiss_fft.c:58-89 | The four values of the radix-4 butterfly are the four sums of turned entries |
| `KissFft.MixedTwo` | jni/codec2/kiss_fft.c:31-41 | The two values of the radix-2 butterfly are the two sums of turned entries |
| `KissFft.OneOutput` | jni/codec2/kiss_fft.c:222-231 | The running twiddle index, reduced by one subtraction, selects the power it stands for; the accumulated value is the stage output |
| `KissFft.BflyGeneric` | jni/codec2/kiss_fft.c:197-235 | The butterfly of any radix overwrites each column, through its scratch copy, by the stage outputs |
| `OddRadix.Pair` | jni/codec2/kiss_fft.c:162-190 | A power and its opposite power act together through the real part on the sum and the imaginary part on the difference |
| `OddRadix.MixedThree` | jni/codec2/kiss_fft.c:111-130 | The three values of the radix-3 butterfly, made with one half and one imaginary part, are the three sums of turned entries |
| `OddRadix.Bfly3` | jni/codec2/kiss_fft.c:92-134 | The radix-3 loop turns every column into the stage outputs and touches nothing outside its block |
| `OddRadix.MixedFive` | jni/codec2/kiss_fft.c:162-190 | The five values of the radix-5 butterfly, made from the parts of two powers, are the five sums of turned entries |
| `OddRadix.Bfly5` | jni/codec2/kiss_fft.c:136-195 | The radix-5 loop turns every column into the stage outputs and touches nothing outside its block |
| `FftRecursion.KfWork` | jni/codec2/kiss_fft.c:237-302 | For any factor list the block at o becomes the n-point transform of the strided input; nothing outside it changes |
| `RadixSearch.FindRadix` | jni/codec2/kiss_fft.c:316-325 | The search for the next radix ends, whatever the square-root bound, with a divisor: the first of the trials that is one |
| `RadixSearch.FoundInOrder` | jni/codec2/kiss_fft.c:315-325 | With the right bound, the radix found is 4 or prime, and no radix tried before it divides the rest |
| `RadixSearch.RestIsPrime` | jni/codec2/kiss_fft.c:323-324 | What is left when the trials pass the square root is prime |
| `FftRecursion.KfFactor` | jni/codec2/kiss_fft.c:304-330 | The factor buffer lists radix and rest pairs whose products lead from the length down to 1; the radices are fours, then twos, then odd primes in increasing order |
| `FftRecursion.Transform` | jni/codec2/kiss_fft.c:371-388 | The output is the transform of the original input, also when input and output are the same array |
| `FftInverse.RootsCancel` | jni/codec2/kiss_fft.c:356-362 | The n powers of a root other than 1 add up to zero |
| `FftInverse.InverseUndoes` | jni/codec2/kiss_fft.c:356-362 | With conjugate powers the transform of the transform is n times the input |
| `ComplexFft.NumbersAreRing` | jni/codec2/_kiss_fft_guts.h:87-117 | The complex macros satisfy every ring law the transform uses |
| `ComplexFft.ConfiguredIsExact` | jni/codec2/kiss_fft.c:356-362 | A table of the exact powers makes a configuration in which half a turn is -1, the swap of parts is a quarter turn in either direction, a third of a turn has real part -1/2 and opposite powers are conjugate |
| `ComplexFft.Fft` | jni/codec2/kiss_fft.c:340-388 | For every length, allocation and transform together yield the discrete Fourier transform |
| `ComplexFft.RoundTrip` | jni/codec2/kiss_fft.c:340-388 | Forward and inverse transform in sequence multiply every value by the number of points |
| `Combinations.NextComb` | jni/codec2/golay23.c:116-132 | The array becomes the next subset in lexicographic order: exactly one fewer subset follows it, for every n and r |
| `Combinations.AfterInjective` | jni/codec2/golay23.c:116-132 | A subset is determined by its size and the number of subsets after it, so the enumeration never repeats |
| `Combinations.Successor` | jni/codec2/golay23.c:123-131 | Moving up the last entry with room and packing the rest behind it is the successor |
| `GolayCode.ProductBit` | jni/codec2/golay23.c:67-70 | The coefficients of a multiple of the generator are those of the polynomial product |
| `GolayCode.Linear` | jni/codec2/golay23.c:134-154 | Multiples add up modulo 2 |
| `GolayCode.MinimumDistance` | jni/codec2/golay23.c:19-33 | Every codeword but zero has at least seven non-zero bits |
| `GolayCode.NearestUnique` | jni/codec2/golay23.c:23-33 | At most one codeword lies within three errors of any word |
| `GolayCode.GetSyndrome` | jni/codec2/golay23.c:134-154 | The shift-and-subtract loops end with a remainder below x^11, and word plus remainder is a codeword |
| `GolayTables.ArrToInt` | jni/codec2/golay23.c:97-114 | The word has a term in exactly the listed places |
| `GolayTables.WordInjective` | jni/codec2/golay23.c:97-114 | Different places give different error patterns |
| `GolayTables.NewPlace` | jni/codec2/golay23.c:201-228 | Distinct patterns of up to three errors have distinct remainders, so no table entry is overwritten |
| `GolayTables.FillSingles` | jni/codec2/golay23.c:201-207 | The single-error loop files 24 patterns under their remainders |
| `GolayTables.FillOfWeight` | jni/codec2/golay23.c:211-228 | 253 and 1771 steps of the enumeration file every pattern of two and three errors under its own remainder |
| `GolayTables.FillDecodingTable` | jni/codec2/golay23.c:201-228 | Afterwards every one of the 2048 remainders holds a pattern of at most three errors: the code is perfect |
| `GolayTables.FillEncodingTable` | jni/codec2/golay23.c:184-187 | Each entry is a codeword whose upper twelve bits are its index |
| `GolayTables.Golay23.constructor` | jni/codec2/golay23.c:86-88 | The tables start out zero and unusable |
| `GolayTables.Golay23.Init` | jni/codec2/golay23.c:166-232 | Establishes both tables |
| `GolayTables.Golay23.Encode` | jni/codec2/golay23.c:245-251 | Returns a codeword that starts with the data |
| `GolayTables.Golay23.Decode` | jni/codec2/golay23.c:264-268 | Returns, for every 23-bit word, a codeword within three errors, and the only one |
| `GolayTables.CorrectsThree` | jni/codec2/golay23.c:285-316 | Whatever up to three bits of a codeword are flipped, the decoded word is the codeword |
| `GolayTables.CountErrors` | jni/codec2/golay23.c:270-283 | Counts the differing bits |
| `Fec.AddFec2000` | jni/codec2/fec_enc.c:153-192 | The frame is followed by parity bits that complete each of its two blocks to a codeword |
| `Fec.AddFec1850` | jni/codec2/fec_enc.c:194-237 | The same for the excitation and spectrum blocks, with zero padding |
| `Fec.AddFec1600` | jni/codec2/fec_enc.c:239-268 | The same for the excitation block, with one zero bit |
| `Fec.RemoveFec2000` | jni/codec2/fec_dec.c:154-197 | Each block is replaced by the data of a codeword within three errors of what was received; other bits pass through |
| `Fec.RemoveFec1600` | jni/codec2/fec_dec.c:199-226 | The same for the excitation block, whose data bits are two separate runs |
| `Fec.RemoveFec1850` | jni/codec2/fec_dec.c:228-271 | The same for both blocks |
| `Fec.BlockRecovered` | jni/codec2/fec_dec.c:154-271 | Three errors among the 23 bits of a block are undone, whatever the rest of the frame suffered |
| `Fec.FrameRecovered` | jni/codec2/fec_dec.c:154-271 | A frame with at most three errors per block and none elsewhere comes back whole |
| `ProtectedLink.FieldsRecovered` | jni/codec2/fec_dec.c:133-290 | Codec fields packed, protected, received with up to three wrong bits per block, corrected and packed again are read back unchanged |
| `ProtectedLink.HalvesOfFile` | jni/codec2/fdmdv_mod.c:105-127 | The modem sends each protected frame of the file as its two halves |
| `ProtectedLink.ProtectedDelivery` | jni/codec2/fec_dec.c:133-290 | Over a whole run of the modem, from the first reliable bit on, the correction program writes exactly the codec frames that were protected, in order, with up to three wrong bits per block in every frame |
| `BytePacking.Unpack` | jni/codec2/fdmdv_interleave.c:115-126 | The loop with its running bit and byte counters spreads each byte most significant bit first |
| `BytePacking.Pack` | jni/codec2/fdmdv_interleave.c:133-145 | The or-ing loop writes bytes whose bits are the given ones |
| `BytePacking.BitsOfBytes` | jni/codec2/fdmdv_interleave.c:115-145 | Unpacking what was packed returns every bit string of whole bytes |
| `BytePacking.BytesOfBits` | jni/codec2/fdmdv_interleave.c:115-145 | Packing what was unpacked returns every byte string |
| `Interleaver.LoadInterleaver` | jni/codec2/fdmdv_interleave.c:76-101 | Accepts fewer than the maximum of entries in whole bytes; forwards it stores the entries, backwards a right inverse, which is the inverse table for a permutation |
| `Interleaver.ProcessBlock` | jni/codec2/fdmdv_interleave.c:115-145 | In place, bit i of the block becomes what bit t[i] was |
| `Interleaver.Run` | jni/codec2/fdmdv_interleave.c:112-148 | The output has the whole blocks of the input and drops a partial one; in each block, bit i is bit t[i] of that block of the input |
| `Interleaver.BlockBits` | jni/codec2/fdmdv_interleave.c:128-131 | Bit i of a scrambled block is bit t[i] of the block |
| `Interleaver.ScrambledBits` | jni/codec2/fdmdv_interleave.c:112-148 | So it is in every block of a file of any length, and the length is that of the whole blocks |
| `Interleaver.InverseIsTable` | jni/codec2/fdmdv_interleave.c:83-95 | A table filled backwards from a permutation is the inverse permutation |
| `Interleaver.BlockRoundTrip` | jni/codec2/fdmdv_interleave.c:128-131 | A block scrambled with a table and then with its inverse is unchanged |
| `Interleaver.FileRoundTrip` | jni/codec2/fdmdv_interleave.c:112-148 | Both programs in sequence restore every whole block of any file and drop only the partial one |
| `Interleaver.UndoableIffInjective` | jni/codec2/fdmdv_interleave.c:128-131 | Some table undoes a table if and only if it is injective |
| `Dqpsk.BitsToDqpskSymbols` | jni/codec2/fdmdv.c:332-373 | The symbols of a frame, in both bit mappings, and the alternating pilot |
| `Dqpsk.QpskToBits` | jni/codec2/fdmdv.c:997-1067 | The decided bits, the pilot decision and the frequency error of a frame |
| `Dqpsk.SymbolPower` | jni/codec2/fdmdv.c:332-373 | Modulation keeps the power of a carrier |
| `Dqpsk.MappingIs` | jni/codec2/fdmdv.c:343-358 | The old mapping counts the quarter turns in binary, the new one in Gray code |
| `Dqpsk.NeighbourCostsOneBit` | jni/codec2/fdmdv.c:1018-1045 | With the new mapping a carrier that slips into a neighbouring quadrant costs exactly one of its two bits |
| `Dqpsk.PairRecoveredIff` | jni/codec2/fdmdv.c:997-1067 | Whatever the channel does to a carrier between two frames, and in either mapping, the bit pair is decided right if and only if the drift, turned by 45 degrees, stays in the first quadrant, with the edges as the comparisons put them |
| `Dqpsk.PilotRecoveredIff` | jni/codec2/fdmdv.c:1049-1066 | The pilot is decided right if and only if its drift stays in the right half plane |
| `Dqpsk.FrequencyError` | jni/codec2/fdmdv.c:1049-1066 | The frequency error fed back is the opposite of the drift's imaginary part, scaled by a power, whichever pilot bit was sent |
| `Dqpsk.FrameRecoveredIff` | jni/codec2/fdmdv.c:997-1047 | The bits of a frame are those sent if and only if every carrier keeps to its quadrant |
| `Dqpsk.SteadyTracks` | jni/codec2/fdmdv.c:997-1067 | Any steady gains, however large or turned, are within these limits |
| `Dqpsk.FrameRecovered` | jni/codec2/fdmdv.c:997-1067 | As long as no carrier drifts out of its quadrant, all bits and the pilot of a frame are recovered |
| `ModemLink.CarriersUnit` | jni/codec2/fdmdv.c:332-373 | Over any run of modem frames every transmitted carrier keeps unit power |
| `FreqSync.FreqState.Step` | jni/codec2/fdmdv.c:1198-1259 | One call: memory shift, unique-word test and state table; the reliable bit is raised on the one phase only |
| `FreqSync.FullCorrelation` | jni/codec2/fdmdv.c:1208-1213 | The correlation reaches plus or minus six exactly on the two phases of the pattern |
| `FreqSync.AlternatesIff` | jni/codec2/fdmdv.c:1208-1213 | The unique word is seen if and only if six signs alternate |
| `FreqSync.Window` | jni/codec2/fdmdv.c:1205-1207 | After any run the memory holds the last six pilot decisions |
| `FreqSync.ReliableOnSecondHalf` | jni/codec2/fdmdv.c:1208-1213 | If no six decisions in a row are all wrong, the reliable bit is raised on second halves only, and not before frame 5 |
| `FreqSync.ReliableWhenRight` | jni/codec2/fdmdv.c:1208-1213 | Six right decisions that end on a second half raise it |
| `FreqSync.SyncKeptIff` | jni/codec2/fdmdv.c:1217-1249 | Good sync is lost if and only if the unique word is missing from 51 consecutive frames |
| `FreqSync.GoodSyncNeeds26` | jni/codec2/fdmdv.c:1217-1249 | From out of sync, good sync is reached if and only if 26 consecutive frames show the word |
| `FramePairing.Transmit` | jni/codec2/fdmdv_mod.c:105-127 | Each codec frame is sent as its two halves, in order |
| `FramePairing.Deframer.Receive` | jni/codec2/fdmdv_demod.c:181-208 | One received half updates the pairing state and buffers in place and writes a frame as the state function says |
| `FramePairing.InStep` | jni/codec2/fdmdv_demod.c:181-208 | In step, the frames written are exactly the consecutive pairs |
| `FramePairing.ReliableResets` | jni/codec2/fdmdv_demod.c:181-208 | A reliable bit leaves the receiver waiting for a first half, from any state |
| `FramePairing.LockedOutput` | jni/codec2/fdmdv_demod.c:181-208 | From the first reliable bit on, the halves come out paired as sent: none lost, repeated or mis-paired |
| `FramePairing.OutOfStep` | jni/codec2/fdmdv_demod.c:181-208 | Without the reliable bit a receiver that starts out of step never recovers |
| `FramePairing.PairsOfHalves` | jni/codec2/fdmdv_mod.c:105-127 | The pairs of the transmitted halves are the codec frames |
| `ModemLink.FileDelivered` | jni/codec2/fdmdv_demod.c:181-208 | For any file, any receiver state and any reliable bits raised on second halves only, the frames sent after the first such bit are written in order |
| `ModemLink.TrackedFileDelivered` | jni/codec2/fdmdv_demod.c:181-208 | The bits of the pilot tracker are such bits when no six pilot decisions in a row are all wrong |
| `ModemLink.LockedBySeven` | jni/codec2/fdmdv_demod.c:181-208 | Right decisions from the second half on lock the receiver by the eighth |
| `ModemLink.CleanLink` | jni/codec2/fdmdv_demod.c:181-208 | Over carriers scaled and turned by unknown amounts that may drift from frame to frame, every codec frame from the fifth on is delivered |
| `ModemLink.SteadyChannel` | jni/codec2/fdmdv_demod.c:181-208 | A channel without drift is one of these, whatever its gains |
| `FieldPacker.PackField` | jni/codec2/pack.c:48-72 | The field is or-ed in Gray code into its bits, across byte boundaries, and no other bit changes |
| `FieldPacker.UnpackField` | jni/codec2/pack.c:78-105 | The value is the Gray-decoded number spelled by the bits |
| `FieldPacker.FoldTwice` | jni/codec2/pack.c:99-104 | Folding twice by n is folding once by 2n, the reason the decoding steps work |
| `FieldPacker.GrayRoundTripIff` | jni/codec2/pack.c:55-104 | Decoding recovers a value if and only if it is below 65536 |
| `FieldPacker.FieldRoundTrip` | jni/codec2/pack.c:48-105 | A field written into cleared bits, at any offset of any buffer, reads back if and only if it is below 65536 |
| `FieldPacker.GrayNeighbours` | jni/codec2/pack.c:32-36 | Neighbouring values differ in one bit |
| `FrameLayout.WriteFields` | jni/codec2/codec2.c:304-340 | Clearing and packing in sequence leaves exactly the bit string of the fields, and zeros after it |
| `FrameLayout.ReadFields` | jni/codec2/codec2.c:353-383 | Unpacking in sequence reads each field at its offset |
| `FrameLayout.FieldReadBack` | jni/codec2/codec2.c:304-423 | Any list of fields is read back as it was written |
| `FrameLayout.LayoutAgrees` | jni/codec2/codec2.c:180-195 | In each of the six modes the encoder writes the decoder's fields, then the spare ones, and exactly the bits per frame |
| `FrameLayout.FrameRoundTrip` | jni/codec2/codec2.c:304-1287 | In every mode the decoder recovers every index packed; only spare fields go unread |
| `FrameLayout.RebuildSpareBit` | jni/codec2/codec2.c:1468-1514 | Returns 0 exactly in the three modes with an index, and rewrites one bit |
| `FrameLayout.SpareIndexRightIff` | jni/codec2/codec2.c:1444-1461 | The index is the third voicing bit's offset in 1300 and 1400 and not in 1600, where it is the fourth's |
| `FrameLayout.RebuildIsRight` | jni/codec2/codec2.c:1468-1514 | In 1300 and 1400 the third voicing field becomes v1 or v3 and every other field is kept |
| `FrameLayout.Rebuild1600` | jni/codec2/codec2.c:1501-1508 | In 1600 the third voicing field is never touched, and the fourth is kept if and only if it already was v1 or the top pitch bit |
| `FrameLayout.Rebuild1600Changes` | jni/codec2/codec2.c:1501-1508 | A frame of mode 1600 whose fourth voicing field the call changes |
| `JointVq.FindNearest` | jni/codec2/quantise.c:472-490 | The first entry with the least weighted distance |
| `JointVq.WeightLaw` | jni/codec2/quantise.c:1780-1821 | From 900 and 1 the weights move by 0.36 and 0.09 below 0 dB, 0.09 each below -10 dB, 4 and 2.25 for a stable pitch, 0.25 on the pitch for an unstable one, 0.25 on the energy per fall of 10 and of 20 dB |
| `JointVq.PitchDominates` | jni/codec2/quantise.c:1780-1821 | Both weights are positive and the pitch weighs at least 225 times as much as the energy, whatever the frames |
| `JointVq.StablePitchWeighs` | jni/codec2/quantise.c:1795-1802 | Between a stable and an unstable pitch, all else equal, the pitch weight differs by a factor of 16 |
| `JointVq.DistParts` | jni/codec2/quantise.c:479-483 | Each weight scales the squared deviation of its own coordinate |
| `JointVq.Choose` | jni/codec2/quantise.c:1901-1931 | The index is inside the table and no entry is nearer to the prediction residual, under the weights of the level and its changes |
| `JointVq.EncodeWoE` | jni/codec2/quantise.c:1901-1931 | No entry decodes to a state nearer to the target under its weights, and the predictor is moved by the chosen one |
| `JointVq.DecodeWoE` | jni/codec2/quantise.c:1946-1973 | The predictor moved by the index; a pitch in range is kept, any other clamped; 10 to 80 harmonics whatever was received |
| `JointVq.ClampNearest` | jni/codec2/quantise.c:1962-1969 | The clamped pitch is the nearest one in range, and a pitch in range is kept |
| `JointVq.PitchScale` | jni/codec2/quantise.c:1901-1973 | The encoder's pitch scale undoes the decoder's |
| `JointVq.EnergyScale` | jni/codec2/quantise.c:1913-1916 | The encoder's energy scale undoes the decoder's above its floor of -40 dB; a negative energy counts as none |
| `JointVq.SearchIsBySynthesis` | jni/codec2/quantise.c:1917-1926 | Searching the residual finds the entry whose decoded value is nearest |
| `JointVq.Convergence` | jni/codec2/quantise.c:1919-1958 | Predictors that see the same indexes differ by the initial difference times 0.8^n and 0.9^n |
| `JointVq.InStepForEver` | jni/codec2/quantise.c:1919-1958 | They are equal after any indexes if and only if they were equal before |
| `ScalarQuantiser.LevelKept` | jni/codec2/quantise.c:1032-1068 | Encoding a decoded pitch or level index gives the index back |
| `ScalarQuantiser.Nearest` | jni/codec2/quantise.c:1704-1742 | No index decodes nearer to the value than the one that is sent, inside the range and outside it |
| `ScalarQuantiser.DecodedInRange` | jni/codec2/quantise.c:1057-1068 | A decoded value is at least the minimum and a step or more below the maximum |
| `Interpolation.InterpolateLsps` | jni/codec2/interp.c:316-322 | Every frequency becomes the weighted mean of the two frames' |
| `Interpolation.MixSteps` | jni/codec2/interp.c:299-322 | Equal steps of the weight are equal steps of the value |
| `Interpolation.PitchRules` | jni/codec2/interp.c:240-267 | A frame stays voiced if and only if it and a neighbour are; its pitch is then between the neighbours' or the voiced one's, otherwise the lowest, and always in range |
| `Interpolation.OrderKept` | jni/codec2/interp.c:316-322 | Interpolated frequencies stay in order, with the gap both frames keep |
| `Duplex.Codec2.constructor` | jni/codec2/codec2.c:92-149 | Every field of a new codec: window, buffer, filter settings, memories, and equal predictors |
| `Duplex.Codec2.Encode` | jni/codec2/codec2.c:304-340 | All six encoder schedules: fields and new encoder state; nothing of the decoder is read or written |
| `Duplex.Codec2.Decode` | jni/codec2/codec2.c:353-423 | All six decoder schedules: samples, new decoder state and new state of the random generator; nothing of the encoder is read or written. What the value is: `Decoding` |
| `Duplex.Codec2.AnalyseOneFrame` | jni/codec2/codec2.c:1347-1387 | Analysis uses and moves the encoder's part only |
| `Duplex.Codec2.SynthesiseOneFrame` | jni/codec2/codec2.c:1300-1334 | Synthesis uses and moves the decoder's part and the random generator only |
| `Duplex.Codec2.SetPostFilter` | jni/codec2/codec2.c:1428-1436 | Sets the post filter and nothing else |
| `Duplex.NoInterference` | jni/codec2/codec2.c:84-88 | In any interleaving of calls each direction returns, and ends up, as if only its own calls had been made; no encode call disturbs the random draws of the synthesis |
| `Duplex.EncodedIsDecodable` | jni/codec2/codec2.c:1141-1287 | Every pitch, energy and joint index that the encoder puts into a frame is one of its table's |
| `Duplex.LinkInStep` | jni/codec2/codec2.c:451-569 | After every frame of any error-free conversation the two predictors are equal |
| `Decoding.Anchors` | jni/codec2/codec2.c:727-730 | Per mode, which frames carry pitch and energy and between which two the others are interpolated; in the 1600, 1400 and 1200 bit/s modes frame 2 lies between frames 1 and 3, in the 1300 bit/s mode all three between the calls |
| `Decoding.EnergySteps` | jni/codec2/codec2.c:1082-1086 | In every mode the level in dB advances by equal steps from one anchor to the next, and on from the previous call's |
| `Decoding.PitchSteps` | jni/codec2/codec2.c:900-903 | So does the pitch through voiced frames |
| `Decoding.VoicingRule` | jni/codec2/interp.c:240-267 | Between two anchors a voiced frame stays voiced if and only if one of them is; between an unvoiced and a voiced one it has the voiced one's pitch, and an unvoiced frame the lowest |
| `Decoding.LspSteps` | jni/codec2/codec2.c:1265-1268 | In every mode each line spectral frequency advances by equal steps from the previous call's to this call's |
| `Decoding.LspsInOrder` | jni/codec2/codec2.c:733-738 | They stay in order |
| `Decoding.LspsAlwaysInOrder` | jni/codec2/codec2.c:353-423 | Over any run of calls every frame is synthesised from frequencies in order, if the dequantisers deliver them in order |
| `Decoding.StartsInOrder` | jni/codec2/codec2.c:130-132 | A new codec's frequencies are in order, from 0 to 9/11 of PI in steps of PI/11 |
| `Decoding.Remembered` | jni/codec2/codec2.c:419-422 | The next call starts from the level, the frequencies and the predictor that this one ended with |
| `Decoding.SpokenInOrder` | jni/codec2/codec2.c:408-415 | The samples of a call are those of its frames in turn |
| `Decoding.MemoriesApart` | jni/codec2/codec2.c:1300-1334 | The excitation phase is moved by the phase synthesis only, the noise estimate by the post filter only |
| `Decoding.SpeechShape` | jni/codec2/codec2.c:206-222 | A call returns 160 or 320 samples, each between -32767 and 30000 |
| `Decoding.HeardInRange` | jni/codec2/quantise.c:1057-1068 | Every pitch that is decoded is in range, whatever was received |
| `Decoding.PitchAlwaysInRange` | jni/codec2/codec2.c:353-423 | So is every pitch the decoder remembers, over any run of calls and any bits received |
| `Decoding.Arrives` | jni/codec2/codec2.c:451-569 | A decoder in step hears every frame's voicing as analysed, and the pitch and energy of an anchor as the encoder quantised them |
| `Decoding.JointArrives` | jni/codec2/quantise.c:1946-1973 | In the joint modes the level heard in dB, and the pitch in octaves if in range, are the encoder's quantiser state |
| `Decoding.NearestArrives` | jni/codec2/codec2.c:304-423 | In the scalar modes no other index would bring the pitch heard, or its level in dB, nearer to the analysed one |
| `Decoding.WindowHolds` | jni/codec2/codec2.c:1347-1362 | After any number of frames the window holds the last 320 samples of all that has come in |
| `Decoding.SpectrumFromWindow` | jni/codec2/codec2.c:304-340 | The spectral indexes of a call are those of the window after its last frame |
| `FrameLink.ScheduleIsPlan` | jni/codec2/codec2.c:353-383 | What the 10 ms frames carry, followed by the spectral indexes, is exactly the decoder's schedule in each mode |
| `FrameLink.VoicingAt` | jni/codec2/codec2.c:1444-1461 | In the 40 ms modes the voicing bits are the first fields of their frames |
| `FrameLink.EncodedFits` | jni/codec2/codec2.c:304-340 | Every field the encoder produces fits its width |
| `FrameLink.AnyBytesDecode` | jni/codec2/codec2.c:501-569 | From any bytes whatever, every field read is within its width and every pitch, energy and joint index inside its table |
| `FrameLink.EncodeFrame` | jni/codec2/codec2.c:228-250 | The bytes hold the encoder's fields and spare zeros |
| `FrameLink.DecodeFrame` | jni/codec2/codec2.c:254-276 | Any buffer is decoded by its fields, which also move the random generator |
| `FrameLink.PackedFrameInStep` | jni/codec2/codec2.c:451-569 | Through the bytes the decoder gets the encoder's fields and both predictors stay equal |
| `Limiter.EarProtection` | jni/codec2/codec2.c:1401-1426 | The frame is scaled in place by the gain its peak calls for |
| `Limiter.LimitedShape` | jni/codec2/codec2.c:1401-1426 | No sample exceeds 30000; signs and order are kept |
| `Limiter.LimitedTwice` | jni/codec2/codec2.c:1401-1426 | Limiting twice is limiting once |
| `Limiter.PeakInverted` | jni/codec2/codec2.c:1401-1426 | A peak p above 30000 becomes 30000*30000/p |
| `Limiter.SameGain` | jni/codec2/codec2.c:1401-1426 | All samples of a frame keep their proportions |
| `Limiter.ToShortIs` | jni/codec2/codec2.c:1323-1332 | A sample becomes the integer next to it towards zero, or -32767 below that |
| `Limiter.NegativeSideIff` | jni/codec2/codec2.c:1407-1425 | A sample ends at or above -30000 if and only if it was above the bound its frame's peak gives |
| `Limiter.NegativePeakKept` | jni/codec2/codec2.c:1407-1425 | A sample of -40000 in a frame without a positive peak comes out as -40000 |
| `Limiter.Output` | jni/codec2/codec2.c:1323-1332 | Every output is the limited sample without its fraction, within -32767 and 30000, and the positive clip is never taken |
| `SplitVq.VqAmp` | jni/codec2/ampexp.c:403-432 | The first best codeword of a weighted search over the non-zero bins, its error added |
| `SplitVq.MetricAlone` | jni/codec2/ampexp.c:414-421 | A single weighted bin counts for its weighted squared deviation, or for nothing where the spectrum is zero |
| `SplitVq.MetricAdds` | jni/codec2/ampexp.c:414-421 | Weights add up, so the metric is the sum of its bins' |
| `SplitVq.ErrorUnweighted` | jni/codec2/ampexp.c:414-421 | The error is the metric without weights |
| `SplitVq.SplitStage` | jni/codec2/ampexp.c:435-454 | The chosen codeword moves from residual to output in its band; nothing else changes |
| `SplitVq.FiveStages` | jni/codec2/ampexp.c:574-579 | Five stages in sequence keep residual plus output equal to the original and search the untouched band each |
| `SplitVq.SplitIsExhaustive` | jni/codec2/ampexp.c:435-454 | No other tuple of codewords has less total weighted distortion than the five independent choices |
| `SplitVq.FiveStagesOptimal` | jni/codec2/ampexp.c:536-603 | What the calls leave behind is optimal, and each bin's residual plus output is the original |
| `GainShape.GainShapeVqAmp` | jni/codec2/ampexp.c:629-675 | Index, gain and error belong to the same codeword, the first minimiser of the weighted metric at the codewords' own gains |
| `GainShape.GainRaises` | jni/codec2/ampexp.c:656-668 | A gain acts as if every entry of the codeword were raised by it, in metric and error |
| `GainShape.GainIsOptimal` | jni/codec2/ampexp.c:640-655 | No gain gives less squared error; the shortfall is the count times the squared distance |
| `HarmonicBins.BinInRangeIff` | jni/codec2/ampexp.c:555-557 | The asserted index bound holds if and only if the harmonic is below PI |
| `HarmonicBins.DistinctIff` | jni/codec2/ampexp.c:553-561 | All harmonics fall into distinct bins if and only if l spacings reach l - 1 bins |
| `HarmonicBins.Store` | jni/codec2/ampexp.c:553-561 | The scatter loop, with overwriting |
| `HarmonicBins.StoredAt` | jni/codec2/ampexp.c:596-601 | Reading back gives the last harmonic stored in the bin |
| `HarmonicBins.LosslessIff` | jni/codec2/ampexp.c:553-601 | Scatter and gather return all values, for all values, if and only if the same condition holds |
| `AmpPipeline.SparseVqAmp` | jni/codec2/ampexp.c:536-603 | Pitch and phases are kept; the five indexes are the choices of the search for the frame's levels weighted by its amplitudes' powers; every harmonic gets its codeword's level raised by the frame's mean |
| `AmpPipeline.QuantiseSpectrum` | jni/codec2/ampexp.c:544-579 | Some weighting holds in the bin of every harmonic the weight of the last harmonic there, and each index is the one its stage's search picks under it |
| `AmpPipeline.AnyWeighting` | jni/codec2/ampexp.c:542-560 | What the bins without a harmonic weigh, which is never initialised, does not matter to the search |
| `AmpPipeline.QuantisedUnique` | jni/codec2/ampexp.c:536-603 | A frame has one outcome: it does not depend on uninitialised memory |
| `AmpPipeline.RecordedUnique` | jni/codec2/ampexp.c:1026-1092 | The same inputs leave the same slots behind, call after call |
| `AmpPipeline.QuantisedBest` | jni/codec2/ampexp.c:572-580 | No other five codewords represent the frame with less weighted distortion |
| `AmpPipeline.GainCancels` | jni/codec2/ampexp.c:546-601 | A harmonic's level comes back changed by its bin's quantisation error alone |
| `AmpPipeline.InterpStage` | jni/codec2/ampexp.c:748-760 | A stage writes the midpoint of two slots in its band where the input is not zero |
| `AmpPipeline.Interpolate` | jni/codec2/ampexp.c:763-851 | All bands of the frame in between |
| `AmpPipeline.MidpointInBand` | jni/codec2/ampexp.c:748-760 | Stages do not disturb each other: in a band the result is the midpoint of what the two slots quantised there |
| `AmpPipeline.AmpExperiment.constructor` | jni/codec2/ampexp.c:220-229 | The initial slots can be interpolated from |
| `AmpPipeline.AmpExperiment.Call` | jni/codec2/ampexp.c:1026-1092 | Over any run, call n returns the pitch, harmonic count and phases of call n - 1, interpolated at even counts between calls n - 2 and n, whatever the shift reads past the end |
| `AmpPipeline.AmpExperiment.VqInterp` | jni/codec2/ampexp.c:763-851 | The delay line moves down one slot per call |
| `AmpPipeline.AmpExperiment.SlotsValid` | jni/codec2/ampexp.c:606-611 | The equal-L assertion holds in every reachable state |
| `AmpPipeline.MidpointOfNeighbours` | jni/codec2/ampexp.c:748-851 | A harmonic alone in its bin gets the midpoint level of the calls around it |
| `AmpPipeline.QuantisedLevel` | jni/codec2/ampexp.c:575-601 | A slot's level at a harmonic is what the call quantised there |
| `SmoothAmp.OneBin` | jni/codec2/ampexp.c:951-955 | A frequency above 2 and up to 4 kHz lies in exactly one bin |
| `SmoothAmp.HarmonicAt` | jni/codec2/ampexp.c:977-977 | Harmonic m of a fundamental of h Hz is at m times h Hz |
| `SmoothAmp.BinEdges` | jni/codec2/ampexp.c:977-985 | Up to 4 kHz a harmonic is in bin i exactly when it lies between the table's edges i and i + 1; otherwise it is not smoothed |
| `SmoothAmp.Smooth` | jni/codec2/ampexp.c:957-1016 | Both passes choose the same bin and each amplitude becomes the bin's root mean square |
| `SmoothAmp.BinPowerKept` | jni/codec2/ampexp.c:957-1016 | The power of every bin is unchanged |
| `SmoothAmp.TotalPowerKept` | jni/codec2/ampexp.c:957-1016 | The power of the frame is unchanged |
| `SmoothAmp.SmoothIsIdempotent` | jni/codec2/ampexp.c:957-1016 | Smoothing twice is smoothing once |
| `SmoothAmp.FixedIffLevel` | jni/codec2/ampexp.c:957-1016 | Nothing changes if and only if every bin is level |
| `ConfigText.PairLine` | jni/adhoc-edify/install.c:488-520 | However a pair is laid out, its line yields its value under its key and is skipped under any other |
| `ConfigText.OddLine` | jni/adhoc-edify/install.c:495-500 | A line without an equals sign is an error that names the line without its indentation, whatever the key |
| `ConfigText.LineIsItem` | jni/adhoc-edify/install.c:488-520 | Every line is one of these four kinds |
| `ConfigText.TextIsFile` | jni/adhoc-edify/install.c:487-524 | So every text is a file of them, and its answer for every key is the file's |
| `ConfigText.RenderRoundTrip` | jni/adhoc-edify/install.c:435-439 | Any file of pairs, comments, blank and malformed lines gives a key its first value, the error of a malformed line before it, or the empty string |
| `ConfigText.RenderLookup` | jni/adhoc-edify/install.c:487-524 | The program does so unless every line is empty, and then it dereferences NULL |
| `ConfigText.LayoutInsensitive` | jni/adhoc-edify/install.c:435-439 | Indentation, blank lines, comments, blanks around the equals sign and carriage returns never change a lookup |
| `ConfigScanner.Tokenizer.Next` | jni/adhoc-edify/install.c:522-522 | The saved-pointer tokenizer returns the next line, ends it in place and leaves the text after it intact |
| `ConfigScanner.ParseInPlace` | jni/adhoc-edify/install.c:489-520 | A line is cut up in place as the pure parser says, and nothing after it changes |
| `ConfigScanner.GetCfg` | jni/adhoc-edify/install.c:487-524 | For every NUL-terminated buffer the result is the meaning of the text it held |
| `ErrorChannel.Flip` | jni/codec2/c2dec.c:147-150 | Exactly one bit is flipped |
| `ErrorChannel.Inject` | jni/codec2/c2dec.c:144-155 | The error count grows by the Hamming distance between before and after, at most by the bits processed; bits outside the range are kept |
| `ErrorChannel.BurstPattern` | jni/codec2/c2dec.c:158-195 | For ever after, each cycle of max(j+1, k) frames is clear for j frames and bad for the rest |
| `ErrorChannel.SpellsEnd` | jni/codec2/c2dec.c:158-195 | Whatever the times, every burst and every clear spell ends |
| `ErrorChannel.CycleEnds` | jni/codec2/c2dec.c:163-192 | The machine returns to its initial state after one cycle |
| `ErrorChannel.TimerBound` | jni/codec2/c2dec.c:159-190 | The timer never exceeds the period, the period less the length plus a frame, or a frame |
| `ErrorChannel.BadFrames` | jni/codec2/c2dec.c:158-195 | Over q cycles exactly q times the bad frames of one cycle carry errors |
| `ErrorChannel.Channel.Frame` | jni/codec2/c2dec.c:138-195 | Over any run the error total is the sum of the frames' Hamming distances; only the chosen bits of bad frames change, and exactly those are counted as processed |
| `FixedPoint.RoundNearest` | jni/codec2/_kiss_fft_guts.h:65-65 | Rounding is to the nearest |
| `FixedPoint.CFixDiv` | jni/codec2/_kiss_fft_guts.h:73-78 | Both parts are scaled and bounded |
| `FixedPoint.DivScalarBound` | jni/codec2/_kiss_fft_guts.h:73-74 | A sample scaled by k is at most the rounded-down maximum over k, for all fraction bits and all k |
| `FixedPoint.DivScalarDivides` | jni/codec2/_kiss_fft_guts.h:73-74 | The scaled sample is the sample over k, off by less than one and a half |
| `FixedPoint.ScaledSumInRange` | jni/codec2/_kiss_fft_guts.h:100-117 | Any sum of at most k samples scaled by k stays in range |
| `FixedPoint.ProductFits` | jni/codec2/_kiss_fft_guts.h:64-72 | The products of in-range operands, with the rounding term, fit the product type |
| `FixedPoint.CMulNearest` | jni/codec2/_kiss_fft_guts.h:69-72 | Each part of a product is within half a unit of the exact one |
| `FixedPoint.RoundAtMostIff` | jni/codec2/_kiss_fft_guts.h:65-65 | Which exact values round to at most, and to at least, a given sample |
| `FixedRange.SumInRangeIff` | jni/codec2/_kiss_fft_guts.h:69-117 | The sum of a sample and a rounded product is in range if and only if the exact product lies between two bounds, for all fraction bits and operands |
| `FixedRange.DifferenceInRangeIff` | jni/codec2/_kiss_fft_guts.h:69-117 | The same for the difference |
| `FixedRange.RotatedBound` | jni/codec2/_kiss_fft_guts.h:69-123 | A sample of the disc of radius SAMP_MAX, scaled for radix 2 to 5 and rotated by any table entry, is at most SAMP_MAX/k in either part |
| `FixedFft.ButterflyTwoIff` | jni/codec2/kiss_fft.c:31-41 | Exactly when the radix-2 butterfly with a twiddle factor stays in range, in all four results |
| `FixedFft.FullScaleTwo` | jni/codec2/kiss_fft.c:31-41 | It does for every first sample in range and every rotated one in the full disc |
| `FixedFft.FullScaleFour` | jni/codec2/kiss_fft.c:58-89 | So does the radix-4 butterfly, in both directions and for every intermediate value |
| `FixedFft.FourTurns` | jni/codec2/kiss_fft.c:58-89 | The fixed-point radix-4 butterfly adds its terms turned by multiples of a quarter, exactly, in both directions |
| `FixedFft.ThreeTurns` | jni/codec2/kiss_fft.c:108-133 | The radix-3 butterfly gives its terms turned by thirds, up to two rounding errors |
| `FixedFft.FiveTurns` | jni/codec2/kiss_fft.c:162-193 | The radix-5 butterfly gives its terms turned by fifths, up to four rounding errors |
| `FixedFft.TermIs` | jni/codec2/kiss_fft.c:160-166 | In every radix, term i is sample i divided by the radix and turned by twiddle factor i, up to two rounding errors |
| `FixedFft.PrefixAlone` | jni/codec2/kiss_fft.c:222-231 | The running sum of the butterfly of any radix takes every term up with its own sign and once |
| `FixedFft.StageStays` | jni/codec2/kiss_fft.c:20-235 | One stage of any radix k turns values within r of zero into values within r + 2k + 3, intermediate values included |
| `FixedFft.TransformStays` | jni/codec2/kiss_fft.c:237-302 | No value of a whole fixed-point transform leaves the range, whatever its length and factors, if the samples lie in a disc that leaves 2k + 3 per stage of radix k |
| `FixedPoint.TwiddleOverflow` | jni/codec2/_kiss_fft_guts.h:69-78 | A full-scale corner sample rotated by an eighth turn leaves the range in a radix-2 butterfly in spite of the scaling |

## Left out

- FftRecursion.KfFactor: does not model the bound of 32 factors on the buffer, because every int has fewer.
- FixedFft: bounds the values of the fixed-point transform and the error of one butterfly; how the errors add up over a transform is not modelled.
- Floating-point rounding, including that of the twiddle factors.
- The other signal-processing kernels (pitch, LPC and LSP conversion, spectral quantisation, amplitudes, phases, synthesis, filters, timing recovery) and the logarithms are functions of their arguments.
- Interleaver.Run: requires a non-empty table, because with an empty permutation file the program reads empty blocks for ever.
- Interleaver.LoadInterleaver: requires entries below the array size, because the program writes outside the array otherwise.
- Dqpsk.FrameRecovered: the channel multiplies; additive noise is not modelled.
- Duplex.NoInterference: is about one codec state; two decoders in one process share the random generator, and the order of their calls decides which draws each gets.
- Duplex.Codec2.Encode: returns the fields; packing them is `FrameLink.EncodeFrame`.
- ErrorChannel.Inject: requires the bit range inside the buffer, because the program admits one bit more than the frame has and then writes behind the buffer when the frame fills its bytes.
- SplitVq.FiveStagesOptimal: requires that some codeword of each stage has a metric below 1E32, because otherwise the search keeps index 0.
- AmpPipeline: the signal-to-noise and variance statistics, the noise, gain-shape and smoothing arguments, and printing.
- SmoothAmp.Smooth: requires harmonics up to 4 kHz, because above that the search reads behind the table of edges.
- File and pipe handling, argument parsing, logging, `c2sim`, the JNI wrappers, codebook numbers, and the rest of the installer (module loading, processes, properties), none of which computes anything that the above depends on.
