# Verified model of the FM tuner's data paths

This project models, in Dafny 4.11, the parts of the tuner where many small state changes have to add
up to something a listener relies on, and proves what they add up to.

* **RDS data link, from symbols to groups.** `BlockCode` is the (26,16) code: the parity-check matrix
  of the source is shown to be division by the generator polynomial, so that a syndrome tells exactly
  whether a word is an encoding. `BurstCorrection` proves the lookup-table corrector complete and
  sound for all 51 bursts of at most two bits, and `CPrimeDamage` says exactly what it does to the one
  kind of block it cannot handle. `SyncMachine` is the block synchroniser as a function on states;
  `Framing`, `GroupDecoding`, `Acquisition`, `Provenance` and `ColdStart` prove over all bit streams
  what it does in sync, when it gains and loses sync (`SyncExact` says exactly when it gains it),
  where each delivered block comes from, and that it decodes exactly after a cold start or a loss of
  sync; `CounterWrap` is a stream on which the wrapped bit counter deceives it. `BlockStream` and
  `RunningSum` hold the classes of the source, updated in place, and prove that they do what the
  machine does. `Subcarrier`, `BiphaseProofs` and `Relock` do the same for biphase and differential
  decoding, from new and from any state, and `EndToEnd` joins the two halves: from symbols with either
  clock parity, the bits decoded before the clock locks included, to groups as sent, at the start and
  after any retune. `RdsReceiver` is the two together as an object, `Delivery` says what is handed on
  whatever the damage, and `FanOut` what clients are told of it.
* **Band scan** (`ScanPlan`, `ScanRequest`, `ScanMinimum`): the plan is the one requested, every
  channel is covered, every line is complete whatever fails, and the fallback takes the fewest retunes
  that any choice of frequencies could do with (`FallbackAlwaysMinimal`): at any rate up to 3413333,
  and the tuner accepts 256000, 1024000 and 2048000 only (src/app_options.cpp:535-536,
  src/sdrplay_device.cpp:299-300), for every range, step, bandwidth and failure.
* **Adaptive squelch** (`Squelch`, `SquelchGate`): the reference is the maximum of past levels less
  their decay; when the gate closes and when it reopens, exactly, over any history; and which
  configurations let it reopen at all.
* **Rings** (`RingBuffers`, `DeviceRings`, `PairRuns`): the staging, device and speaker rings are
  queues of the newest items. Staging does not depend on how its input is cut into calls of at most
  one block each, and hands over whole pairs for calls of any size. With an even capacity and whole
  pairs put in and asked for, the device and speaker rings never tear a pair apart, over any history
  of pushes, reads and flushes, and every pair is either waiting, delivered once or dropped.
* **Fan-out to clients** (`Broadcast`, `XdrRds`): how many lines each client misses, exactly, under
  any interleaving; and when a programme identification is passed on.
* **Retune mute** (`RetuneMute`) and **automatic gain** (`AutoGain`): the envelope does not depend on
  block boundaries; the closed gain loop never reverses, takes at most three steps and then holds.

Classes stand where the source updates objects in place; each of their methods is proved against a
function of the old state, and the properties are then proved of that function. Numbers of the source
are modelled at their width where it shows: the bit counter and the input register wrap at 2^32.
Levels, gains, symbols and samples are real numbers.

Some things one would expect of the code do not hold. Each is stated with a concrete case, and with
the condition that decides it:

* A damaged C' block is taken for a damaged C block (`CPrimeDamage.DamagedCPrimeExact`): two of the
  bursts then deliver wrong data, the others lose the block.
* Inverting the symbols can change more than the first decoded bit, for arbitrary symbols
  (`BiphaseProofs.NegationCanMatter`) and for ideal ones (`IdealNegationCanMatter`). A bit is safe if
  and only if it and the one before both come from equal pairs of symbols or both not
  (`NegationInvariance`); in an ideal stream those pairs are the ones that straddle a one in the data
  (`IdealNegation`), so that from the clock lock on nothing changes (`InvertedDataRecovered`).
* After a loss, sync can be regained on a single block, if a pulse from 2^32 bits before is still in
  the buffer (`CounterWrap.StaleSync`, a whole bit stream). What the counters take for a rhythm is one
  if and only if the gap is below 2^32 bits (`Acquisition.RhythmExact`); regained sync is well founded
  if and only if its oldest pulse is that young (`Acquisition.SyncFreshExact`).
* A closed squelch can open again if and only if its hysteresis is smaller than its drop
  (`Squelch.GateStuck`). The tuner configures drops of 9 and 14 dB with a hysteresis of 3 and 4 dB
  (src/dsp_pipeline.cpp:116), so it does not meet the other case.
* The tail of the retune mute falls like its head; it does not fade the audio in
  (`RetuneMute.EnvelopeShape`).
* A retune that a client asks for does not reset the window that confirms identifications
  (`XdrRds.RetuneOnRequest`, consequence in `IdentificationPassedOn`).

One limit is of the scan alone and not of the tuner: fallback batches stop at measured channels, and
are the fewest if and only if going on across them would save none (`ScanMinimum.MinimalExactly`). At
a rate far beyond those the tuner accepts, where a bin is nearly as wide as a channel, it can save one
(`BatchesStopAtMeasuredChannels`).

## Model

| member | source | states |
|---|---|---|
| BlockCode.SyndromeLinear | src/redsea_port/block_sync.cpp:117-128 | the syndrome of a sum is the sum of the syndromes |
| BlockCode.SyndromeIsRemainder | src/redsea_port/block_sync.cpp:85-128 | the matrix computes division by the generator polynomial x^10+x^8+x^7+x^5+x^4+x^3+1 of EN 50067, up to a fixed power of x |
| BlockCode.TimesPowerInjective | src/redsea_port/block_sync.cpp:85-128 | multiplication by that power loses nothing, so syndrome and remainder determine one another |
| BlockCode.OffsetWordAndSyndrome | src/redsea_port/block_sync.cpp:71-81 | the syndromes that are recognised are those of the offset words |
| BlockCode.OffsetNumbers | src/redsea_port/block_sync.cpp:71-81 | the offset words and syndromes of the table as numbers |
| BlockCode.SyndromeCharacterisesEncoding | src/redsea_port/block_sync.cpp:71-128 | a word has the syndrome of an offset if and only if it is the encoding of its own data with that offset |
| BurstCorrection.BurstSyndromesDistinct | src/redsea_port/block_sync.cpp:147-160 | bursts with equal syndromes are equal: all 51 can be told apart |
| BurstCorrection.BurstSyndromeNeverHides | src/redsea_port/block_sync.cpp:147-160 | no burst has syndrome zero, and none turns a C block into a C' block |
| BurstCorrection.BurstExplains | src/redsea_port/block_sync.cpp:165-184 | removing a burst leaves an encoding if and only if the table lists the syndrome for that burst |
| BurstCorrection.CorrectionComplete | src/redsea_port/block_sync.cpp:165-184 | a word one burst away from an encoding of the expected offset is corrected to that encoding |
| BurstCorrection.CorrectionSound | src/redsea_port/block_sync.cpp:165-184 | correction succeeds only by removing one burst, and leaves an encoding |
| BurstCorrection.CorrectionRestores | src/redsea_port/block_sync.cpp:165-184 | whatever was sent and whichever burst hit it, the corrector gives back what was sent |
| BurstCorrection.DamagedBlockSyndrome | src/redsea_port/block_sync.cpp:270-279 | a block hit by a burst is never taken to be clean, nor a C block to be C' |
| BurstCorrection.CleanBlockSyndrome | src/redsea_port/block_sync.cpp:270-279 | an undamaged block is recognised as the kind it is |
| CPrimeDamage.BurstsAcrossGap | src/redsea_port/block_sync.cpp:147-160 | exactly two bursts have syndromes that differ as those of C and C' do |
| CPrimeDamage.DamagedCPrimeExact | src/redsea_port/block_sync.cpp:275-303 | a C' block hit by a burst is treated as C; it is passed on if and only if the burst is bit 20 or bits 23 and 24, and then with data that is wrong in known places |
| BlockStreams.CalculateSyndrome | src/redsea_port/block_sync.cpp:85-128 | the loop over the matrix computes the syndrome |
| BlockStreams.SyndromeOfEntry | src/redsea_port/block_sync.cpp:154-157 | burst and offset word together have the listed syndrome |
| BlockStreams.MakeErrorLookupTable | src/redsea_port/block_sync.cpp:133-162 | each of the five lists holds all bursts, in order, with the syndromes they cause |
| BlockStreams.MakeErrorList | src/redsea_port/block_sync.cpp:152-159 | one list, made by the two inner loops |
| BlockStreams.CorrectBurstErrors | src/redsea_port/block_sync.cpp:165-184 | the table search finds the correction that the specification defines, and leaves the block alone if there is none |
| BlockStreams.RhythmKeptByWrapping | src/redsea_port/block_sync.cpp:189-198 | 32-bit positions give the same rhythm as unbounded ones taken modulo 2^32 |
| BlockStreams.SyncPulseBuffer.constructor | include/redsea_port/block_sync.hh:28-44 | the buffer starts with four invalid pulses |
| BlockStreams.SyncPulseBuffer.Push | src/redsea_port/block_sync.cpp:203-214 | the oldest pulse goes, the others move up in order, the new one is last |
| BlockStreams.SyncPulseBuffer.IsSequenceFound | src/redsea_port/block_sync.cpp:217-228 | true if and only if two earlier pulses lead up to the newest in rhythm |
| BlockStreams.BlockStream.AcquireSync | src/redsea_port/block_sync.cpp:235-251 | the object follows the machine's acquisition step |
| BlockStreams.BlockStream.FindBlockInInputRegister | src/redsea_port/block_sync.cpp:267-313 | the object follows the machine's block step: search, error window, loss, correction, group |
| BlockStreams.BlockStream.PushBit | src/redsea_port/block_sync.cpp:254-264 | one bit takes the object to the state the machine reaches, with register and counter at 32 bits |
| BlockStreams.BlockStream.PopGroup | src/redsea_port/block_sync.cpp:327-330 | the ready group is taken once |
| BlockStreams.RdsDecoder.Reset | src/rds_decoder.cpp:25-26 | a new block stream with error correction on takes the place of the old |
| BlockStreams.RdsDecoder.EmitGroups | src/rds_decoder.cpp:43-59 | what is handed on for a chunk is what the machine receives from those bits, each group once and in order; Delivery says what that is |
| RunningSums.RunningSum.GetSum | include/redsea_port/util/util.hh:142-144 | the sum over the window |
| RunningSums.RunningSum.Push | include/redsea_port/util/util.hh:145-148 | the ring refines a window of the newest numbers |
| RunningSums.RunningSum.Clear | include/redsea_port/util/util.hh:149-151 | clearing empties the window although the pointer stays where it is |
| Delivery.MissingBlocksMarked | src/rds_decoder.cpp:29-57 | for every group, each block has 3 in its two bits of the byte if missing, 1 if corrected, 0 if clean, and the word of a missing block is zero |
| Delivery.DeliveredInOrder | src/rds_decoder.cpp:43-59 | a group is handed on for each group, in order |
| Delivery.AnyDamageReported | src/rds_decoder.cpp:43-59 | in sync, for any words received: 0 and the data exactly for an encoding for its place, 1 and corrected data exactly for a word one burst away from one, 3 and zero for all others |
| SyncMachine.PackedErrors | src/rds_decoder.cpp:29-41 | the four error levels can be read back from the packed byte |
| SyncMachine.ReceiveConcat | src/rds_decoder.cpp:43-59 | receiving two chunks one after the other is receiving their concatenation: chunking does not matter |
| Framing.WholeRegister | src/redsea_port/block_sync.cpp:255-269 | after 26 bits the register holds those bits and nothing older |
| Framing.StreamIsSliced | src/redsea_port/block_sync.cpp:254-264 | while sync lasts, the blocks processed are the consecutive disjoint 26-bit slices of the stream |
| Framing.SyncLossExact | src/redsea_port/block_sync.cpp:279-287 | sync lasts if and only if no prefix has more than 42 failed blocks among its newest 50 |
| Framing.ToleranceExactly | src/redsea_port/block_sync.cpp:32-36 | tolerated are at most 42 errors among the last 50 blocks |
| GroupDecoding.ReceiveAssembles | src/redsea_port/block_sync.cpp:289-311 | the groups received are assembled from the blocks by their place alone |
| GroupDecoding.StreamIsGrouped | src/redsea_port/block_sync.cpp:289-320 | from the start of a group, one group comes out every 104 bits, made of those 104 bits alone |
| GroupDecoding.BlockDecodes | src/redsea_port/block_sync.cpp:275-303 | a block sent is taken for its kind, damage is noticed if and only if there is some, and is undone |
| GroupDecoding.DecodingExact | src/redsea_port/block_sync.cpp:254-320 | for every sequence of groups with one burst per block and at most 42 damaged blocks in any 50, the groups received are those sent, damage marked exactly |
| GroupDecoding.DeliveredAsSent | src/rds_decoder.cpp:50-57 | the tuner hands on the four data words as sent, and two error bits for each block that say whether it was damaged |
| Acquisition.AlwaysConsistent | src/redsea_port/block_sync.cpp:235-313 | after any stream, register, counter, pulses and error window agree with the bits received |
| Acquisition.SyncJustified | src/redsea_port/block_sync.cpp:217-251 | sync is gained only at a valid block that two earlier valid blocks lead up to in rhythm |
| SyncExact.SyncGainedExactly | src/redsea_port/block_sync.cpp:216-251 | out of sync, a window gives sync if and only if it is a valid block and two of the three pulses buffered last lead up to it, each one to six blocks before the next, in any mix |
| SyncExact.BufferHoldsNewest | src/redsea_port/block_sync.cpp:203-214 | out of sync, the buffer holds the four valid windows seen last |
| SyncExact.SyncFromStream | src/redsea_port/block_sync.cpp:203-251 | from the stream alone: a receiver out of sync is in sync again with the first valid window that two of the three valid windows before it lead up to, and no sooner or later |
| Acquisition.LossTakesTime | src/redsea_port/block_sync.cpp:279-287 | when sync is lost, every buffered pulse is at least 43 blocks old |
| Acquisition.StalePulses | src/redsea_port/block_sync.cpp:203-214 | after a loss, buffered pulses are newer than it or at least 43 blocks older |
| Acquisition.SyncFresh | src/redsea_port/block_sync.cpp:189-251 | sync regained after a loss rests on three valid blocks received after that loss, if no pulse buffered at the loss is 2^32 bits older than the new sync |
| Acquisition.SyncFreshExact | src/redsea_port/block_sync.cpp:189-251 | the buffer holds three such blocks in true rhythm if and only if it holds a chain whose oldest pulse is less than 2^32 bits old |
| Acquisition.RhythmExact | src/redsea_port/block_sync.cpp:189-198 | a gap is one to six whole blocks with matching block numbers if and only if the comparison of counters says so and it is below 2^32 bits |
| Acquisition.RhythmMeans | src/redsea_port/block_sync.cpp:189-198 | the same of the windows of a stream of any length |
| CounterWrap.OnlyInPlace | src/redsea_port/block_sync.cpp:267-270 | a certain block with two bits set is valid in its own place and in no other on its way through the register |
| CounterWrap.SilenceEndsSync | src/redsea_port/block_sync.cpp:274-287 | zeros end sync within 43 blocks and leave the pulse buffer as it is |
| CounterWrap.StaleSync | src/redsea_port/block_sync.cpp:189-251 | a stream on which sync is lost and then regained although one window only has looked like a block since, at no whole number of blocks from the pulse it is taken to follow |
| Provenance.GroupsComeFromSlices | src/redsea_port/block_sync.cpp:235-320 | in any stream, each block of a delivered group is decoded from its own one of the four last slices, all within one episode of sync |
| Provenance.AfterGroup | src/redsea_port/block_sync.cpp:305-320 | a group comes out only in sync, at a block boundary, and the next starts empty with its first block |
| Provenance.DecodedBlockSound | src/redsea_port/block_sync.cpp:289-303 | a block passed on is an encoding of its data for its place but for at most one burst, and is marked if and only if there was one |
| Provenance.DroppedBlockHopeless | src/redsea_port/block_sync.cpp:289-303 | a block is dropped only if no data explains it with at most one burst |
| ColdStart.LostOutOfSync | src/redsea_port/block_sync.cpp:203-251 | after a loss no pulse in the buffer can be in rhythm with a later one, while those pulses are less than 2^32 bits old |
| ColdStart.ThirdBlockSyncs | src/redsea_port/block_sync.cpp:203-251 | a receiver out of sync, new or after a loss, is in sync, aligned and expecting the right block, by the end of the third clean block, with at most one spurious pulse since |
| ColdStart.ExactAfterRest | src/redsea_port/block_sync.cpp:254-320 | in sync anywhere within a group, with any errors so far that damage does not bring over the limit, the groups after it come out exactly as sent |
| ColdStart.ResyncExact | src/redsea_port/block_sync.cpp:203-320 | from wherever a receiver is out of sync: noise, three clean blocks and the rest of a group, and all further groups with tolerable damage are received exactly as sent, with at most one chance block up to the third |
| ColdStart.ColdStartExact | src/redsea_port/block_sync.cpp:203-320 | the same of a receiver just switched on |
| ColdStart.RecoversFromLoss | src/redsea_port/block_sync.cpp:203-320 | the same of a receiver that has just lost sync |
| Subcarrier.BiphaseDecoder.Push | src/redsea_port/dsp/subcarrier.cpp:50-86 | one symbol gives the bit and the state that the specification defines |
| Subcarrier.BiphaseDecoder.SumByParity | src/redsea_port/dsp/subcarrier.cpp:67-73 | the loop sums the amplitudes at even and at odd places |
| Subcarrier.DeltaDecoder.Decode | src/redsea_port/dsp/subcarrier.cpp:88-92 | one bit of differential decoding |
| BiphaseProofs.RunTrace | src/redsea_port/dsp/subcarrier.cpp:50-86 | at any time the history holds the amplitudes since the last clock decision |
| BiphaseProofs.WindowDecides | src/redsea_port/dsp/subcarrier.cpp:66-83 | on an ideal stream a window with a bit change chooses the right parity, and one without keeps the choice |
| BiphaseProofs.PolarityLocks | src/redsea_port/dsp/subcarrier.cpp:66-83 | from the first window with a bit change on, the clock polarity is right and never flips |
| BiphaseProofs.LockedValues | src/redsea_port/dsp/subcarrier.cpp:50-86 | from there on the biphase bits come out, all of them and no others |
| BiphaseProofs.DataRecovered | src/redsea_port/dsp/subcarrier.cpp:50-92 | after differential decoding those are the source bits, from the second on |
| BiphaseProofs.NegatedValues | src/redsea_port/dsp/subcarrier.cpp:55-57 | negated symbols give inverted bits, but for pairs of equal symbols, which read as a one either way |
| BiphaseProofs.NegationInvariance | src/redsea_port/dsp/subcarrier.cpp:50-92 | a decoded bit survives negation if and only if its pair of symbols and the one before are both equal pairs or both not |
| BiphaseProofs.NegationCanMatter | src/redsea_port/dsp/subcarrier.cpp:50-92 | three equal symbols, for which negation changes the second bit |
| BiphaseProofs.IdealFlat | src/redsea_port/dsp/subcarrier.cpp:55-57 | on an ideal stream two symbols in a row are equal if and only if they belong to different biphase symbols between which the data have a one |
| BiphaseProofs.IdealNegation | src/redsea_port/dsp/subcarrier.cpp:50-92 | over the whole of an ideal stream, a decoded bit survives negation if and only if it and the bit before both straddle a one of the data or both do not |
| BiphaseProofs.IdealNegationCanMatter | src/redsea_port/dsp/subcarrier.cpp:50-92 | an ideal stream of three symbols for which negation changes the second bit |
| BiphaseProofs.InvertedDataRecovered | src/redsea_port/dsp/subcarrier.cpp:50-92 | from the clock lock on, the negated ideal stream gives the same data but for the first bit |
| Relock.SameAfterLock | src/redsea_port/dsp/subcarrier.cpp:66-83 | whatever symbol and polarity came before an ideal stream, after the first whole window with a bit change the decoder is in the state of a new one |
| Relock.LocksFromAnywhere | src/redsea_port/dsp/subcarrier.cpp:50-86 | from any state of the decoder, all biphase bits and no others come out from the end of that window on |
| Relock.DataFromAnywhere | src/redsea_port/dsp/subcarrier.cpp:50-92 | after differential decoding from any bit, those are the source bits from the second on |
| EndToEnd.BitsEndInData | src/redsea_port/dsp/subcarrier.cpp:50-92 | the bits of the whole stream of symbols are some from before the clock lock, one more, and then the data sent |
| EndToEnd.DecodedConcat | src/redsea_port/dsp/subcarrier.cpp:203-213 | decoding two chunks of symbols one after the other is decoding them as one |
| EndToEnd.SymbolsToGroups | src/rds_decoder.cpp:43-59 | with every decoded bit pushed from the first symbol on, ideal symbols of either parity whose data end in noise, three clean blocks and groups with tolerable damage give those groups as sent |
| EndToEnd.BitsEndInDataFromAnywhere | src/redsea_port/dsp/subcarrier.cpp:50-92 | from any state, the decoded bits are some from before the clock lock, one more, and then the data sent |
| EndToEnd.RetuneToGroups | src/rds_decoder.cpp:23-59 | the same after any retune: a new block stream, symbol decoders in any state, and any bits pushed while tuning |
| RdsReceivers.RdsReceiver.constructor | src/rds_decoder.cpp:16-21 | everything is as new |
| RdsReceivers.RdsReceiver.Reset | src/rds_decoder.cpp:23-27 | the block stream is as new and the biphase and delta decoders are as they were |
| RdsReceivers.RdsReceiver.ChunkToBits | src/redsea_port/dsp/subcarrier.cpp:203-213 | the bits of a chunk are what the specification decodes from the state before, and the state moves on |
| RdsReceivers.RdsReceiver.Process | src/rds_decoder.cpp:74-94 | a chunk of symbols hands on exactly the groups that its decoded bits complete |
| ScanPlan.PlanFollowsRequest | src/scan_engine.cpp:89-95 | start and stop are the requested frequencies in order, as far as they lie within 64 and 108 MHz, and the step the requested one, at least 5 kHz |
| ScanPlan.ChannelsRequested | src/scan_engine.cpp:99 | a channel is scanned if and only if it is a whole number of steps above the start and not beyond the stop |
| ScanPlan.PlansAreWell | src/scan_engine.cpp:89-146 | the centre step is the channel step or within two half spans |
| ScanRequest.HalfSpanExactly | src/scan_engine.cpp:112-126 | the half span is the largest number of Hz within 0.85 of half the rate that leaves room for half a channel, or 1 |
| ScanRequest.CenterStepExactly | src/scan_engine.cpp:127-138 | the centre step is the channel step, or the largest number of Hz within 0.60 of the rate and one and a half half spans if that is more |
| ScanRequest.CapturesOverlap | src/scan_engine.cpp:127-138 | captures overlap by a quarter of their width, unless they are a channel step apart |
| ScanRequest.PlanGeometry | src/scan_engine.cpp:139-147 | where channels and centres lie, and what a capture spans |
| ScanRequest.WholeBand | src/scan_engine.cpp:89-99 | 87.5 to 108 MHz in steps of 50 kHz are 411 channels |
| ScanRequest.FallbackReports | src/scan_engine.cpp:392-458 | what is reported for a channel without a level, whatever succeeds or fails |
| ScanRequest.MidpointExactly | src/scan_engine.cpp:387-390 | a batch is measured from the middle of its first and last channel |
| ScanPlan.EveryChannelCovered | src/scan_engine.cpp:112-147 | for all configurations and rates every channel lies in the span of a planned capture |
| ScanPlan.CoveredByCap | src/scan_engine.cpp:130-147 | the case where the coverage cap or the rate sets the distance of captures |
| ScanPlan.CoveredByStep | src/scan_engine.cpp:135-147 | the case where the channel step does |
| ScanPlan.CentersFit | src/scan_engine.cpp:329-335 | no centre is cut off when it is narrowed to 32 bits |
| ScanPlan.EstimateLevels | src/scan_engine.cpp:215-305 | a capture raises the levels of the channels it spans and leaves all others |
| ScanPlan.Sweep | src/scan_engine.cpp:329-361 | the sweep ends at the first failure or past the last centre, each channel at its loudest estimate so far |
| ScanPlan.MeasuredIsLoudest | src/scan_engine.cpp:281-305 | that level is one some capture reported, and none that spans the channel reported more |
| ScanPlan.UndisturbedSweepMeasures | src/scan_engine.cpp:329-361 | with no failures and usable estimates the sweep measures every channel |
| ScanPlan.FindBatchEnd | src/scan_engine.cpp:376-385 | the loop finds the end of a batch |
| ScanPlan.BatchesHoldMissing | src/scan_engine.cpp:366-385 | the batches hold exactly the channels without a level, once each, in order |
| ScanPlan.BatchFits | src/scan_engine.cpp:387-390 | each channel of a batch is within the span around its midpoint |
| ScanPlan.RunIsMinimal | src/scan_engine.cpp:372-385 | a run of missing channels takes no more batches than any split of it into pieces that fit one retune |
| ScanMinimum.BatchesMinimal | src/scan_engine.cpp:366-385 | if channels missing on both sides of a measured one are always too far apart for one retune, no set of retunes reaches all missing channels with fewer than there are batches |
| ScanMinimum.ThoroughLeavesNoIslands | src/scan_engine.cpp:218-305 | that is so after any sweep whose captures give a level to each channel they span |
| ScanMinimum.FallbackMinimal | src/scan_engine.cpp:329-460 | so the fallback of such a scan is minimal over the whole band, whatever fails |
| ScanMinimum.CountBins | src/scan_engine.cpp:233-248 | the loop finds no bin for a channel if and only if all of its bins are too near the tuner frequency |
| ScanMinimum.BinHalfExactly | src/scan_engine.cpp:175-178 | how many bins to either side of its middle count for a channel |
| ScanMinimum.DcRejectExactly | src/scan_engine.cpp:179-180 | how many bins around the tuner frequency never count |
| ScanMinimum.CenterBinNearest | src/scan_engine.cpp:229-232 | the middle of a channel falls into the nearest bin |
| ScanMinimum.SpectraAreThorough | src/scan_engine.cpp:170-180 | with spectra of at least 1024 bins and a rate of at most a third of 1024 channel widths, captures give a level to each channel they span |
| ScanMinimum.FallbackAlwaysMinimal | src/scan_engine.cpp:329-460 | so at any rate up to 3413333, which all rates of the tuner are, the fallback of every scan is minimal over the whole band, whatever the settings and failures |
| ScanMinimum.WideIsFewest | src/scan_engine.cpp:372-390 | batches that went on across measured channels would be the fewest retunes there can be |
| ScanMinimum.MinimalExactly | src/scan_engine.cpp:366-385 | the fallback takes the fewest retunes if and only if it takes no more than those |
| ScanMinimum.BatchesStopAtMeasuredChannels | src/scan_engine.cpp:218-385 | that some bound on the rate is needed: a scan at 8.2 MHz, a rate the tuner refuses, whose fallback takes two retunes where one would do |
| ScanPlan.MeasureBatch | src/scan_engine.cpp:392-458 | whatever fails, each channel of a batch gets a level, and no other channel changes |
| ScanPlan.FillMissing | src/scan_engine.cpp:366-460 | the fallback never overwrites a measured level and gives every other channel its batch's |
| ScanPlan.EmitLine | src/scan_engine.cpp:462-471 | an entry for each channel that has a level, in order |
| ScanPlan.LineComplete | src/scan_engine.cpp:462-471 | if all channels have a level, the line holds each once, at its frequency, with its level |
| ScanPlan.RunScan | src/scan_engine.cpp:89-481 | with a sample rate the line lists exactly the requested frequencies from start to stop in order, whatever fails; measured levels are kept; the sweep ends with the first failure, cancellation or the last centre; the scan stays active only if continuous and not cut short |
| Squelch.ReferenceIsDecayedMax | include/dsp/squelch.h:100-119 | the reference is the maximum over past values of the value less the decay times its age |
| Squelch.ReferencesOfHistory | include/dsp/squelch.h:95-123 | that holds of power and of SNR after any history of updates since a reset, updates without an estimate left out |
| SquelchGate.GateExactly | include/dsp/squelch.h:95-133 | over any history since a reset, an update closes an open gate if and only if power or SNR is more than the drop below the decayed maximum of its past, and opens a closed one if and only if both are within it less the hysteresis; without a power nothing changes |
| SquelchGate.OpenUntilFade | include/dsp/squelch.h:125-133 | the gate is open all along if and only if no update has found such a fade: it closes with the first |
| Squelch.SteadyGate | include/dsp/squelch.h:104-131 | under steady input, a closed gate is open after n updates if and only if both values have recovered from their decayed references by then |
| Squelch.GateReopens | include/dsp/squelch.h:104-131 | with some decay and a hysteresis below the drop, it is open once decay has used up the larger excess, and stays so |
| Squelch.GateStuck | include/dsp/squelch.h:95-131 | some history of measurements opens a closed gate if and only if the hysteresis is smaller than the drop |
| Squelch.LastDecisiveLevel | include/dsp/squelch.h:134-155 | the fixed gate is as the last level outside the hysteresis band left it |
| Squelch.UndecidedGate | include/dsp/squelch.h:134-155 | without such a level the fixed gate stays as it was; at -119 dBFS or below it is always open |
| Arithmetic.ScaleIsLinear | include/dsp/squelch.h:169-173 | scaling a sample is linear in it, and by 1 leaves it as it is |
| Squelch.RampSplits | include/dsp/squelch.h:168-173 | the gain ramp does not depend on block boundaries |
| Squelch.RampClosedForm | include/dsp/squelch.h:168-173 | the distance to the target shrinks geometrically |
| Squelch.RampBounded | include/dsp/squelch.h:168-173 | the gain stays between where it was and the target |
| Squelch.Squelch.ConfigureFadeMute | include/dsp/squelch.h:50-65 | the adaptive gate is configured within its limits, without references |
| Squelch.Squelch.Reset | include/dsp/squelch.h:74-81 | references are forgotten, the gate open, the configuration kept |
| Squelch.Squelch.UpdateGate | include/dsp/squelch.h:93-155 | one update of either gate, as GateExactly and LastDecisiveLevel characterise it |
| Squelch.Squelch.Process | include/dsp/squelch.h:160-174 | each sample is scaled by the ramped gain; a disabled gate changes nothing |
| RingBuffers.StagingRing.Append | src/dsp_pipeline.cpp:176-205 | the queue becomes the newest items of the queue followed by the input |
| RingBuffers.StagingRing.LinearizeBlock | src/dsp_pipeline.cpp:207-231 | the oldest samples are handed out in one piece if there are enough, and nothing changes if not |
| RingBuffers.StagingRing.Process | src/dsp_pipeline.cpp:297-323 | one call stages its input and hands over at most one block |
| RingBuffers.StageExactly | src/dsp_pipeline.cpp:315-323 | one call of any size: of the newest items that fit nothing is lost, and the oldest block of them comes out if there is a whole one |
| Seqs.NewestFromEnd | src/dsp_pipeline.cpp:183-191 | which items are the newest |
| RingBuffers.CutFaithful | src/dsp_pipeline.cpp:315-323 | cutting a stream into blocks loses and reorders nothing |
| RingBuffers.StagingLossless | src/dsp_pipeline.cpp:315-323 | with calls of at most one block, the blocks handed over are the consecutive slices of the whole input |
| RingBuffers.FragmentationIrrelevant | src/dsp_pipeline.cpp:315-323 | the same input in other portions of at most one block each gives the same blocks and the same rest |
| RingBuffers.PairsKept | src/dsp_pipeline.cpp:180-191 | a queue of even capacity fed whole pairs holds the newest whole pairs |
| RingBuffers.StagingKeepsPairs | src/dsp_pipeline.cpp:315-323 | for calls of any size, the blocks handed over and what stays in the ring are whole pairs, the same as if pairs were staged as one item each |
| DeviceRings.RtlRing.Available | src/rtl_sdr_device.cpp:369-377 | the fill level, full told from empty by the flag |
| DeviceRings.RtlRing.AsyncCallback | src/rtl_sdr_device.cpp:314-340 | byte by byte overwriting leaves the newest bytes of the queue followed by the input |
| DeviceRings.RtlRing.ReadIQ | src/rtl_sdr_device.cpp:219-298 | a read takes whole pairs from the head, in low-latency mode after dropping the oldest |
| DeviceRings.ReadsExactly | src/rtl_sdr_device.cpp:256-289 | for any queue and request, what is skipped, what is taken and what is left, in whole pairs, and that nothing else is lost |
| DeviceRings.RtlRing.FlushBuffers | src/rtl_sdr_device.cpp:306-312 | the queue is empty |
| DeviceRings.ReadsTakePairs | src/rtl_sdr_device.cpp:271-288 | reads from a queue of whole pairs take whole pairs and leave whole pairs |
| DeviceRings.LowLatencyTakesNewest | src/rtl_sdr_device.cpp:256-270 | with more there than requested, a low-latency read takes the newest pairs |
| DeviceRings.SpeakerRing.PushSamples | src/audio_output.cpp:337-373 | the queue becomes what PushAll says of it and the interleaved input |
| DeviceRings.SpeakerRing.PopSamples | src/audio_output.cpp:375-387 | the oldest samples are taken, as many as there are |
| DeviceRings.KeptNewest | src/audio_output.cpp:343-363 | what a push drops and keeps, the emptied ring of odd capacity included |
| DeviceRings.SpeakerPairsKept | src/audio_output.cpp:337-373 | a ring of even capacity holds the newest whole left and right pairs |
| PairRuns.PairsNeverTorn | src/rtl_sdr_device.cpp:256-340 | over any history of whole-pair pushes, reads in either mode and flushes, a device or speaker ring of even capacity holds exactly the waiting pairs, head first, and has handed out exactly the pairs its ledger marks, whole, once and in order |
| PairRuns.GetAgrees | src/audio_output.cpp:375-387 | one read or even pop takes whole pairs from the head, those the ledger says |
| Broadcast.QueueKeepsNewest | src/xdr_server.cpp:495-511 | numbers are contiguous, the queue never exceeds its capacity and holds the newest lines |
| Broadcast.PollGivesFresh | src/xdr_server.cpp:849-894 | a poll gives the lines after the cursor that the queue still holds; a client joins after the newest |
| Broadcast.ReadUnread | src/xdr_server.cpp:883-894 | the loop over the queue gives exactly the unread entries |
| Broadcast.ClientsFollow | src/xdr_server.cpp:491-512 | under any interleaving of lines, joins and polls, every client gets lines in strictly increasing order, none twice, and as many are lost as its tally counts |
| Broadcast.NoneMissed | src/xdr_server.cpp:883-894 | a client gets every line between joining and its last poll if and only if it never let more than a queue's worth pass between polls |
| XdrRds.ConfirmedByCounts | src/xdr_server.cpp:221-243 | counting copies and clean copies finds two readings that agree, one of them clean |
| XdrRds.DebounceExact | src/xdr_server.cpp:236-243 | the two best states mean exactly that |
| XdrRds.SlotsCount | src/xdr_server.cpp:228-234 | counting over the ring slots in use counts over the newest 64 readings |
| XdrRds.BitsApart | src/xdr_server.cpp:474-480 | marking one slot's error bit leaves the other bits of its byte |
| XdrRds.IdentificationPassedOn | src/xdr_server.cpp:486-498 | a PI line is queued if and only if block A is present and the 63 readings before it hold a match that is clean, or any match if this one is clean |
| XdrRds.GroupPassedOn | src/xdr_server.cpp:491-512 | a group line with the last three words and the byte as received comes last if and only if bits 4 and 5 of the byte are clear; besides it there is at most the identification |
| XdrRds.StatesByCounts | src/xdr_server.cpp:236-244 | the five states by the number of copies and clean copies |
| XdrRds.TextRead | src/xdr_server.cpp:492-507 | a reader of a line gets back each word and the byte, most significant digit first, and the doubt as question marks |
| XdrRds.TextDistinguishes | src/xdr_server.cpp:492-507 | no two lines read the same |
| FanOut.GroupFansOut | src/application.cpp:831-833 | from received groups to lines: passed on whole if and only if the second block was clean, an identification if and only if the first was received and the window confirms it |
| XdrRds.XdrServer.constructor | src/xdr_server.cpp:306-311 | an empty window and empty queues |
| XdrRds.XdrServer.EvaluatePiState | src/xdr_server.cpp:221-245 | the state over the ring and the packed error bits is the state over the newest 64 readings |
| XdrRds.XdrServer.UpdateRds | src/xdr_server.cpp:460-514 | a group adds one reading to the window, then queues its identification if that is present and confirmed, then the words B, C, D and the byte if bits 4 and 5 of the byte are clear, and nothing else |
| XdrRds.XdrServer.SetFrequencyState | src/xdr_server.cpp:516-530 | the window is reset if and only if a frequency other than zero and the stored one is set; queues stay |
| XdrRds.XdrServer.TuneCommand | src/xdr_server.cpp:1094-1107 | a frequency in the band is stored at once, the window stays |
| XdrRds.XdrServer.PushScanLine | src/xdr_server.cpp:549-558 | a line that is not empty is queued with its prefix, at most eight are held |
| XdrRds.RetuneOnRequest | src/xdr_server.cpp:1094-1107 | a requested retune leaves the window as it was |
| XdrRds.Session.constructor | src/xdr_server.cpp:847-862 | a client starts after the newest queued lines |
| XdrRds.Session.Poll | src/xdr_server.cpp:880-921 | a poll gives the fresh lines of both queues and moves the cursors to the end, without changing the server |
| RetuneMute.EnvelopeShape | src/processing_runner.cpp:234-244 | the gain is within 0 and 1, zero exactly between the two fades, and falls within each of them |
| RetuneMute.EnvelopeSlopes | src/processing_runner.cpp:237-244 | both fades are straight lines |
| RetuneMute.FadeExactly | src/processing_runner.cpp:234-236 | a fade takes a two-hundredth of a second or half the mute, whichever is less, and at least one sample |
| RetuneMute.PartitionInvariant | src/processing_runner.cpp:227-253 | the n-th sample is scaled as the state before the first says, for any cut into blocks |
| RetuneMute.ArmedSamplesScaled | src/processing_runner.cpp:227-253 | after arming, exactly the armed number of samples is scaled, each by a gain of its place and that number alone |
| RetuneMute.Muter.Process | src/processing_runner.cpp:227-253 | both channels of a block are scaled by the factors that the specification gives, and the state moves on |
| AutoGain.StepsExactly | include/auto_gain_policy.h:27-40 | the exact condition for a step down, a step up and no step, in numbers, and what each changes |
| AutoGain.Ladders | src/application.cpp:374-384 | the gains of both ladders, boosted or not |
| AutoGain.RungWithinDeadBand | src/application.cpp:374-397 | every rung of both ladders is worth 5 to 8 dB, boosted or not, less than the dead band |
| AutoGain.AutoGainControl.MaybeAdjust | src/runtime_loop.cpp:116-164 | one decision moves the mode by one rung and its timer, or changes nothing |
| AutoGain.OneBlock | include/auto_gain_policy.h:27-40 | in a closed loop a step never reverses the one before, even on samples taken at the gain before it |
| AutoGain.NeverReverses | include/auto_gain_policy.h:27-40 | over any run with constant input the mode only rises or only falls |
| AutoGain.AtMostThreeSteps | src/runtime_loop.cpp:135-156 | the number of steps is the distance travelled on the ladder, at most three |
| AutoGain.StepsSpaced | src/runtime_loop.cpp:131-134 | steps down are at least 900 ms apart, steps up 4000 ms |
| AutoGain.StepOrRest | include/auto_gain_policy.h:27-40 | between blocks 4000 ms apart a step is taken unless the gain is at rest |
| AutoGain.RestsForever | include/auto_gain_policy.h:27-40 | a gain at rest stays |
| AutoGain.HoldsForever | src/runtime_loop.cpp:123-156 | after four stretches of 4000 ms the gain is at rest and holds for good |

## Left out

- GroupDecoding.DecodingExact: C' blocks are taken to be undamaged, because the code recognises them by their clean syndrome only; CPrimeDamage.DamagedCPrimeExact says what happens otherwise.
- Acquisition.SyncFresh: asks that no pulse buffered at the loss is 2^32 bits older than the new sync, because pulse positions are 32-bit and the source accepts that they wrap; CounterWrap.StaleSync is the counterexample without it.
- ScanPlan.RunIsMinimal: compares with splits of one run of missing channels; ScanMinimum compares with all sets of retunes over the whole band.
- PairRuns.PairsNeverTorn: whole pairs and even capacity only; what an odd push or pop does is in the contracts of the methods.
- BiphaseProofs.DataRecovered: assumes ideal symbols, of equal size and opposite phase within each biphase symbol; the phase-locked loop, filters and symbol synchroniser before it, and what a reset does to them, are not part of this model. Relock and EndToEnd say what happens from any other state.
- Squelch.Squelch.Process: takes two different buffers; a null or missing buffer, which the source ignores, has no counterpart.
- AutoGain.HoldsForever: constant input, no more than a 0.0005 share of clipped samples up to -5 dBFS, a gain in force within 900 ms, and nobody else setting the mode.
- Rounding of floating-point numbers: levels, gains, samples and symbols are real numbers. The two scan fractions are the exact values of their single-precision constants; their products are not rounded.
- The exponential in the squelch's ramp constant, which is passed in as a number.
- Locks, condition variables, waiting for data and its deadlines, logging, sockets, authentication and configuration: each modelled operation is one atomic step.
- Spectrum estimation and signal levels: what a capture reports for a channel is any value or none.
- Group type inference, programme decoding, alternative frequencies and block error rates: they drive nothing modelled here. `has_c_prime_` is read but never set.
- The count of bits since sync was lost and the flushing of a partial group, which nothing here uses.
- The complex twin of the staging ring is StagingRing with unit 1; the WAV, MPX and SDRplay rings have the shape of the rings modelled.
- Zeroing of the MPX tap during a mute: it works by whole blocks and so does depend on block boundaries.
- The periodic repetition of the last identification to clients, and the state snapshot sent when they connect.
- Adaptive bandwidth, stereo decoding, demodulation and multipath equalisation.
