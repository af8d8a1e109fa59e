# A verified model of libairspy-rs

This project models the parts of libairspy-rs that turn USB transfers into samples and files, and proves what they promise:

- the fixed-point IQ converter (DC blocker, fs/4 shift, half-band FIR over a sliding queue, circular delay), in place and over any sequence of calls;
- the float converter over exact arithmetic, with its two FIR forms;
- the 12-bit unpacker, its inverse, and the sample-type dispatch with its carried state;
- the streaming engine: reader thread, consumer thread and owner as an interleaving of atomic steps, with the ring, the buffer pool, drop accounting, shutdown and the blocking iterator on top;
- the bulk reader's error policy;
- the numeric parsers, the capture budget with its WAV header, and the SPI-flash walk of the command-line tools.

Where the Rust code updates state in place the model does too: the converters, the scratch, the queue, the reader, the capture and the flash tool are classes whose methods and loops are proved against functions on values, and the theorems are about those functions. Threads are a state machine: a step is one atomic load or store, one critical section, or one notification, and a theorem about a run holds for every interleaving.

Machine integers are written out (`MachineInts`): `as i16` is `Wrap16`, the `wrapping_*` operators are `Wrap32`, `>> 15` is a division rounding down. The unpacker's masks, shifts and ors are defined bit by bit (`Bits`), its methods store the expressions as the source writes them, and `Unpacker.FieldBitsAre` proves them equal to divisions, remainders and sums.

## What was found

- `unpack_samples` documents its count as `input_bytes * 2 / 3`. That holds exactly when the byte count is a multiple of 4 or one more than a multiple of 12 (`Packing.CountIff`); otherwise the code writes fewer.
- Splitting a sample stream between two converter calls changes the output unless the split falls on a multiple of four samples (`ConverterProperties.SplitInvisibleIff`), because the fs/4 phase restarts with each call; likewise in float (`FloatProperties.SplitInvisibleIff`). Every stream buffer, in either geometry, is such a multiple.
- The truncating casts of the fixed-point path can lose something. In calls that end on phase boundaries, as the stream makes them, a fresh stock converter is the filter over unbounded integers on a range of inputs around zero if and only if the range spans at most 32767 (`ExactRange.StreamExactIff`); the DC blocker is what fails beyond (`DcProperties.ExactIff`), because the fs/4 signs make the FIR add up differences of nearby blocker outputs.
- The FIR's own output cast can fail first in two ways. A single call of samples of amplitude 28400 to 31500 with the signs exchanged half-way has an I output off by 2^16 although the blocker was exact throughout (`FirOverflow.FirCastWraps`). And in calls cut elsewhere than on phase boundaries a span of 31506 is safe while 31979 is not (`UnalignedCalls.AnyCalls`). On windows of arbitrary samples the exact limit is amplitude 27889 (`FirProperties.CastLosslessIff`).
- "No callback begins after a stop request" is false (`StreamTheorems.LateCallbackHappens`): one can exactly if, at the request, the consumer has passed its last check and not yet begun the callback (`StreamTheorems.LateCallbackAtStopIff`). Two never can (`StreamTheorems.StopIsFinal`).
- Dropping the block iterator's receiver before calling `stop_rx` matters: in the other order a deadlock is reachable (`BlockIterator.SwappedOrderDeadlocks`).
- The WAV data cap is odd, so a capture it cuts short ends inside a sample, whatever the sample's size (`Capture.CapCutsMidUnit`).

## Model

| member | source | states |
|---|---|---|
| MachineInts.Wrap16Absorbs | crates/libairspy/src/iqconverter_int16.rs:158-161 | truncating the input difference before the sum changes nothing: only the last cast counts |
| MachineInts.Wrap32Absorbs | crates/libairspy/src/iqconverter_int16.rs:116-120 | one wrapping addition of wrapped values is their exact sum wrapped |
| SampleHistory.HistoryIsReversedPast | crates/libairspy/src/iqconverter_int16.rs:110-133 | slot j of the FIR's memory is the sample j steps back, across calls |
| IqConverterInt16.Converter.constructor | crates/libairspy/src/iqconverter_int16.rs:70-84 | a new converter keeps every other tap and starts with an all-zero history and delay line |
| IqConverterInt16.Converter.Reset | crates/libairspy/src/iqconverter_int16.rs:98-106 | after a reset the whole observable state is a fresh converter's |
| IqConverterInt16.Converter.Accumulate | crates/libairspy/src/iqconverter_int16.rs:116-120 | the inner loop computes the wrapped dot product of the kernel with the window in the queue |
| IqConverterInt16.Converter.Slide | crates/libairspy/src/iqconverter_int16.rs:122-128 | for every queue multiplier from 2 on, moving the front, with copy-back on wrap, pushes the new sample onto the history and drops the oldest |
| IqConverterInt16.Converter.FirInterleaved | crates/libairspy/src/iqconverter_int16.rs:110-133 | in place on the even samples: each becomes its FIR output over the newest-first history; odd samples, delay line and DC state untouched |
| IqConverterInt16.Converter.DelayInterleaved | crates/libairspy/src/iqconverter_int16.rs:137-148 | in place on the odd samples: a first-in first-out delay of the line's length; even samples untouched |
| IqConverterInt16.Converter.RemoveDc | crates/libairspy/src/iqconverter_int16.rs:152-170 | in place: every sample becomes the recurrence's output and the three state fields its final state |
| IqConverterInt16.ApplyFs4Phases | crates/libairspy/src/iqconverter_int16.rs:196-212 | every position, partial tails included, gets the phase of its index modulo 4 |
| IqConverterInt16.Converter.Process | crates/libairspy/src/iqconverter_int16.rs:176-187 | one call's output and new state as functions of the old state and the input |
| DcProperties.ErrorFeedbackLosesNothing | crates/libairspy/src/iqconverter_int16.rs:158-162 | with the error in 0..32767 nothing but the output cast can lose anything, and the error stays there |
| DcProperties.OutputConserved | crates/libairspy/src/iqconverter_int16.rs:152-170 | over every run 668 times the summed output plus 2^31 times the net wraps equals 32768 (x_N - x_0) + (e_0 - e_N) - 32100 (y_N - y_0) |
| DcProperties.SumBounded | crates/libairspy/src/iqconverter_int16.rs:152-170 | without wraps the summed output is bounded independently of the run's length |
| DcProperties.LevelMovesTowardsInput | crates/libairspy/src/iqconverter_int16.rs:158-160 | before the output cast, the tracked level x - y lands between its previous value and the previous input |
| DcProperties.HullStep | crates/libairspy/src/iqconverter_int16.rs:158-164 | on inputs spanning at most 32767 the same holds of the output as cast, which is exact, and the hull is kept |
| DcProperties.HullRun | crates/libairspy/src/iqconverter_int16.rs:152-170 | the level never leaves the hull of the inputs and 0, outputs stay within its width, nothing wraps |
| DcProperties.ExactIff | crates/libairspy/src/iqconverter_int16.rs:161 | a fresh blocker never truncates on a range of inputs around 0 if and only if it spans at most 32767 |
| DcProperties.ConstantRemoved | crates/libairspy/src/iqconverter_int16.rs:150-170 | from every state a constant input ends in outputs of exactly 0 |
| FirProperties.FirIsConvolution | crates/libairspy/src/iqconverter_int16.rs:110-133 | for every kernel the sliding queue computes convolution with zeros before the start |
| FirProperties.FirAppend | crates/libairspy/src/iqconverter_int16.rs:110-133 | the FIR over two calls is the FIR over their concatenation |
| FirProperties.StockTaps | crates/libairspy/src/filters.rs:12-17 | the 24 taps kept of the stock kernel |
| FirProperties.StockTapsSum | crates/libairspy/src/filters.rs:12-17 | their absolute sum is 38500 |
| FirProperties.AccumulatorNeverWraps | crates/libairspy/src/iqconverter_int16.rs:116-120 | with the stock kernel no partial sum over 16-bit samples leaves 32 bits |
| FirProperties.CastLosslessIff | crates/libairspy/src/iqconverter_int16.rs:130 | the output cast is lossless on all windows of amplitude s if and only if s is at most 27889 |
| ConverterProperties.OutputInClosedForm | crates/libairspy/src/iqconverter_int16.rs:70-187 | a fresh converter's whole output: I is the convolution of the even phase samples, Q the odd ones delayed |
| ConverterProperties.ProcessAppend | crates/libairspy/src/iqconverter_int16.rs:176-187 | two calls equal one on the concatenation, outputs and state, when the first is a multiple of four samples |
| ConverterProperties.BlocksAreOneCall | crates/libairspy/src/iqconverter_int16.rs:176-187 | any number of aligned calls equals one call |
| ConverterProperties.SplitInvisibleIff | crates/libairspy/src/iqconverter_int16.rs:172-180 | with the stock kernel a split after n samples is never visible if and only if n is a multiple of 4 |
| ExactFilter.RotationIsShift | crates/libairspy/src/iqconverter_int16.rs:190-212 | over unbounded integers the sign and shift pattern is multiplication by a phasor turning a quarter per sample |
| ExactFilter.PhaseIsShift | crates/libairspy/src/iqconverter_int16.rs:196-212 | the source's pattern with its casts is that too, if and only if the sample is not -32768 at a position that is negated |
| ExactFilter.StateIsExact | crates/libairspy/src/iqconverter_int16.rs:110-212 | up to a span of 32767 the carried state, and all the FIR and the delay are fed, are the exact filter's in every call |
| ExactFilter.CallIsExact | crates/libairspy/src/iqconverter_int16.rs:110-212 | from any state that has seen only inputs spanning at most 27889, a call on such inputs equals the filter over unbounded integers |
| ExactRange.OutputsDiffer | crates/libairspy/src/iqconverter_int16.rs:152-170 | two blocker outputs differ by at most the inputs' span and 669 per sample in between |
| ExactRange.PairBound | crates/libairspy/src/iqconverter_int16.rs:110-212 | taps that weigh the same see samples of opposite phase, so their sum is bounded that way |
| ExactRange.CallExactIff | crates/libairspy/src/iqconverter_int16.rs:110-212 | one call from a fresh stock converter is the exact filter on a range of inputs around 0 if and only if it spans at most 32767 |
| ExactRange.StreamExactIff | crates/libairspy/src/iqconverter_int16.rs:110-212 | likewise whole streams in calls ending on phase boundaries, against the exact filter of all their samples in one go |
| HalfBand.ExactIsHalfBand | crates/libairspy/src/iqconverter_int16.rs:110-212 | the unbounded filter's two branches are the real and imaginary part of the whole 47-tap table applied to the signal times the phasor, every other output, scaled by 2^-15 |
| HalfBand.ConverterIsHalfBand | crates/libairspy/src/iqconverter_int16.rs:110-212 | so is a fresh converter's call on inputs spanning at most 32767, of its own DC-free signal |
| FirOverflow.FirCastWraps | crates/libairspy/src/iqconverter_int16.rs:130 | on a real input of every amplitude from 28400 to 31500 the 24th I output is off by 2^16 although every blocker output is exact |
| AnyCallsExact.WeightBound | crates/libairspy/src/iqconverter_int16.rs:110-170 | however the inputs and cuts are chosen, the level moves so far that the taps' weighted outputs stay under one bound per tap |
| AnyCallsExact.AnyCallsAreExact | crates/libairspy/src/iqconverter_int16.rs:110-212 | every sequence of calls of any lengths from a fresh stock converter equals the filter over unbounded integers, outputs and state, on inputs spanning at most 31506 |
| UnalignedCalls.AnyCalls | crates/libairspy/src/iqconverter_int16.rs:110-212 | in calls of any lengths every stream spanning at most 31506 is exact, and on every range spanning 31979 or more some stream is not |
| IqConverterFloat.Converter.constructor | crates/libairspy/src/iqconverter_float.rs:51-62 | a new float converter: kept taps, centre tap, zero state |
| IqConverterFloat.Converter.FirSymmetric | crates/libairspy/src/iqconverter_float.rs:80-102 | the symmetric-pair form, in place over the sliding queue |
| IqConverterFloat.ProcessFirTaps | crates/libairspy/src/iqconverter_float.rs:109-137 | the 8/4/2 grouping is the dot product of the first 2 floor(n/2) taps for every n |
| IqConverterFloat.Converter.FirGeneric | crates/libairspy/src/iqconverter_float.rs:140-155 | the generic form, in place over the sliding queue |
| IqConverterFloat.Converter.FirInterleaved | crates/libairspy/src/iqconverter_float.rs:160-166 | lengths 4, 8, 12 and 24 take the symmetric form, all others the generic one |
| IqConverterFloat.Converter.DelayInterleaved | crates/libairspy/src/iqconverter_float.rs:169-180 | in place on the odd samples: a first-in first-out delay |
| IqConverterFloat.Converter.RemoveDc | crates/libairspy/src/iqconverter_float.rs:183-190 | the running-average removal and its state |
| IqConverterFloat.ApplyPhases | crates/libairspy/src/iqconverter_float.rs:196-203 | whole chunks of four are multiplied, a partial tail is left alone |
| IqConverterFloat.Converter.Process | crates/libairspy/src/iqconverter_float.rs:196-213 | one call's output and new state as functions of the old state and the input |
| FloatDc.AverageMoves | crates/libairspy/src/iqconverter_float.rs:183-190 | each output is the input less the average so far, which then moves a hundredth of the way to the input |
| FloatDc.OutputConserved | crates/libairspy/src/iqconverter_float.rs:183-190 | over every run the summed output is 100 times what the average has moved |
| FloatDc.AverageInHull | crates/libairspy/src/iqconverter_float.rs:183-190 | the average stays in the hull of its start and the inputs, outputs within its width |
| FloatDc.ConstantDecays | crates/libairspy/src/iqconverter_float.rs:183-190 | output t on a constant input x is (99/100)^t (x - avg) |
| FloatDc.ConstantDiesAway | crates/libairspy/src/iqconverter_float.rs:183-190 | from every state a constant input ends below any positive bound and stays there |
| HalfBandFloat.PhaseIsShift | crates/libairspy/src/iqconverter_float.rs:196-203 | the phases are multiplication by the phasor, imaginary parts scaled by the centre tap |
| HalfBandFloat.ConverterIsHalfBand | crates/libairspy/src/iqconverter_float.rs:80-213 | a fresh converter's call on whole chunks is exactly the 47-tap float filter of the shifted DC-free signal, every other complex output |
| HalfBandFloat.TablesAgree | crates/libairspy/src/filters.rs:12-55 | every fixed-point tap is the float tap in steps of 2^-15, rounded to nearest |
| FloatProperties.FormsAgreeIff | crates/libairspy/src/iqconverter_float.rs:80-166 | for an even number of taps the two forms agree on every window if and only if the taps are a palindrome |
| FloatProperties.FormsRunAlike | crates/libairspy/src/iqconverter_float.rs:80-166 | then they agree over any samples from any history |
| FloatProperties.StockKernelIsSymmetric | crates/libairspy/src/filters.rs:29-55 | the stock kernel's 24 kept taps are a palindrome, take the symmetric form, and the forms agree on them |
| FloatProperties.ProcessAppend | crates/libairspy/src/iqconverter_float.rs:196-213 | two calls equal one on the concatenation when the first is whole chunks of four |
| FloatProperties.SplitInvisibleIff | crates/libairspy/src/iqconverter_float.rs:196-213 | for every kernel with a nonzero first tap a split after n samples is never visible if and only if n is a multiple of 4 |
| Unpacker.UnpackSamples | crates/libairspy/src/conversion.rs:31-95 | for all input and output lengths: as many samples as both allow are written, each the 12 bits at its position, and later slots keep their value |
| Unpacker.FieldIsSample | crates/libairspy/src/conversion.rs:51-58 | each of the eight bit expressions is the 12-bit slice at its position in the word stream |
| Bits.AndLow | crates/libairspy/src/conversion.rs:51-58 | a mask of the low bits is a remainder |
| Bits.AndAbove | crates/libairspy/src/conversion.rs:54-56 | a mask of higher bits works above the shift |
| Bits.OrBelow | crates/libairspy/src/conversion.rs:53-56 | or-ing bits below a shifted value adds them |
| Unpacker.FieldBitsAre | crates/libairspy/src/conversion.rs:51-58 | each of the eight shift, mask and or expressions as written is its division form |
| Packing.BaseChange | crates/libairspy/src/conversion.rs:43-59 | on whole groups the words in base 2^32 and the samples in base 4096 are the same number |
| Packing.UnpackUndoesPack | crates/libairspy/src/conversion.rs:319-327 | unpacking packed samples returns them |
| Packing.PackUndoesUnpack | crates/libairspy/src/conversion.rs:319-327 | packing unpacked bytes returns them |
| Packing.CountIff | crates/libairspy/src/conversion.rs:97-101 | the documented count is what the input holds if and only if n is a multiple of 4 or 1 modulo 12, and never less |
| Packing.AvailableByGroups | crates/libairspy/src/conversion.rs:61-94 | eight samples a group, and 0, 2 or 5 for 0, 1 or 2 leftover words |
| Packing.UnpackAppend | crates/libairspy/src/conversion.rs:43-59 | whole groups unpack independently of what follows |
| Conversion.ConvertSamplesInt16 | crates/libairspy/src/conversion.rs:124-128 | the loop centres and scales every word |
| Conversion.ConvertSamplesFloat | crates/libairspy/src/conversion.rs:132-136 | likewise in float, exactly |
| Conversion.Scratch.constructor | crates/libairspy/src/conversion.rs:169-180 | a fresh scratch carries both stock converters in their fresh state |
| Conversion.Scratch.PrepareWords | crates/libairspy/src/conversion.rs:292-309 | the words of the block in either packing mode, never stale ones, and no converter state touched |
| Conversion.Scratch.ConvertBlock | crates/libairspy/src/conversion.rs:218-287 | samples, count and carried state for every sample type, packing mode and byte count |
| ConversionSpec.BlockAppend | crates/libairspy/src/conversion.rs:218-309 | a block that is a multiple of four words and the next convert as their concatenation, for all six sample types |
| ConversionSpec.CountAppend | crates/libairspy/src/conversion.rs:218-287 | and their counts add up |
| ConversionSpec.BoundariesInvisible | crates/libairspy/src/conversion.rs:218-309 | any number of such blocks converts as all their bytes in one shot |
| ConversionSpec.StreamBuffersInvisible | crates/libairspy/src/stream.rs:33-51 | in particular the buffers of both transfer geometries |
| ConversionSpec.IqBlocksArePrefixes | crates/libairspy/src/conversion.rs:253-281 | an IQ block delivers the converter's output in order, all of it but an unpaired last value |
| ConversionSpec.CountIs | crates/libairspy/src/conversion.rs:218-287 | the count is half the delivered values for IQ, all of them for real types, the packed or 16-bit samples for raw |
| ConversionSpec.DeliveredValues | crates/libairspy/src/conversion.rs:218-287 | of packed samples each real type delivers the samples themselves, (s - 2048) 16, or (s - 2048) / 2048, and raw the bytes |
| ConversionSpec.FloatIsScaledInt16 | crates/libairspy/src/conversion.rs:124-136 | a 12-bit word's float value is its 16-bit value over 2^15, in [-1, 1) |
| ConversionSpec.WordsHaveBytes | crates/libairspy/src/conversion.rs:292-309 | an unpacked word is its two bytes, low byte first |
| ConversionSpec.PackedWordsCentred | crates/libairspy/src/conversion.rs:118-128 | on a packed stream the centring conversion never truncates |
| ConversionSpec.TwelveBitWordFits | crates/libairspy/src/conversion.rs:118-128 | the centring conversion loses nothing on exactly the words of at most 12 bits |
| Transport.Reader.constructor | crates/libairspy/src/transport.rs:279-292 | priming puts the whole pool in flight |
| Transport.Reader.RecordTransient | crates/libairspy/src/transport.rs:219-231 | one more failure in both counters; keep going up to 64 in a row |
| Transport.Reader.ResubmitOrStop | crates/libairspy/src/transport.rs:236-247 | the buffer goes back in flight exactly when the run may go on |
| Transport.Reader.HandleBulkCompletion | crates/libairspy/src/transport.rs:332-384 | for a full transfer, each of the three unrecoverable errors, and everything else: counters, transfers in flight, and whether to go on |
| Transport.Reader.RunBulkStream | crates/libairspy/src/transport.rs:292-303 | on any trace the loop stops exactly at the first unrecoverable error or 65th failure since the last full transfer; the total is the failures handled; the pool is in flight at every loop head |
| Transport.EndsIff | crates/libairspy/src/transport.rs:203-247 | an event ends the stream exactly if it is one of the three unrecoverable errors or the 65th other failure since the last full transfer, counted over the events themselves |
| Transport.OneEvent | crates/libairspy/src/transport.rs:353-365 | a first event ends the stream if and only if it is Disconnected, Stall or InvalidArgument |
| Transport.FaultStorm | crates/libairspy/src/transport.rs:28-33 | a run of short or overlong transfers, Cancelled, Fault and Unknown, in any mix, ends the stream if and only if it is longer than 64 |
| Transport.StormRestarts | crates/libairspy/src/transport.rs:219-231 | an arrival between two such runs restarts the count if and only if it has the full length |
| ReaderPolicy.ReaderFollowsPolicy | crates/libairspy/src/transport.rs:292-303 | over every run of a session the reader's count is the failures since the last full transfer, and a received event makes it leave its loop, fifteen transfers in flight, if and only if that event ends the stream |
| ReaderPolicy.LeftReaderEnds | crates/libairspy/src/transport.rs:312-323 | once out of its loop, for whatever reason, the reader is done within 20 of its own steps, takes no further transfer, and leaves the queue shut down |
| ReaderPolicy.EndpointMustOpen | crates/libairspy/src/transport.rs:260-277 | an endpoint that does not open ends the stream at once |
| ReaderPolicy.StreamGoesOn | crates/libairspy/src/stream.rs:265-302 | while no stop is asked for, every callback says to go on and nothing received ends the stream, both threads stay in their loops and the flags stay up |
| SampleQueue.Queue.WithPool | crates/libairspy/src/stream.rs:108-130 | the initial ring and pool |
| SampleQueue.Queue.TryAcquireFree | crates/libairspy/src/stream.rs:141-152 | the critical section as a function of the guarded state |
| SampleQueue.Queue.PushFilled | crates/libairspy/src/stream.rs:177-194 | likewise, full ring included |
| SampleQueue.Queue.PopFilledPass | crates/libairspy/src/stream.rs:198-212 | likewise, for each time the lock is held |
| SampleQueue.Queue.Recycle | crates/libairspy/src/stream.rs:216-222 | likewise |
| SampleQueue.Queue.Shutdown | crates/libairspy/src/stream.rs:226-231 | likewise |
| SampleQueue.RecycledFirst | crates/libairspy/src/stream.rs:141-152 | the pool is last in, first out |
| QueueSession.StepIsOperation | crates/libairspy/src/stream.rs:141-231 | every step of the session changes the queue by at most one of those critical sections, on what its thread holds |
| QueueSession.Play | crates/libairspy/src/stream.rs:108-231 | any interleaving played against a queue object takes it through exactly the session's queue states |
| StreamProtocol.Delivery | crates/libairspy/src/transport.rs:344-352 | the steps by which one full transfer is received, copied and queued, and where they lead |
| StreamProtocol.Taking | crates/libairspy/src/stream.rs:277-290 | the steps by which the consumer takes an entry and is cleared to deliver it |
| StreamSafety.InvAlways | crates/libairspy/src/stream.rs:177-302 | the invariant of the session holds in every state any interleaving reaches |
| StreamSafety.PartitionKept | crates/libairspy/src/stream.rs:141-222 | every step keeps the nine buffers partitioned over pool, ring and the two hands, and the ring within capacity |
| StreamSafety.AccountedKept | crates/libairspy/src/stream.rs:174-194 | every step keeps each entry's count equal to the transfers lost before it, up to saturation |
| StreamSafety.WakeupKept | crates/libairspy/src/stream.rs:177-231 | every step keeps a consumer asleep on data or shutdown about to be notified |
| StreamTheorems.BuffersConserved | crates/libairspy/src/stream.rs:108-222 | each buffer is in exactly one place at the latched length, so the reader's copy always fits |
| StreamTheorems.TransfersConserved | crates/libairspy/src/stream.rs:141-212 | good transfers = popped + queued + carried and pending drops + the one in hand; delivery is first in, first out |
| StreamTheorems.PositionsExact | crates/libairspy/src/stream.rs:287-295 | adding up samples and dropped_samples gives every delivered block's exact position in the device's stream |
| StreamTheorems.DroppedSamplesFit | crates/libairspy/src/stream.rs:294 | the 64-bit product never wraps |
| StreamTheorems.StopIsFinal | crates/libairspy/src/stream.rs:257-302 | once not running never running again; at most one more callback, none after a callback said stop, nothing after stop_rx has returned |
| StreamTheorems.AtMostOneMorePop | crates/libairspy/src/stream.rs:265-290 | once not running the consumer takes at most one more entry, however much is queued |
| StreamTheorems.SaidStopIsLast | crates/libairspy/src/stream.rs:291-301 | no callback begins after one returned false |
| StreamTheorems.LateCallbackHappens | crates/libairspy/src/stream.rs:281-295 | an interleaving in which a callback begins after the stop request |
| StreamTheorems.LateCallbackIff | crates/libairspy/src/stream.rs:277-301 | from any state no longer running another callback can begin if and only if the consumer is already cleared for it |
| StreamTheorems.LateCallbackAtStopIff | crates/libairspy/src/stream.rs:277-301 | after stop_rx is called on a running stream a callback can begin if and only if the consumer had passed its last check |
| StreamLiveness.NoDeadlock | crates/libairspy/src/stream.rs:198-231 | no lost wake-up, and some thread can always step until all are done |
| StreamLiveness.SpuriousWakeHarmless | crates/libairspy/src/stream.rs:198-212 | a spurious wake-up is possible at any time and changes nothing while there is nothing to take |
| StreamLiveness.ReaderEnds | crates/libairspy/src/transport.rs:294-323 | at most 28 reader steps after the stream stopped running, then the queue is shut down |
| StreamLiveness.JoinsReturn | crates/libairspy/src/stream.rs:428-447 | once stopping, every interleaving is over within 47 steps and ends with both threads done |
| BlockIterator.IteratorSeesPrefix | crates/libairspy/src/reader.rs:65-88 | what the iterator returns is a prefix of the callback deliveries, under every interleaving |
| BlockIterator.NoneMeansAll | crates/libairspy/src/reader.rs:84-88 | None comes only after every delivery has been returned |
| BlockIterator.IteratingNeverStuck | crates/libairspy/src/reader.rs:57-67 | while iterating only the iterator's own idleness can hold the stream up |
| BlockIterator.TeardownTerminates | crates/libairspy/src/reader.rs:91-98 | once the stop has reached the queue at most 47 steps follow, never stuck before both threads have ended, nothing more delivered |
| BlockIterator.DropTerminates | crates/libairspy/src/reader.rs:91-98 | from the moment the receiver is dropped: four owner steps, never blocked, bring the stop to the queue, and then the above |
| BlockIterator.FailedSendIsLast | crates/libairspy/src/reader.rs:57-67 | after a send that found the receiver gone no further callback begins, stop_rx or not |
| BlockIterator.SwappedOrderDeadlocks | crates/libairspy/src/reader.rs:75-98 | stopping first, a state with no enabled step is reachable |
| EndToEnd.NoDropsMeansOneShot | crates/libairspy/src/stream.rs:265-302 | while nothing is reported dropped, the callbacks' samples are the one-shot conversion of everything sent |
| EndToEnd.PackedStreamIsExact | crates/libairspy/src/conversion.rs:218-309 | the I/Q samples of a whole packed stream are the exact filter's output on its centred samples, whenever those span at most 32767 |
| Parsers.StrtoullWhole | crates/airspy-tools/src/lib.rs:61-109 | the natural value, its negation modulo 2^64, or the maximum exactly when the digits denote 2^64 or more; rejection exactly of non-numerals |
| Parsers.ParseU64 | crates/airspy-tools/src/lib.rs:37-52 | base selection by raw prefix, then the above |
| Parsers.ParseU64UndoesPrint | crates/airspy-tools/src/gpio_cli.rs:248-256 | parsing a printed serial number returns it |
| ParserRoundTrips.NumbersDenote | crates/airspy-tools/src/lib.rs:61-109 | in every base a printed number parses to itself or clamps; plus changes nothing, minus negates modulo 2^64 |
| ParserRoundTrips.ParseU64Decimal | crates/airspy-tools/src/lib.rs:37-52 | decimal prints, bare or signed, parse to what they say |
| ParserRoundTrips.ParseU64Prefixed | crates/airspy-tools/src/lib.rs:37-52 | hexadecimal prints behind 0x or 0X and binary ones behind 0b or 0B parse to the number |
| ParserRoundTrips.ParseU64Clamps | crates/airspy-tools/src/lib.rs:61-109 | numbers of more than 64 bits clamp in every notation |
| ParserRoundTrips.BlanksDenote | crates/airspy-tools/src/lib.rs:61-74 | any run of the six white-space characters in front is skipped |
| ParserRoundTrips.LeadingCharacter | crates/airspy-tools/src/lib.rs:61-74 | and no other character may stand there |
| ParserRoundTrips.SignIsLast | crates/airspy-tools/src/lib.rs:69-80 | behind a sign neither a second sign nor white space is accepted |
| ParserRoundTrips.TrailingCharacter | crates/airspy-tools/src/lib.rs:86-109 | nothing may follow the number |
| ParserRoundTrips.PrefixSkipped | crates/airspy-tools/src/lib.rs:76-86 | in base 16 one more 0x is skipped, in either case, behind a sign as well |
| ParserRoundTrips.OnePrefixOnly | crates/airspy-tools/src/lib.rs:76-86 | and only one |
| ParserRoundTrips.CaseDoesNotMatter | crates/airspy-tools/src/lib.rs:86-100 | upper-case digits have the value of the lower-case ones |
| ParserRoundTrips.SerialAgrees | crates/libairspy/src/device.rs:123-152 | on every tail that is a number and nothing else the descriptor parser agrees with the command line's |
| ParserRoundTrips.SignedDecimalUndoesPrint | crates/airspy-tools/src/gpio_cli.rs:76-97 | the signed decimals of parse_u8 are the printed ones |
| Parsers.ParseSerialUndoesPrint | crates/libairspy/src/device.rs:101-152 | any ten prefix bytes, a printed serial and anything from a character boundary on parse to that serial |
| Parsers.ParseSerialRejects | crates/libairspy/src/device.rs:101-121 | short descriptors and ones cut inside a character at byte 10 or 26 are rejected; the first ten bytes otherwise do not matter |
| Parsers.SerialNeverOverflows | crates/libairspy/src/device.rs:123-152 | a descriptor tail is rejected only for want of a digit |
| Parsers.ParseU8 | crates/airspy-tools/src/gpio_cli.rs:76-97 | accepts exactly the signed decimals denoting 0 to 255 |
| Capture.ExtendSampleBytes | crates/airspy-tools/src/rx.rs:369-394 | appends the block's little-endian sample memory |
| Capture.WordBytesReadBack | crates/airspy-tools/src/rx.rs:369-394 | those bytes read back as 16-bit words are the block |
| Capture.IntBytesReadBack | crates/airspy-tools/src/rx.rs:369-394 | likewise for signed samples |
| Capture.FloatBytesReadBack | crates/airspy-tools/src/rx.rs:369-394 | likewise for 32-bit float patterns |
| Capture.ApplyByteBudget | crates/airspy-tools/src/rx.rs:328-341 | what the budget lets through and what is left |
| Capture.KeptIs | crates/airspy-tools/src/rx.rs:328-341 | what is kept is a prefix, of exactly the budget if that is exceeded; exhausted means it is all used |
| Capture.StartBudgetIs | crates/airspy-tools/src/bin/airspy_rx.rs:361-369 | with -w the budget is the limit, or the most for which the file length fits 32 bits |
| Capture.KeptSnoc | crates/airspy-tools/src/rx.rs:328-341 | block by block the budget keeps exactly a prefix of all bytes |
| Capture.WavHeaderPlaceholder | crates/airspy-tools/src/wav.rs:118-126 | the chunk ids and the format size, everything else zero |
| Capture.WavHeaderFinalized | crates/airspy-tools/src/wav.rs:136-160 | every field decodes to its value |
| Capture.AlignIsFrame | crates/airspy-tools/src/wav.rs:148-158 | for whole-byte samples 8 times the alignment field is channels times bits |
| Capture.ChunkIds | crates/airspy-tools/src/wav.rs:118-126 | the ids spell RIFF, WAVE, fmt and data |
| Capture.Capture.constructor | crates/airspy-tools/src/bin/airspy_rx.rs:361-380 | the starting budget and, for WAV, the placeholder |
| Capture.Capture.OnTransfer | crates/airspy-tools/src/bin/airspy_rx.rs:64-93 | the file gains exactly what the budget allows; false exactly when it is exhausted |
| Capture.Capture.Finalize | crates/airspy-tools/src/bin/airspy_rx.rs:462-479 | RIFF size is the file length less 8, data size the bytes kept, with no wrap; the data is untouched |
| Capture.CaptureAll | crates/airspy-tools/src/bin/airspy_rx.rs:64-93 | over any blocks the data is exactly the first bytes up to the budget, and the first false comes at the block exhausting it |
| Capture.CapCutsMidUnit | crates/airspy-tools/src/wav.rs:52-57 | for every limit and every even unit size, a capture ends on a unit boundary exactly if it was not cut, or was cut by a limit within the cap that is whole units |
| Flash.ValidateRange | crates/airspy-tools/src/flash_cli.rs:27-35 | accepts exactly the non-empty ranges inside the flash |
| Flash.Chunks.Next | crates/airspy-tools/src/flash_cli.rs:39-52 | the next stretch of 1 to 256 bytes, without 32-bit overflow |
| Flash.TransferChunks | crates/airspy-tools/src/flash_cli.rs:37-52 | draining the iterator yields exactly the walk, length / 256 chunks rounded up |
| Flash.WalkPartitions | crates/airspy-tools/src/flash_cli.rs:37-52 | the chunks are contiguous, cover the range exactly, and pass the write's address check |
| Flash.SplitRecombines | crates/libairspy/src/peripherals.rs:140-143 | high and low parts recombine to the address |
| Flash.Device.SpiflashWrite | crates/libairspy/src/peripherals.rs:129-146 | refusals exactly by address and length, otherwise the data is stored at the address |
| Flash.Device.SpiflashRead | crates/libairspy/src/peripherals.rs:150-168 | refusal by length only, otherwise the bytes at the address |
| Flash.WriteFlash | crates/airspy-tools/src/bin/airspy_spiflash.rs:66-94 | on every accepted range the writes made are the walk, none is refused, and the flash ends up as the data over erased bytes |
| Flash.ReadFlash | crates/airspy-tools/src/bin/airspy_spiflash.rs:36-62 | on every accepted range the reads made are the walk, and give the bytes of the range in order |
| Flash.ImageReadsBack | crates/airspy-tools/src/bin/airspy_spiflash.rs:36-94 | a written image reads back as the data, every other byte erased |

## Left out

- UnalignedCalls.AnyCalls: leaves open what happens in calls of arbitrary lengths on spans from 31507 to 31978. The exact integer limit depends on the best choice of cuts and inputs over a whole window and on every rounding of the level in it.
- Floating-point rounding: the float converter and the float conversions are over exact reals, so bit-exactness against the golden vectors is not modelled, nor the narrowing of the float taps.
- The transport itself: completions, timeouts and whether the endpoint opens are arbitrary inputs; that a timed wait and a callback return at all is assumed by the liveness theorems.
- Mutex poisoning, thread-spawn failures, and the error results of device commands around start and stop.
- Converters built from a kernel of fewer than two taps: the source constructs them and then panics on the first sample, the constructors here require two.
- The device behind the flash driver is a plain array of bytes: a write past its end is lost, a read past it yields erased bytes; short reads reported by the transport are not modelled.
- Output failures in the capture: writes, flushes and reopening succeed; float samples are captured as their bit patterns.
- SampleQueue.Queue.PopFilledPass: models one pass under the lock; sleeping and waking are steps of the session state machine.
- A second session after a restart: `start_rx` on a stopped session is followed up to its joins, not into the new threads.
- Console output, the rate display, argument definitions, gain tables, register and GPIO replay, calibration records, and the tokio and smol adapters, which repeat the blocking iterator's bridge: they would add only easy members.
