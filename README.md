# DCF77 decoder — a verified Dafny model

This project models the DCF77 time-signal decoder of the Arduino library `DCF77`, found in
`DCF77/DCF77.cpp` and `DCF77/DCF77.h`. DCF77 is the German longwave time code. Every second
the carrier drops for 100 ms (a 0 bit) or 200 ms (a 1 bit). Second 59 carries no drop, and
that gap marks the start of the next minute.

The decoder is one object that the sketch polls. Each call of `sampleSignal` reads the clock and
the receiver's (inverted) output and does five things:

- it throttles itself to one sample every 10 ms;
- it judges the length of each pulse against tolerance windows;
- it keeps a second cursor (-1 while unsynchronised, otherwise 0..59);
- it stores one bit per second in a 59-slot frame;
- at the minute marker, it checks bit 0 and three even-parity blocks, then publishes the BCD-coded year, month, day, hour and minute.

The model has the same shape:

- `pulse.dfy` (module `Pulse`): the signal level, the pin inversion, the pulse tolerance check
  and the bit a LOW pulse carries.
- `frame.dfy` (module `Frame`): the 59-slot frame, even parity over a slot range, the frame
  check and the five weighted field sums. The sums are proved equal to BCD values of their
  slots, with their ranges and round trips.
- `machine.dfy` (module `Machine`): the object's fields as a value `State`, and one call of the
  sampler as the function `Step`. A class invariant `Inv` is preserved by `Step`. The lemmas
  state what a single call promises: throttling, clock reset, bit writes, cursor discipline,
  the minute marker and publication.
- `decoder.dfy` (module `Decoder`): the class `DCF77`. Its fields mirror the C++ members, and
  `bits` is an `array<int>` of length 59. The constructor, `CheckEvenParity` (the summing
  loop), `CheckBits` and `SampleSignal` are methods; the getters are functions. Each method is
  proved to change the fields exactly as the matching function of `Machine` says. To keep each
  proof small, `sampleSignal` is split into `SampleSignal` (clear, overflow guard, throttle,
  held level), `OnFlank` (source lines 118-138), `OnSecondStart` (140-164), `Publish`
  (153-158) and `OnBitEnd` (166-184). Its early returns become an if/else chain with the same
  branches.
- `transmitter.dfy` (module `Transmitter`): the sending side, used as a reference. `Encode`
  lays a time out in a frame with parity bits that make each block even. The lemmas prove that
  every encoded frame passes the decoder's check and decodes back to the time that was sent.
- `scenario.dfy` (module `Scenario`): runs of the sampler over a sequence of samples. A second
  of signal is within the tolerances when its LOW pulse lasts 50-150 ms (a 0) or 150-250 ms
  (a 1) and its HIGH part 750-950 ms, or 1750-1950 ms for the last second, which runs on to
  the next marker. Between two flanks the caller may poll as often as it likes: calls inside
  the 10 ms interval read anything, the others read the held level. For every such signal,
  one second records its bit, a whole minute fills the frame and closes it, and after power-on
  and one marker the first full minute publishes exactly the transmitted time. The ideal
  signal (100/200 ms pulses, 1000 ms seconds, one call per flank) is one such signal, and
  2014-01-01 12:00 is a concrete instance.

Hardware calls become parameters:

- `millis()` is the `currentTime: nat` argument.
- `digitalRead(signalPin)` is the raw `pin: Level` argument. `ReadSignalPin` inverts it, as
  source line 50 does.
- `pinMode` and the pin number are not modelled.

Behaviour the model keeps from the code:

- Every call, a throttled one included, first sets the error to `None` and clears the three
  flags (source lines 86-89). Only then does it test the clock overflow and the throttle.
  A throttled call therefore does not keep the previous call's flags.
- The decoder never checks calendar ranges. A frame of bits decodes to a year in [2000, 2165],
  a month up to 25, a day and an hour up to 45 and a minute up to 85, and the model proves
  exactly those ranges.

## Model

| member | source | states |
|---|---|---|
| Pulse.ReadSignalPin | DCF77/DCF77.cpp:48-51 | the level used is always the opposite of the pin's level (the module drives its line inverted) |
| Pulse.CheckPulseDuration | DCF77/DCF77.cpp:53-63 | the tolerance test, branch for branch; what it accepts is stated by FinalWindows and RelaxedBound |
| Pulse.FinalWindows | DCF77/DCF77.cpp:53-63 | the final check accepts a LOW pulse iff 50 < d < 250 and a HIGH pulse iff 750 < d < 950 or 1750 < d < 1950 |
| Pulse.RelaxedBound | DCF77/DCF77.cpp:53-63 | with `maximumOnly` only the upper bound remains: d < 250 for LOW, d < 1950 for HIGH |
| Pulse.FinalImpliesRelaxed | DCF77/DCF77.cpp:53-63 | every pulse that passes the final check passes the relaxed one |
| Pulse.TooLongStaysInvalid | DCF77/DCF77.cpp:106-113 | a held level that fails the relaxed check can never become valid by lasting longer, so giving up early loses nothing |
| Pulse.HighPulseIsSecondOrMarker | DCF77/DCF77.cpp:58-62 | a valid HIGH pulse is either an ordinary second (< 950) or a minute marker (> 1750), never both |
| Pulse.BitOf | DCF77/DCF77.cpp:178-183 | the value written into a slot is always 0 or 1 |
| Frame.EvenParity | DCF77/DCF77.cpp:65-73 | even parity of the inclusive slot range, the value `checkEvenParity` returns; ParityCountsOnes states it as a count of ones |
| Frame.ChecksumOk | DCF77/DCF77.cpp:75-81 | slot 0 is 0 and the three parity ranges are even; its partners are EncodedPassesCheck and ChecksumDetectsSingleFlip |
| Frame.SumOfBitsCountsOnes | DCF77/DCF77.cpp:65-73 | on a frame of bits, the sum over a slot range equals the number of ones in it |
| Frame.ParityCountsOnes | DCF77/DCF77.cpp:65-73 | even parity over [from, to] holds iff that inclusive range holds an even number of ones |
| Frame.SumUpdate | DCF77/DCF77.cpp:65-73 | writing a slot changes a range's sum by the difference if the slot is inside, and not at all otherwise |
| Frame.FlipTogglesParity | DCF77/DCF77.cpp:65-73 | flipping one slot inside a range flips that range's parity |
| Frame.ParityIgnoresOtherSlots | DCF77/DCF77.cpp:65-73 | a slot outside a range does not affect its parity |
| Frame.ChecksumDetectsSingleFlip | DCF77/DCF77.cpp:75-81 | a frame that passes the check fails it after flipping slot 0 or any one slot in 21..58 |
| Frame.ChecksumIgnoresSlots1To20 | DCF77/DCF77.cpp:75-81 | slots 1..20 take no part in the check |
| Frame.Year | DCF77/DCF77.cpp:153 | the year's weighted sum of slots 50..57 plus 2000; YearIsBcd and DecodeEncode state what it means |
| Frame.Month | DCF77/DCF77.cpp:154 | the month's weighted sum of slots 45..49; MonthIsBcd states what it means |
| Frame.Day | DCF77/DCF77.cpp:155 | the day's weighted sum of slots 36..41; DayIsBcd states what it means |
| Frame.Hour | DCF77/DCF77.cpp:156 | the hour's weighted sum of slots 29..34; HourIsBcd states what it means |
| Frame.Minute | DCF77/DCF77.cpp:157 | the minute's weighted sum of slots 21..27; MinuteIsBcd states what it means |
| Frame.YearIsBcd | DCF77/DCF77.cpp:153 | the year's weighted sum is 2000 plus the two-digit BCD value of slots 50..57 |
| Frame.MonthIsBcd | DCF77/DCF77.cpp:154 | the month's weighted sum is the BCD value of slots 45..49 |
| Frame.DayIsBcd | DCF77/DCF77.cpp:155 | the day's weighted sum is the BCD value of slots 36..41 |
| Frame.HourIsBcd | DCF77/DCF77.cpp:156 | the hour's weighted sum is the BCD value of slots 29..34 |
| Frame.MinuteIsBcd | DCF77/DCF77.cpp:157 | the minute's weighted sum is the BCD value of slots 21..27 |
| Frame.FieldsAreBcd | DCF77/DCF77.cpp:153-157 | all five decoded fields are BCD values of their slot blocks |
| Frame.BinaryBounds | DCF77/DCF77.cpp:153-157 | k slots of bits have a binary value in [0, 2^k) |
| Frame.DecodedRanges | DCF77/DCF77.cpp:153-157 | on a frame of bits: year in [2000, 2165], month <= 25, day <= 45, hour <= 45, minute <= 85 |
| Frame.BinaryRoundTrip | DCF77/DCF77.cpp:153-157 | reading back the k binary digits of d < 2^k gives d |
| Frame.DigitsRoundTrip | DCF77/DCF77.cpp:153-157 | writing out the binary value of a bit block gives that block back |
| Frame.BcdRoundTrip | DCF77/DCF77.cpp:153-157 | decoding an encoded BCD field gives the value back when its tens digit fits the field |
| Frame.BcdFieldRoundTrip | DCF77/DCF77.cpp:153-157 | encoding a decoded field whose units digit is decimal gives the slots back |
| Machine.Step | DCF77/DCF77.cpp:83-185 | every call keeps a full frame and `lastFlankTime <= lastSampleTime`, and after it `lastSampleTime <= currentTime` |
| Machine.Init | DCF77/DCF77.cpp:27-46 | the constructed fields; InitSatisfiesInv states their invariant |
| Machine.Flank | DCF77/DCF77.cpp:118-138 | a change of level: the pulse is judged, an invalid one resets, a HIGH one starts a second, a LOW one ends a bit; FlankKeepsInv and the marker and bit lemmas state its effect |
| Machine.BitEnd | DCF77/DCF77.cpp:166-184 | the end of a LOW pulse: nothing while unsynchronised, TooManyBits past second 58, otherwise the bit written in slot `second`; BitWrites and TooManyBitsResets state it |
| Machine.NewSecond | DCF77/DCF77.cpp:140-164 | the end of a HIGH pulse: a marker is unexpected, synchronises or closes the frame; UnexpectedMarker, MarkerSynchronises and MarkerClosesFrame state it |
| Machine.Publish | DCF77/DCF77.cpp:152-158 | the five fields decoded from the frame and new data flagged; PublishedTimeInRange and DecodeEncode state what they hold |
| Machine.InitSatisfiesInv | DCF77/DCF77.cpp:27-46 | the constructed state (no error, no flags, time fields -1, cursor -1) satisfies the invariant |
| Machine.FlankKeepsInv | DCF77/DCF77.cpp:118-184 | a flank keeps the cursor in -1..59, the recorded slots bits, and error, flags and published time consistent |
| Machine.StepKeepsInv | DCF77/DCF77.cpp:83-185 | every call preserves the invariant |
| Machine.OutcomeIsPerCall | DCF77/DCF77.cpp:86-89 | a call's result does not depend on the previous call's error and flags |
| Machine.ThrottledCallOnlyClears | DCF77/DCF77.cpp:84-102 | a call within the sampling interval only clears error and flags; everything else stays |
| Machine.HeldSample | DCF77/DCF77.cpp:104-115 | a sampled call that reads the held level while the pulse can still be valid only clears the outcome and moves the sample time |
| Machine.RepeatWithinInterval | DCF77/DCF77.cpp:100-102 | a second call within 10 ms of a sampled call changes nothing but the outcome |
| Machine.ClockWentBackResynchronises | DCF77/DCF77.cpp:91-98 | a clock that went back gives cursor -1, both timestamps the current time, the new level and no error |
| Machine.BitWrites | DCF77/DCF77.cpp:166-184 | the frame changes only on a valid LOW -> HIGH flank with cursor 0..58, only in slot `second`, and the bit is 0 iff the LOW pulse was < 150 ms |
| Machine.UnsynchronisedWritesNothing | DCF77/DCF77.cpp:166-169 | while the cursor is negative no call writes to the frame |
| Machine.ErrorsDesynchronise | DCF77/DCF77.cpp:109-175 | InvalidPulseDuration, UnexpectedMinuteStart and TooManyBits all leave cursor -1 and no new minute |
| Machine.UnexpectedMarker | DCF77/DCF77.cpp:140-146 | a marker with the advanced cursor at neither -1 nor 59 gives UnexpectedMinuteStart, cursor -1, frame and time unchanged |
| Machine.MarkerSynchronises | DCF77/DCF77.cpp:140-164 | a marker while unsynchronised starts a minute: cursor 0, new minute and new second, no data |
| Machine.MarkerClosesFrame | DCF77/DCF77.cpp:148-163 | a marker after second 58 publishes all five fields from the frame if the check passes, and otherwise gives ChecksumMismatch with the time unchanged |
| Machine.PublishedTimeInRange | DCF77/DCF77.cpp:152-158 | a published year lies in [2000, 2165] and the other fields in their slot ranges |
| Machine.NewDataOnlyFromCheckedFrame | DCF77/DCF77.cpp:140-159 | new data appears only at a marker after second 58 whose frame passes the check |
| Machine.DecodedFieldsChangeTogether | DCF77/DCF77.cpp:152-158 | the decoded fields change only together, on new data, decoded from the closed frame |
| Machine.NewSecondAdvancesCursor | DCF77/DCF77.cpp:133-138 | an ordinary HIGH -> LOW flank sets the new-second flag and advances a synchronised cursor by one |
| Machine.InvalidPulseResets | DCF77/DCF77.cpp:106-131 | a pulse outside the windows, held or ended, gives InvalidPulseDuration, cursor -1 and no flags |
| Machine.TooManyBitsResets | DCF77/DCF77.cpp:171-176 | a LOW pulse ending with the cursor past 58 gives TooManyBits and cursor -1 |
| Decoder.DCF77.constructor | DCF77/DCF77.cpp:27-46 | the new object is the initial state: the read level, both timestamps the current time, no error or flags, all time fields -1 |
| Decoder.DCF77.CheckEvenParity | DCF77/DCF77.cpp:65-73 | the summing loop returns exactly the even parity of slots from..to |
| Decoder.DCF77.CheckBits | DCF77/DCF77.cpp:75-81 | returns exactly the frame check: slot 0 is 0 and the three blocks have even parity |
| Decoder.DCF77.SampleSignal | DCF77/DCF77.cpp:83-185 | the fields after the call are `Step` of the fields before it, and the invariant still holds |
| Decoder.DCF77.OnFlank | DCF77/DCF77.cpp:118-131 | after a level change the fields are `Flank` of the cleared fields |
| Decoder.DCF77.OnSecondStart | DCF77/DCF77.cpp:140-164 | at the end of a HIGH pulse the fields are `NewSecond` of the fields before |
| Decoder.DCF77.Publish | DCF77/DCF77.cpp:153-158 | the five time fields become the frame's weighted sums and new data is flagged, nothing else changes |
| Decoder.DCF77.OnBitEnd | DCF77/DCF77.cpp:166-184 | at the end of a LOW pulse the fields and frame are `BitEnd` of those before |
| Decoder.DCF77.GetLastError | DCF77/DCF77.cpp:187-189 | a desynchronising error comes with cursor -1 and no new minute; ChecksumMismatch comes with a new minute and no data |
| Decoder.DCF77.HasNewMinute | DCF77/DCF77.cpp:191-193 | a new minute comes with cursor 0, a new second and no error other than ChecksumMismatch |
| Decoder.DCF77.HasNewSecond | DCF77/DCF77.cpp:195-197 | a new second never comes with InvalidPulseDuration or TooManyBits |
| Decoder.DCF77.HasNewData | DCF77/DCF77.cpp:199-201 | new data comes with a new minute, no error, a frame that passes the check, and the five fields decoded from it |
| Decoder.DCF77.GetYear | DCF77/DCF77.cpp:203-205 | -1 until the first publication, then in [2000, 2165]; -1 exactly when the month is -1 |
| Decoder.DCF77.GetMonth | DCF77/DCF77.cpp:207-209 | -1 or within 0..25, and -1 exactly when the year is -1 |
| Decoder.DCF77.GetDay | DCF77/DCF77.cpp:211-213 | -1 or within 0..45, and -1 exactly when the year is -1 |
| Decoder.DCF77.GetHour | DCF77/DCF77.cpp:215-217 | -1 or within 0..45, and -1 exactly when the year is -1 |
| Decoder.DCF77.GetMinute | DCF77/DCF77.cpp:219-221 | -1 or within 0..85, and -1 exactly when the year is -1 |
| Decoder.DCF77.GetSecond | DCF77/DCF77.h:59 | the cursor is -1 (waiting for a minute start) or 0..59, and at 59 the level is LOW |
| Transmitter.BlockWithParity | DCF77/DCF77.cpp:65-73 | a block of bits followed by its parity bit has an even sum |
| Transmitter.ParityOfPlacedBlock | DCF77/DCF77.cpp:65-73 | a block placed with its parity bit at slot `from` gives even parity over that range |
| Transmitter.EncodeIsBits | DCF77/DCF77.cpp:178-183 | the frame sent for any time holds only 0s and 1s, the values the decoder itself writes, when its information slots do |
| Transmitter.EncodedPassesCheck | DCF77/DCF77.cpp:75-81 | every frame a transmitter sends passes the decoder's check |
| Transmitter.DecodeEncode | DCF77/DCF77.cpp:153-157 | decoding the frame sent for a valid time gives back its minute, hour, day, month and year |
| Scenario.RunKeepsInv | DCF77/DCF77.cpp:83-185 | any sequence of calls keeps the invariant |
| Scenario.PollsEnd | DCF77/DCF77.cpp:100-102 | polling that the throttle lets through stays one interval before the flank |
| Scenario.PollRun | DCF77/DCF77.cpp:84-115 | polling a held level, throttled or sampled, while it is still short enough to be valid, changes only the outcome and the last sample time |
| Scenario.FlankAfterPolls | DCF77/DCF77.cpp:104-131 | the flank ending a polled pulse acts as if no call had come between it and the flank that began the pulse |
| Scenario.BitHalf | DCF77/DCF77.cpp:166-183 | the LOW half of a second within the tolerances, however polled, records its bit in slot i |
| Scenario.SecondHalf | DCF77/DCF77.cpp:133-138 | the HIGH half of an ordinary second, however polled, starts the next second with no error |
| Scenario.MarkerHalf | DCF77/DCF77.cpp:140-164 | the long HIGH through second 59, however polled, closes the minute and publishes the frame's time iff it passes the check |
| Scenario.OneSecond | DCF77/DCF77.cpp:104-184 | one ordinary second within the tolerances records its bit, advances the cursor and reports no error |
| Scenario.LastSecond | DCF77/DCF77.cpp:140-164 | second 58 records its bit, and the missing pulse of second 59 closes the frame |
| Scenario.MinuteStep | DCF77/DCF77.cpp:104-184 | second i < 58 of a minute within the tolerances records slot i and starts second i + 1 |
| Scenario.MinuteLast | DCF77/DCF77.cpp:140-184 | second 58 of a minute within the tolerances completes the frame and closes it |
| Scenario.TrackMinute | DCF77/DCF77.cpp:83-185 | receiving seconds i..58 of a frame within the tolerances, however polled, fills the frame exactly and closes the minute |
| Scenario.MinuteDecodes | DCF77/DCF77.cpp:83-185 | a synchronised decoder that receives any whole minute within the tolerances publishes iff the frame passes the check, and stays synchronised |
| Scenario.GoodMinuteCarriesBits | DCF77/DCF77.cpp:178-183 | the frame of a minute within the tolerances is the bits of its LOW pulses |
| Scenario.IdealMinuteIsGood | DCF77/DCF77.cpp:53-63 | the ideal signal of a frame of bits (100/200 ms pulses, 1000 ms seconds) is within the tolerances and lasts 60 s |
| Scenario.MarkerAfterStart | DCF77/DCF77.cpp:140-164 | a decoder powered on during the HIGH before a marker, that sees more than 1750 ms of it, synchronises on the marker however it polls meanwhile |
| Scenario.SynchroniseThenMinute | DCF77/DCF77.cpp:83-185 | any calls that synchronise the decoder, followed by a whole minute within the tolerances, close that minute |
| Scenario.MarkerThenMinute | DCF77/DCF77.cpp:27-185 | power-on, a marker and a whole minute within the tolerances close that minute |
| Scenario.FirstMinuteIsPublished | DCF77/DCF77.cpp:27-185 | power-on, a marker and any minute within the tolerances carrying the frame for a valid time publish exactly that time with no error |
| Scenario.NewYear2014 | DCF77/DCF77.cpp:153-157 | the ideal signal of the 2014-01-01 12:00 frame is published as year 2014, month 1, day 1, hour 12, minute 0 |

## Left out

- `pinMode`, `digitalRead` and `millis` are hardware calls. Their values are the method arguments `pin` and `currentTime`, and the signal pin number is not modelled.
- Machine.Step: does not model the 32-bit wrap of the millisecond clock or of `_lastSampleTime + _samplingInterval`. Time is an unbounded `nat`, and the backward-clock branch is the only overflow handling.
- The sampling interval is the constant `SamplingInterval = 10`, as the constructor fixes it. It is not a configuration parameter.
- The contents of `_bits` at construction are left open: the constructor's contract does not fix them. The C++ array is not initialised either. Bits are `int` slots holding 0 or 1, not bytes.
- Calendar validity (month 1-12, day 1-31, hour below 24, minute below 60) is not checked, because the code does not check it. The weekday slots 42-44 and slots 1-20 are not decoded.
- The sketch's polling loop and concurrency are not modelled. `Scenario.Run` is a plain sequence of calls.
- Scenario.MarkerAfterStart: covers power-on during the marker's HIGH only when the decoder sees more than 1750 ms of it. A later power-on, or one during a LOW, is not followed through to the next marker.
- In the minute lemmas a flank is taken at the call that first reads the new level. Reception errors (a missed or extra flank, a pulse outside the tolerances) are covered one call at a time by the Machine lemmas, not by the minute lemmas.
