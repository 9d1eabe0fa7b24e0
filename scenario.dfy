/** Runs of the sampler over a sequence of samples, and what a minute of signal within
    the DCF77 tolerances does to the decoder: one bit per second, then the published time.
    Between two flanks the caller may sample as often as it likes: calls inside the
    sampling interval and calls that read the level already held are both allowed. */
module Scenario {
  import opened Pulse
  import opened Frame
  import opened Machine
  import opened Transmitter

  /** One call of the sampler: the clock reading and the level after ReadSignalPin. */
  datatype Sample = Sample(time: nat, level: Level)

  /** The state after one call of the sampler per sample, in order. */
  function Run(s: State, samples: seq<Sample>): (r: State)
    requires WellFormed(s)
    ensures WellFormed(r)
    decreases |samples|
  {
    if samples == [] then s else Run(Step(s, samples[0].time, samples[0].level), samples[1..])
  }

  /** Running two stretches of samples is running their concatenation. */
  lemma {:induction false} RunAppend(s: State, a: seq<Sample>, b: seq<Sample>)
    requires WellFormed(s)
    ensures Run(s, a + b) == Run(Run(s, a), b)
    decreases |a|
  {
    if a == [] {
      assert a + b == b;
    } else {
      assert (a + b)[0] == a[0];
      assert (a + b)[1..] == a[1..] + b;
      RunAppend(Step(s, a[0].time, a[0].level), a[1..], b);
    }
  }

  /** Every run keeps the decoder's invariant. */
  lemma {:induction false} RunKeepsInv(s: State, samples: seq<Sample>)
    requires Inv(s)
    ensures Inv(Run(s, samples))
    decreases |samples|
  {
    if samples != [] {
      StepKeepsInv(s, samples[0].time, samples[0].level);
      RunKeepsInv(Step(s, samples[0].time, samples[0].level), samples[1..]);
    }
  }

  /** A run that ends with one more sample is the run followed by one call. */
  lemma RunSnoc(s: State, a: seq<Sample>, x: Sample)
    requires WellFormed(s)
    ensures Run(s, a + [x]) == Step(Run(s, a), x.time, x.level)
  {
    RunAppend(s, a, [x]);
    var m := Run(s, a);
    assert Run(m, [x]) == Run(Step(m, x.time, x.level), [x][1..]);
    assert [x][1..] == [];
  }

  // ---------------------------------------------------------------------------
  // Polling between two flanks

  /** The calls made while a level is held, from the last sample that took effect at `prev`
      up to the flank at `end`. A call within the sampling interval of `prev` may read any
      level (it is ignored); every other call reads the held level. The flank itself comes
      at least one interval after the last call that took effect. */
  predicate Polls(prev: nat, samples: seq<Sample>, end: nat, level: Level)
    decreases |samples|
  {
    if samples == [] then prev + SamplingInterval <= end
    else prev <= samples[0].time &&
         if samples[0].time < prev + SamplingInterval then Polls(prev, samples[1..], end, level)
         else samples[0].level == level && Polls(samples[0].time, samples[1..], end, level)
  }

  /** Polling runs up to, at most, one interval before the flank. */
  lemma {:induction false} PollsEnd(prev: nat, samples: seq<Sample>, end: nat, level: Level)
    requires Polls(prev, samples, end, level)
    ensures prev + SamplingInterval <= end
    decreases |samples|
  {
    if samples != [] {
      if samples[0].time < prev + SamplingInterval {
        PollsEnd(prev, samples[1..], end, level);
      } else {
        PollsEnd(samples[0].time, samples[1..], end, level);
      }
    }
  }

  /** Polling a held level that is still short enough to be valid changes nothing but the
      outcome and the time of the last sample, which stays one interval before the flank. */
  lemma {:induction false} PollRun(s: State, samples: seq<Sample>, end: nat)
    requires WellFormed(s) && Polls(s.lastSampleTime, samples, end, s.lastSampleValue)
    requires end < s.lastFlankTime + MaxDuration(s.lastSampleValue)
    ensures var r := Run(s, samples);
      ClearOutcome(r) == ClearOutcome(s).(lastSampleTime := r.lastSampleTime) &&
      s.lastSampleTime <= r.lastSampleTime && r.lastSampleTime + SamplingInterval <= end
    decreases |samples|
  {
    if samples == [] {
      PollsEnd(s.lastSampleTime, samples, end, s.lastSampleValue);
    } else {
      var x := samples[0];
      var m := Step(s, x.time, x.level);
      if x.time < s.lastSampleTime + SamplingInterval {
        ThrottledCallOnlyClears(s, x.time, x.level);
      } else {
        PollsEnd(x.time, samples[1..], end, s.lastSampleValue);
        HeldSample(s, x.time);
      }
      PollRun(m, samples[1..], end);
    }
  }

  /** The flank that ends a polled pulse acts as if it came straight after the flank that
      started it. */
  lemma FlankAfterPolls(s: State, samples: seq<Sample>, end: nat, v: Level)
    requires WellFormed(s) && Polls(s.lastSampleTime, samples, end, s.lastSampleValue)
    requires end < s.lastFlankTime + MaxDuration(s.lastSampleValue) && v != s.lastSampleValue
    ensures s.lastSampleTime + SamplingInterval <= end &&
            Step(Run(s, samples), end, v) == Flank(ClearOutcome(s), end, v)
  {
    PollsEnd(s.lastSampleTime, samples, end, s.lastSampleValue);
    var r := Run(s, samples);
    PollRun(s, samples, end);
    OutcomeIsPerCall(r, end, v);
  }

  // ---------------------------------------------------------------------------
  // A second of signal

  /** The LOW pulse of a second that carries `bit`, within the tolerances: 50-150 ms
      for a 0 and 150-250 ms for a 1. */
  predicate BitPulse(d: int, bit: int)
  {
    (bit == 0 && 50 < d < 150) || (bit == 1 && 150 <= d < 250)
  }

  /** The HIGH part of a second, within the tolerances: 750-950 ms for an ordinary second;
      the last one also covers the missing pulse of second 59, 1750-1950 ms. */
  predicate HighPulse(d: int, last: bool)
  {
    if last then 1750 < d < 1950 else 750 < d < 950
  }

  /** The calls of one second, in absolute time: polls of the LOW level, the LOW -> HIGH
      flank at `lowEnd`, polls of the HIGH level, the HIGH -> LOW flank at `end` that
      starts the next second. */
  datatype SecondSignal = SecondSignal(lowPolls: seq<Sample>, lowEnd: nat, highPolls: seq<Sample>, end: nat)

  /** A second that starts at `start` and carries `bit` within the tolerances. */
  predicate GoodSecond(start: nat, sec: SecondSignal, bit: int, last: bool)
  {
    Polls(start, sec.lowPolls, sec.lowEnd, Low) && BitPulse(sec.lowEnd - start, bit) &&
    Polls(sec.lowEnd, sec.highPolls, sec.end, High) && HighPulse(sec.end - sec.lowEnd, last)
  }

  function SecondSamples(sec: SecondSignal): seq<Sample>
  {
    sec.lowPolls + [Sample(sec.lowEnd, High)] + sec.highPolls + [Sample(sec.end, Low)]
  }

  /** The decoder has just seen second i start, at time t. */
  predicate AtSecondStart(s: State, i: int, t: nat)
  {
    WellFormed(s) && s.lastSampleValue == Low && s.lastSampleTime == t &&
    s.lastFlankTime == t && s.second == i
  }

  /** The LOW half of a second, however it is polled, records the bit in slot i. */
  lemma BitHalf(s: State, i: int, t: nat, sec: SecondSignal, bit: int, last: bool)
    requires AtSecondStart(s, i, t) && 0 <= i <= 58 && GoodSecond(t, sec, bit, last)
    ensures Run(s, sec.lowPolls + [Sample(sec.lowEnd, High)]) ==
            ClearOutcome(s).(lastSampleValue := High, lastSampleTime := sec.lowEnd,
                             lastFlankTime := sec.lowEnd, bits := s.bits[i := bit])
  {
    RunSnoc(s, sec.lowPolls, Sample(sec.lowEnd, High));
    FlankAfterPolls(s, sec.lowPolls, sec.lowEnd, High);
  }

  /** The HIGH half of an ordinary second, however it is polled, starts the next second. */
  lemma SecondHalf(m: State, i: int, sec: SecondSignal)
    requires WellFormed(m) && 0 <= i && m.lastSampleValue == High && m.second == i
    requires m.lastSampleTime == sec.lowEnd && m.lastFlankTime == sec.lowEnd
    requires Polls(sec.lowEnd, sec.highPolls, sec.end, High) && HighPulse(sec.end - sec.lowEnd, false)
    ensures Run(m, sec.highPolls + [Sample(sec.end, Low)]) ==
            ClearOutcome(m).(lastSampleValue := Low, lastSampleTime := sec.end,
                             lastFlankTime := sec.end, hasNewSecond := true, second := i + 1)
  {
    RunSnoc(m, sec.highPolls, Sample(sec.end, Low));
    FlankAfterPolls(m, sec.highPolls, sec.end, Low);
  }

  /** The HIGH level through second 59, however it is polled, ends in the minute marker,
      which closes the frame. */
  lemma MarkerHalf(m: State, sec: SecondSignal)
    requires WellFormed(m) && m.lastSampleValue == High && m.second == 58
    requires m.lastSampleTime == sec.lowEnd && m.lastFlankTime == sec.lowEnd
    requires Polls(sec.lowEnd, sec.highPolls, sec.end, High) && HighPulse(sec.end - sec.lowEnd, true)
    ensures ClosedMinute(Run(m, sec.highPolls + [Sample(sec.end, Low)]), sec.end, m.bits)
  {
    RunSnoc(m, sec.highPolls, Sample(sec.end, Low));
    FlankAfterPolls(m, sec.highPolls, sec.end, Low);
    OutcomeIsPerCall(m, sec.end, Low);
    MarkerClosesFrame(m, sec.end, Low);
  }

  /** A second's calls are its LOW half followed by its HIGH half. */
  lemma SecondSplit(s: State, sec: SecondSignal)
    requires WellFormed(s)
    ensures Run(s, SecondSamples(sec)) ==
            Run(Run(s, sec.lowPolls + [Sample(sec.lowEnd, High)]), sec.highPolls + [Sample(sec.end, Low)])
  {
    var a := sec.lowPolls + [Sample(sec.lowEnd, High)];
    assert SecondSamples(sec) == a + (sec.highPolls + [Sample(sec.end, Low)]);
    RunAppend(s, a, sec.highPolls + [Sample(sec.end, Low)]);
  }

  /** One ordinary second within the tolerances records its bit and moves the cursor on,
      with no error. */
  lemma OneSecond(s: State, i: int, t: nat, sec: SecondSignal, bit: int)
    requires AtSecondStart(s, i, t) && 0 <= i < 58 && GoodSecond(t, sec, bit, false)
    ensures var r := Run(s, SecondSamples(sec));
      AtSecondStart(r, i + 1, sec.end) && r.bits == s.bits[i := bit] &&
      r.lastError == None && r.hasNewSecond && !r.hasNewMinute && !r.hasNewData
  {
    SecondSplit(s, sec);
    BitHalf(s, i, t, sec, bit, false);
    SecondHalf(Run(s, sec.lowPolls + [Sample(sec.lowEnd, High)]), i, sec);
  }

  /** The decoder has closed a minute that transmitted `frame` and is synchronised on the
      next one, which started at time t; the frame's time is published when it passes. */
  predicate ClosedMinute(r: State, t: nat, frame: seq<int>)
    requires |frame| == FrameLength
  {
    AtSecondStart(r, 0, t) && r.bits == frame && r.hasNewMinute &&
    (ChecksumOk(frame) ==> r.hasNewData && r.lastError == None && DecodedFrom(r)) &&
    (!ChecksumOk(frame) ==> !r.hasNewData && r.lastError == ChecksumMismatch)
  }

  /** The last second records its bit; the missing pulse then closes the frame. */
  lemma LastSecond(s: State, t: nat, sec: SecondSignal, bit: int)
    requires AtSecondStart(s, 58, t) && GoodSecond(t, sec, bit, true)
    ensures ClosedMinute(Run(s, SecondSamples(sec)), sec.end, s.bits[58 := bit])
  {
    SecondSplit(s, sec);
    BitHalf(s, 58, t, sec, bit, true);
    MarkerHalf(Run(s, sec.lowPolls + [Sample(sec.lowEnd, High)]), sec);
  }

  // ---------------------------------------------------------------------------
  // A minute of signal

  /** When second i of the minute starts: `start` for second 0, the end of the previous
      second otherwise. */
  function SecondStart(start: nat, signal: seq<SecondSignal>, i: nat): nat
    requires i <= |signal|
  {
    if i == 0 then start else signal[i - 1].end
  }

  /** Seconds 0..58 of a minute that starts at `start` and carries `frame`, each within
      the tolerances; the last one runs on to the next minute marker. */
  predicate GoodMinute(start: nat, signal: seq<SecondSignal>, frame: seq<int>)
  {
    |signal| == FrameLength && |frame| == FrameLength &&
    forall i | 0 <= i < FrameLength :: GoodSecond(SecondStart(start, signal, i), signal[i], frame[i], i == 58)
  }

  /** The calls of seconds i..58. */
  function SecondsFrom(signal: seq<SecondSignal>, i: nat): seq<Sample>
    requires i <= 58 < |signal|
    decreases 58 - i
  {
    if i == 58 then SecondSamples(signal[58])
    else SecondSamples(signal[i]) + SecondsFrom(signal, i + 1)
  }

  /** The calls of a whole minute. */
  function MinuteSamples(signal: seq<SecondSignal>): seq<Sample>
    requires |signal| == FrameLength
  {
    SecondsFrom(signal, 0)
  }

  /** Second i < 58 of a minute within the tolerances records slot i and starts second i + 1. */
  lemma MinuteStep(s: State, i: nat, start: nat, signal: seq<SecondSignal>, frame: seq<int>)
    requires GoodMinute(start, signal, frame) && i < 58
    requires AtSecondStart(s, i, SecondStart(start, signal, i))
    requires forall k | 0 <= k < i :: s.bits[k] == frame[k]
    ensures var m := Run(s, SecondSamples(signal[i]));
      AtSecondStart(m, i + 1, SecondStart(start, signal, i + 1)) &&
      forall k | 0 <= k < i + 1 :: m.bits[k] == frame[k]
  {
    assert GoodSecond(SecondStart(start, signal, i), signal[i], frame[i], false);
    OneSecond(s, i, SecondStart(start, signal, i), signal[i], frame[i]);
  }

  /** Second 58 of a minute within the tolerances completes the frame and closes it. */
  lemma MinuteLast(s: State, t: nat, sec: SecondSignal, frame: seq<int>)
    requires |frame| == FrameLength && AtSecondStart(s, 58, t) && GoodSecond(t, sec, frame[58], true)
    requires forall k | 0 <= k < 58 :: s.bits[k] == frame[k]
    ensures ClosedMinute(Run(s, SecondSamples(sec)), sec.end, frame)
  {
    LastSecond(s, t, sec, frame[58]);
    assert s.bits[58 := frame[58]] == frame;
  }

  /** Receiving seconds i..58 of `frame` fills the rest of the frame and closes it at the
      next minute marker. */
  lemma {:induction false} TrackMinute(s: State, i: nat, start: nat, signal: seq<SecondSignal>, frame: seq<int>)
    requires GoodMinute(start, signal, frame) && i <= 58
    requires AtSecondStart(s, i, SecondStart(start, signal, i))
    requires forall k | 0 <= k < i :: s.bits[k] == frame[k]
    ensures ClosedMinute(Run(s, SecondsFrom(signal, i)), signal[58].end, frame)
    decreases 58 - i
  {
    if i == 58 {
      assert GoodSecond(SecondStart(start, signal, 58), signal[58], frame[58], true);
      MinuteLast(s, SecondStart(start, signal, 58), signal[58], frame);
    } else {
      var a := SecondSamples(signal[i]);
      var rest := SecondsFrom(signal, i + 1);
      assert SecondsFrom(signal, i) == a + rest;
      MinuteStep(s, i, start, signal, frame);
      RunAppend(s, a, rest);
      TrackMinute(Run(s, a), i + 1, start, signal, frame);
    }
  }

  /** A synchronised decoder that receives a whole minute within the tolerances ends it
      with the frame's time published exactly when the frame passes the check, and is
      synchronised for the next minute. */
  lemma MinuteDecodes(s: State, t: nat, signal: seq<SecondSignal>, frame: seq<int>)
    requires GoodMinute(t, signal, frame) && AtSecondStart(s, 0, t)
    ensures ClosedMinute(Run(s, MinuteSamples(signal)), signal[58].end, frame)
    ensures Run(s, MinuteSamples(signal)).hasNewData <==> ChecksumOk(frame)
  {
    TrackMinute(s, 0, t, signal, frame);
  }

  /** The bits of a minute within the tolerances are those of its LOW pulses. */
  lemma GoodMinuteCarriesBits(start: nat, signal: seq<SecondSignal>, frame: seq<int>)
    requires GoodMinute(start, signal, frame)
    ensures AreBits(frame)
    ensures forall i | 0 <= i < FrameLength :: frame[i] == BitOf(signal[i].lowEnd - SecondStart(start, signal, i))
  {
    forall i | 0 <= i < FrameLength
      ensures IsBit(frame[i]) && frame[i] == BitOf(signal[i].lowEnd - SecondStart(start, signal, i))
    {
      assert GoodSecond(SecondStart(start, signal, i), signal[i], frame[i], i == 58);
    }
  }

  // ---------------------------------------------------------------------------
  // The ideal signal: exact pulse lengths and one call per flank

  /** The LOW part of a second: 100 ms for a 0, 200 ms for a 1. */
  function LowLength(bit: int): nat
  {
    if bit == 0 then 100 else 200
  }

  function IdealSecond(start: nat, bit: int, last: bool): SecondSignal
  {
    SecondSignal([], start + LowLength(bit), [], start + if last then 2000 else 1000)
  }

  /** The ideal minute for `frame`: second i starts 1000 ms after second i - 1. */
  function IdealMinute(start: nat, frame: seq<int>): (signal: seq<SecondSignal>)
    requires |frame| == FrameLength
    ensures |signal| == FrameLength
  {
    seq(FrameLength, i requires 0 <= i < FrameLength => IdealSecond(start + 1000 * i, frame[i], i == 58))
  }

  /** The ideal minute of a frame of bits is within the tolerances and lasts 60 s. */
  lemma IdealMinuteIsGood(start: nat, frame: seq<int>)
    requires |frame| == FrameLength && AreBits(frame)
    ensures GoodMinute(start, IdealMinute(start, frame), frame)
    ensures IdealMinute(start, frame)[58].end == start + 60000
  {
    var signal := IdealMinute(start, frame);
    forall i | 0 <= i < FrameLength
      ensures GoodSecond(SecondStart(start, signal, i), signal[i], frame[i], i == 58)
    {
      assert SecondStart(start, signal, i) == start + 1000 * i;
      assert IsBit(frame[i]);
    }
  }

  // ---------------------------------------------------------------------------
  // From power-on to the first published time

  /** A decoder powered on during the long HIGH before a minute marker synchronises on the
      marker, however it polls meanwhile, if the HIGH it saw lasts long enough. */
  lemma MarkerAfterStart(t0: nat, bits: seq<int>, polls: seq<Sample>, marker: nat)
    requires |bits| == FrameLength && Polls(t0, polls, marker, High) && 1750 < marker - t0 < 1950
    ensures var r := Run(Init(t0, High, bits), polls + [Sample(marker, Low)]);
      AtSecondStart(r, 0, marker) && r.hasNewMinute && !r.hasNewData && r.lastError == None
  {
    RunSnoc(Init(t0, High, bits), polls, Sample(marker, Low));
    FlankAfterPolls(Init(t0, High, bits), polls, marker, Low);
  }

  /** Calls that synchronise the decoder at time t, then one whole minute of `frame`. */
  lemma SynchroniseThenMinute(s: State, pre: seq<Sample>, t: nat, signal: seq<SecondSignal>, frame: seq<int>)
    requires WellFormed(s) && GoodMinute(t, signal, frame)
    requires AtSecondStart(Run(s, pre), 0, t)
    ensures ClosedMinute(Run(s, pre + MinuteSamples(signal)), signal[58].end, frame)
  {
    RunAppend(s, pre, MinuteSamples(signal));
    MinuteDecodes(Run(s, pre), t, signal, frame);
  }

  /** Power-on during the long HIGH before a minute marker, the marker, then one whole
      minute of `frame` within the tolerances: the decoder closes that minute. */
  lemma MarkerThenMinute(t0: nat, bits: seq<int>, polls: seq<Sample>, marker: nat,
                         signal: seq<SecondSignal>, frame: seq<int>)
    requires |bits| == FrameLength && Polls(t0, polls, marker, High) && 1750 < marker - t0 < 1950
    requires GoodMinute(marker, signal, frame)
    ensures ClosedMinute(Run(Init(t0, High, bits), polls + [Sample(marker, Low)] + MinuteSamples(signal)),
                         signal[58].end, frame)
  {
    MarkerAfterStart(t0, bits, polls, marker);
    SynchroniseThenMinute(Init(t0, High, bits), polls + [Sample(marker, Low)], marker, signal, frame);
  }

  /** Power-on during the long HIGH before a minute marker, the marker, then one minute
      within the tolerances of the frame a transmitter sends for a valid time: the decoder
      publishes exactly that time, with no error. */
  lemma FirstMinuteIsPublished(t0: nat, bits: seq<int>, polls: seq<Sample>, marker: nat,
                               signal: seq<SecondSignal>, time: Time, info: seq<int>)
    requires |bits| == FrameLength && Polls(t0, polls, marker, High) && 1750 < marker - t0 < 1950
    requires |info| == 20 && ValidTime(time) && GoodMinute(marker, signal, Encode(time, info))
    ensures var r := Run(Init(t0, High, bits), polls + [Sample(marker, Low)] + MinuteSamples(signal));
      r.hasNewData && r.lastError == None &&
      r.year == 2000 + time.year && r.month == time.month && r.day == time.day &&
      r.hour == time.hour && r.minute == time.minute
  {
    EncodedPassesCheck(time, info);
    DecodeEncode(time, info);
    MarkerThenMinute(t0, bits, polls, marker, signal, Encode(time, info));
  }

  /** 2014-01-01 12:00, a Wednesday. */
  const NewYearTime := Time(0, 12, 1, 3, 1, 14)

  /** Slots 1-20 sent with it in winter time: slot 18 flags CET and slot 20 is the
      start-of-time bit. */
  const NewYearInfo: seq<int> := seq(20, k => if k == 17 || k == 19 then 1 else 0)

  /** The 2014-01-01 12:00 frame, received as the ideal signal with the marker 1850 ms
      after power-on, is published as that time. */
  lemma NewYear2014(t0: nat, bits: seq<int>)
    requires |bits| == FrameLength
    ensures var frame := Encode(NewYearTime, NewYearInfo);
      var r := Run(Init(t0, High, bits),
                   [] + [Sample(t0 + 1850, Low)] + MinuteSamples(IdealMinute(t0 + 1850, frame)));
      r.hasNewData && r.year == 2014 && r.month == 1 && r.day == 1 && r.hour == 12 && r.minute == 0
  {
    var frame := Encode(NewYearTime, NewYearInfo);
    assert AreBits(NewYearInfo);
    EncodeIsBits(NewYearTime, NewYearInfo);
    IdealMinuteIsGood(t0 + 1850, frame);
    FirstMinuteIsPublished(t0, bits, [], t0 + 1850, IdealMinute(t0 + 1850, frame), NewYearTime, NewYearInfo);
  }
}
