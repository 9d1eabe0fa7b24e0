/** The decoder's state as a value and one call of the sampler as a function of it.
    The class in module Decoder is proved to update its fields exactly as Step says;
    the lemmas here state what every call promises. */
module Machine {
  import opened Pulse
  import opened Frame

  /** Minimum time between two samples, in milliseconds (fixed at construction). */
  const SamplingInterval: nat := 10

  datatype Error = None | InvalidPulseDuration | UnexpectedMinuteStart | TooManyBits | ChecksumMismatch

  /** The fields of the decoder. `second` is -1 while waiting for the next minute start,
      otherwise the second of the minute being received. */
  datatype State = State(
    lastSampleValue: Level,
    lastSampleTime: nat,
    lastFlankTime: nat,
    bits: seq<int>,
    lastError: Error,
    hasNewMinute: bool,
    hasNewSecond: bool,
    hasNewData: bool,
    year: int,
    month: int,
    day: int,
    hour: int,
    minute: int,
    second: int)

  /** What Step needs of a state: a full frame and a flank no later than the last sample. */
  predicate WellFormed(s: State)
  {
    |s.bits| == FrameLength && s.lastFlankTime <= s.lastSampleTime
  }

  /** The state right after construction; the frame's initial contents are left open. */
  function Init(currentTime: nat, currentValue: Level, bits: seq<int>): State
  {
    State(currentValue, currentTime, currentTime, bits, None, false, false, false,
          -1, -1, -1, -1, -1, -1)
  }

  /** The result of the previous call wiped out, as every call does first. */
  function ClearOutcome(s: State): State
  {
    s.(lastError := None, hasNewMinute := false, hasNewSecond := false, hasNewData := false)
  }

  predicate ClockWentBack(s: State, currentTime: nat)
  {
    s.lastSampleTime > currentTime
  }

  predicate Throttled(s: State, currentTime: nat)
  {
    s.lastSampleTime <= currentTime < s.lastSampleTime + SamplingInterval
  }

  /** The cursor moves on at a new second only once a minute start has been seen. */
  function Advance(second: int): int
  {
    if second >= 0 then second + 1 else second
  }

  predicate Desynchronising(e: Error)
  {
    e == InvalidPulseDuration || e == UnexpectedMinuteStart || e == TooManyBits
  }

  /** One call of the sampler at time `currentTime` with normalised level `currentValue`. */
  function Step(s: State, currentTime: nat, currentValue: Level): (r: State)
    requires WellFormed(s)
    ensures WellFormed(r)
    ensures r.lastFlankTime <= r.lastSampleTime <= currentTime
  {
    var c := ClearOutcome(s);
    if c.lastSampleTime > currentTime then
      // the clock wrapped around: start over
      c.(lastSampleValue := currentValue, lastSampleTime := currentTime,
         lastFlankTime := currentTime, second := -1)
    else if currentTime < c.lastSampleTime + SamplingInterval then
      c
    else if c.lastSampleValue == currentValue then
      var held := c.(lastSampleTime := currentTime);
      if !CheckPulseDuration(currentValue, currentTime - c.lastFlankTime, true) then
        held.(second := -1, lastError := InvalidPulseDuration)
      else
        held
    else
      Flank(c, currentTime, currentValue)
  }

  /** A change of level: the pulse of the old level has ended. */
  function Flank(c: State, currentTime: nat, currentValue: Level): State
    requires WellFormed(c) && c.lastSampleTime <= currentTime
  {
    var pulseDuration := currentTime - c.lastFlankTime;
    var pulseValue := c.lastSampleValue;
    var f := c.(lastSampleValue := currentValue, lastSampleTime := currentTime,
                lastFlankTime := currentTime);
    if !CheckPulseDuration(pulseValue, pulseDuration, false) then
      f.(second := -1, lastError := InvalidPulseDuration)
    else if pulseValue == High then
      // HIGH -> LOW: a new second starts
      NewSecond(f.(hasNewSecond := true, second := Advance(f.second)), pulseDuration)
    else
      // LOW -> HIGH: the bit of this second is known
      BitEnd(f, pulseDuration)
  }

  /** The end of a LOW pulse: its bit is recorded in the slot of the current second. */
  function BitEnd(n: State, pulseDuration: nat): State
    requires |n.bits| == FrameLength
  {
    if n.second < 0 then
      n
    else if n.second > 58 then
      n.(second := -1, lastError := TooManyBits)
    else
      n.(bits := n.bits[n.second := BitOf(pulseDuration)])
  }

  /** The end of a HIGH pulse; a long one is the minute marker. */
  function NewSecond(n: State, pulseDuration: nat): State
    requires |n.bits| == FrameLength
  {
    if pulseDuration <= 1750 then
      n
    else if n.second != -1 && n.second != 59 then
      n.(second := -1, lastError := UnexpectedMinuteStart)
    else
      var d :=
        if n.second != 59 then n
        else if !ChecksumOk(n.bits) then n.(lastError := ChecksumMismatch)
        else Publish(n);
      d.(hasNewMinute := true, second := 0)
  }

  /** A frame that passed the check: its time is decoded into the fields and announced. */
  function Publish(n: State): State
    requires |n.bits| == FrameLength
  {
    n.(year := Year(n.bits), month := Month(n.bits), day := Day(n.bits),
       hour := Hour(n.bits), minute := Minute(n.bits), hasNewData := true)
  }

  // ---------------------------------------------------------------------------
  // The invariant

  /** How many slots of the current minute have been recorded: on a HIGH level the
      bit of the current second is already written. */
  function Recorded(s: State): int
  {
    if s.lastSampleValue == High then s.second + 1 else s.second
  }

  /** While synchronised, every slot recorded so far holds a bit. */
  predicate FrameInv(s: State)
    requires |s.bits| == FrameLength
  {
    s.second >= 0 ==> Recorded(s) <= FrameLength && AreBits(s.bits[..Recorded(s)])
  }

  predicate NoTimeYet(s: State)
  {
    s.year == -1 && s.month == -1 && s.day == -1 && s.hour == -1 && s.minute == -1
  }

  predicate TimeInRange(s: State)
  {
    2000 <= s.year <= 2165 && 0 <= s.month <= 25 && 0 <= s.day <= 45 &&
    0 <= s.hour <= 45 && 0 <= s.minute <= 85
  }

  /** The decoded fields are those of the frame in `bits`. */
  predicate DecodedFrom(s: State)
    requires |s.bits| == FrameLength
  {
    s.year == Year(s.bits) && s.month == Month(s.bits) && s.day == Day(s.bits) &&
    s.hour == Hour(s.bits) && s.minute == Minute(s.bits)
  }

  /** How the error and the three flags of one call relate to each other and to the cursor. */
  predicate OutcomeInv(s: State)
    requires |s.bits| == FrameLength
  {
    (s.hasNewData ==> s.hasNewMinute && s.lastError == None && ChecksumOk(s.bits) &&
                      DecodedFrom(s) && TimeInRange(s)) &&
    (s.hasNewMinute ==> s.hasNewSecond && s.second == 0 &&
                        (s.lastError == None || s.lastError == ChecksumMismatch)) &&
    (s.lastError == ChecksumMismatch ==> s.hasNewMinute && !s.hasNewData) &&
    (Desynchronising(s.lastError) ==> s.second == -1 && !s.hasNewMinute) &&
    (s.hasNewSecond ==> s.lastError != InvalidPulseDuration && s.lastError != TooManyBits)
  }

  predicate Inv(s: State)
  {
    WellFormed(s) && -1 <= s.second <= 59 && FrameInv(s) &&
    (NoTimeYet(s) || TimeInRange(s)) && OutcomeInv(s)
  }

  lemma InitSatisfiesInv(currentTime: nat, currentValue: Level, bits: seq<int>)
    requires |bits| == FrameLength
    ensures Inv(Init(currentTime, currentValue, bits))
    ensures Init(currentTime, currentValue, bits).second == -1
    ensures NoTimeYet(Init(currentTime, currentValue, bits))
    ensures Init(currentTime, currentValue, bits).lastError == None
  {
  }

  lemma FlankKeepsInv(s: State, currentTime: nat, currentValue: Level)
    requires Inv(s) && s.lastSampleTime <= currentTime && s.lastSampleValue != currentValue
    ensures Inv(Flank(ClearOutcome(s), currentTime, currentValue))
  {
    var c := ClearOutcome(s);
    var d := currentTime - c.lastFlankTime;
    var r := Flank(c, currentTime, currentValue);
    if !CheckPulseDuration(c.lastSampleValue, d, false) {
    } else if c.lastSampleValue == High {
      if d > 1750 && Advance(c.second) == 59 {
        assert s.second == 58 && Recorded(s) == FrameLength;
        assert s.bits[..FrameLength] == s.bits;
        if ChecksumOk(s.bits) {
          DecodedRanges(s.bits);
        }
      } else if d <= 1750 && Advance(c.second) >= 0 {
        assert Recorded(r) == Recorded(s);
      }
    } else if 0 <= c.second <= 58 {
      var k := c.second;
      var b := BitOf(d);
      assert r.bits == s.bits[k := b];
      assert Recorded(r) == k + 1;
      forall i | 0 <= i < k + 1 ensures IsBit(r.bits[i]) {
        if i < k {
          assert r.bits[i] == s.bits[..k][i];
        }
      }
      assert AreBits(r.bits[..k + 1]);
    }
  }

  /** Every call keeps the invariant: the cursor stays in -1..59, the timestamps ordered,
      the recorded slots bits, the decoded fields all -1 or all in range, and the
      outcome consistent. */
  lemma StepKeepsInv(s: State, currentTime: nat, currentValue: Level)
    requires Inv(s)
    ensures Inv(Step(s, currentTime, currentValue))
  {
    if !ClockWentBack(s, currentTime) && !Throttled(s, currentTime) && s.lastSampleValue != currentValue {
      FlankKeepsInv(s, currentTime, currentValue);
    }
  }

  // ---------------------------------------------------------------------------
  // What one call promises

  /** The error and flags a call leaves behind depend only on that call, never on the
      previous call's outcome. */
  lemma OutcomeIsPerCall(s: State, currentTime: nat, currentValue: Level)
    requires WellFormed(s)
    ensures Step(ClearOutcome(s), currentTime, currentValue) == Step(s, currentTime, currentValue)
  {
  }

  /** A call that arrives within the sampling interval only clears the outcome:
      timestamps, level, cursor, frame and decoded fields stay as they were. */
  lemma ThrottledCallOnlyClears(s: State, currentTime: nat, currentValue: Level)
    requires WellFormed(s) && Throttled(s, currentTime)
    ensures Step(s, currentTime, currentValue) == ClearOutcome(s)
  {
  }

  /** A sampled call that reads the level already held, while the pulse is still short
      enough to turn out valid, only clears the outcome and moves the sample time on. */
  lemma HeldSample(s: State, currentTime: nat)
    requires WellFormed(s) && !ClockWentBack(s, currentTime) && !Throttled(s, currentTime)
    requires currentTime < s.lastFlankTime + MaxDuration(s.lastSampleValue)
    ensures Step(s, currentTime, s.lastSampleValue) == ClearOutcome(s).(lastSampleTime := currentTime)
  {
    RelaxedBound(s.lastSampleValue, currentTime - s.lastFlankTime);
  }

  /** A second call within the interval after a call that took effect changes nothing but
      the outcome, whatever level it would have read. */
  lemma RepeatWithinInterval(s: State, t: nat, v: Level, t': nat, v': Level)
    requires WellFormed(s) && !Throttled(s, t)
    requires t <= t' < t + SamplingInterval
    ensures Step(Step(s, t, v), t', v') == ClearOutcome(Step(s, t, v))
  {
  }

  /** A clock that went backward makes the decoder start over without an error: cursor -1,
      both timestamps the current time, the level the one just read; frame and decoded
      fields untouched. */
  lemma ClockWentBackResynchronises(s: State, currentTime: nat, currentValue: Level)
    requires WellFormed(s) && ClockWentBack(s, currentTime)
    ensures var r := Step(s, currentTime, currentValue);
      r.second == -1 && r.lastSampleTime == currentTime && r.lastFlankTime == currentTime &&
      r.lastSampleValue == currentValue && r.lastError == None &&
      !r.hasNewSecond && !r.hasNewMinute && !r.hasNewData &&
      r.bits == s.bits && r.year == s.year && r.month == s.month && r.day == s.day &&
      r.hour == s.hour && r.minute == s.minute
  {
  }

  /** The condition under which a call records a bit: a sampled LOW -> HIGH flank whose
      LOW pulse passed the final check, with the cursor inside the frame. */
  predicate WritesBit(s: State, currentTime: nat, currentValue: Level)
  {
    !ClockWentBack(s, currentTime) && !Throttled(s, currentTime) &&
    s.lastSampleValue == Low && currentValue == High &&
    s.lastFlankTime <= currentTime &&
    CheckPulseDuration(Low, currentTime - s.lastFlankTime, false) &&
    0 <= s.second <= 58
  }

  /** The frame changes only by recording one bit in slot `second`, only under WritesBit;
      the bit is 0 exactly when the LOW pulse was shorter than 150 ms. */
  lemma BitWrites(s: State, currentTime: nat, currentValue: Level)
    requires WellFormed(s)
    ensures var r := Step(s, currentTime, currentValue);
      if WritesBit(s, currentTime, currentValue) then
        r.bits == s.bits[s.second := BitOf(currentTime - s.lastFlankTime)] &&
        (r.bits[s.second] == 0 <==> currentTime - s.lastFlankTime < 150) &&
        r.second == s.second && r.lastError == None
      else
        r.bits == s.bits
  {
  }

  /** While unsynchronised, no call writes to the frame. */
  lemma UnsynchronisedWritesNothing(s: State, currentTime: nat, currentValue: Level)
    requires WellFormed(s) && s.second < 0
    ensures Step(s, currentTime, currentValue).bits == s.bits
  {
    BitWrites(s, currentTime, currentValue);
  }

  /** InvalidPulseDuration, UnexpectedMinuteStart and TooManyBits all leave the decoder
      waiting for the next minute start. */
  lemma ErrorsDesynchronise(s: State, currentTime: nat, currentValue: Level)
    requires WellFormed(s)
    ensures var r := Step(s, currentTime, currentValue);
      Desynchronising(r.lastError) ==> r.second == -1 && !r.hasNewMinute && !r.hasNewData
  {
  }

  /** A sampled HIGH -> LOW flank whose HIGH pulse passed the final check and was longer
      than 1750 ms: the minute marker. */
  predicate MarkerFlank(s: State, currentTime: nat, currentValue: Level)
  {
    !ClockWentBack(s, currentTime) && !Throttled(s, currentTime) &&
    s.lastSampleValue == High && currentValue == Low &&
    s.lastFlankTime <= currentTime &&
    CheckPulseDuration(High, currentTime - s.lastFlankTime, false) &&
    currentTime - s.lastFlankTime > 1750
  }

  /** A minute marker while the advanced cursor is neither -1 nor 59 is unexpected. */
  lemma UnexpectedMarker(s: State, currentTime: nat, currentValue: Level)
    requires WellFormed(s) && MarkerFlank(s, currentTime, currentValue)
    requires Advance(s.second) != -1 && Advance(s.second) != 59
    ensures var r := Step(s, currentTime, currentValue);
      r.lastError == UnexpectedMinuteStart && r.second == -1 &&
      r.hasNewSecond && !r.hasNewMinute && !r.hasNewData &&
      r.bits == s.bits && r.year == s.year && r.month == s.month && r.day == s.day &&
      r.hour == s.hour && r.minute == s.minute
  {
  }

  /** A minute marker while unsynchronised starts the minute, with no data yet. */
  lemma MarkerSynchronises(s: State, currentTime: nat, currentValue: Level)
    requires WellFormed(s) && MarkerFlank(s, currentTime, currentValue)
    requires Advance(s.second) == -1
    ensures var r := Step(s, currentTime, currentValue);
      r.second == 0 && r.hasNewMinute && r.hasNewSecond && !r.hasNewData &&
      r.lastError == None && r.lastSampleValue == Low && r.lastFlankTime == currentTime &&
      r.bits == s.bits && r.year == s.year && r.month == s.month && r.day == s.day &&
      r.hour == s.hour && r.minute == s.minute
  {
  }

  /** A minute marker right after second 58 closes the frame. A frame that fails the check
      gives ChecksumMismatch and keeps the previous time; one that passes publishes all
      five fields together, decoded from the frame. */
  lemma MarkerClosesFrame(s: State, currentTime: nat, currentValue: Level)
    requires WellFormed(s) && MarkerFlank(s, currentTime, currentValue)
    requires Advance(s.second) == 59
    ensures var r := Step(s, currentTime, currentValue);
      r.second == 0 && r.hasNewMinute && r.hasNewSecond && r.bits == s.bits &&
      if ChecksumOk(s.bits) then
        r.hasNewData && r.lastError == None &&
        r.year == Year(s.bits) && r.month == Month(s.bits) && r.day == Day(s.bits) &&
        r.hour == Hour(s.bits) && r.minute == Minute(s.bits)
      else
        !r.hasNewData && r.lastError == ChecksumMismatch &&
        r.year == s.year && r.month == s.month && r.day == s.day &&
        r.hour == s.hour && r.minute == s.minute
  {
  }

  /** A published year lies in [2000, 2165]: the frame that is closed holds only bits. */
  lemma PublishedTimeInRange(s: State, currentTime: nat, currentValue: Level)
    requires Inv(s)
    ensures var r := Step(s, currentTime, currentValue);
      r.hasNewData ==> 2000 <= r.year <= 2165 && TimeInRange(r)
  {
    StepKeepsInv(s, currentTime, currentValue);
  }

  /** New data appears only when a marker closes a frame that passes the check. */
  lemma NewDataOnlyFromCheckedFrame(s: State, currentTime: nat, currentValue: Level)
    requires WellFormed(s)
    ensures var r := Step(s, currentTime, currentValue);
      r.hasNewData ==> MarkerFlank(s, currentTime, currentValue) && s.second == 58 &&
                       ChecksumOk(s.bits) && r.bits == s.bits
  {
  }

  /** The decoded fields never change one at a time: whenever any of them changes, the
      call published new data and all five are decoded from the closed frame. */
  lemma DecodedFieldsChangeTogether(s: State, currentTime: nat, currentValue: Level)
    requires WellFormed(s)
    ensures var r := Step(s, currentTime, currentValue);
      (r.year, r.month, r.day, r.hour, r.minute) != (s.year, s.month, s.day, s.hour, s.minute) ==>
        r.hasNewData && ChecksumOk(r.bits) && DecodedFrom(r)
  {
  }

  /** The first HIGH -> LOW flank of a frame: a valid HIGH pulse starts a new second and
      moves a synchronised cursor on by one. */
  lemma NewSecondAdvancesCursor(s: State, currentTime: nat, currentValue: Level)
    requires WellFormed(s)
    requires !ClockWentBack(s, currentTime) && !Throttled(s, currentTime)
    requires s.lastSampleValue == High && currentValue == Low
    requires CheckPulseDuration(High, currentTime - s.lastFlankTime, false)
    requires currentTime - s.lastFlankTime < 950
    ensures var r := Step(s, currentTime, currentValue);
      r.hasNewSecond && !r.hasNewMinute && r.lastError == None &&
      r.second == Advance(s.second) && r.bits == s.bits && r.lastFlankTime == currentTime
  {
  }

  /** A pulse outside every window, at the flank or already while the level is held,
      is reported and leaves the decoder waiting for the next minute start. */
  lemma InvalidPulseResets(s: State, currentTime: nat, currentValue: Level)
    requires WellFormed(s)
    requires !ClockWentBack(s, currentTime) && !Throttled(s, currentTime)
    requires if s.lastSampleValue == currentValue
             then !CheckPulseDuration(currentValue, currentTime - s.lastFlankTime, true)
             else !CheckPulseDuration(s.lastSampleValue, currentTime - s.lastFlankTime, false)
    ensures var r := Step(s, currentTime, currentValue);
      r.lastError == InvalidPulseDuration && r.second == -1 && r.bits == s.bits &&
      !r.hasNewSecond && !r.hasNewMinute && !r.hasNewData
  {
  }

  /** A LOW pulse ending with the cursor past second 58 means a minute marker was missed. */
  lemma TooManyBitsResets(s: State, currentTime: nat, currentValue: Level)
    requires WellFormed(s)
    requires !ClockWentBack(s, currentTime) && !Throttled(s, currentTime)
    requires s.lastSampleValue == Low && currentValue == High
    requires CheckPulseDuration(Low, currentTime - s.lastFlankTime, false)
    requires s.second > 58
    ensures var r := Step(s, currentTime, currentValue);
      r.lastError == TooManyBits && r.second == -1 && r.bits == s.bits
  {
  }
}
