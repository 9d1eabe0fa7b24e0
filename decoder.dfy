/** The DCF77 decoder object: its fields, its sampler and its accessors.
    The hardware calls are parameters: `currentTime` is the millisecond clock reading
    and `pin` the raw level read from the receiver's pin. */
module Decoder {
  import opened Pulse
  import opened Frame
  import opened Machine

  class DCF77 {
    var lastSampleValue: Level
    var lastSampleTime: nat
    var lastFlankTime: nat
    /** One slot per second of the minute, each holding 0 or 1 once written. */
    const bits: array<int>
    var lastError: Error
    var hasNewMinute: bool
    var hasNewSecond: bool
    var hasNewData: bool
    var year: int
    var month: int
    var day: int
    var hour: int
    var minute: int
    /** -1 means waiting for the next minute start. */
    var second: int

    /** The fields as a value of Machine.State. */
    ghost function Abs(): State
      reads this, bits
    {
      State(lastSampleValue, lastSampleTime, lastFlankTime, bits[..], lastError,
            hasNewMinute, hasNewSecond, hasNewData, year, month, day, hour, minute, second)
    }

    ghost predicate Valid()
      reads this, bits
    {
      bits.Length == FrameLength && Inv(Abs())
    }

    /** Starts unsynchronised, with no error, no flags and no decoded time. */
    constructor (currentTime: nat, pin: Level)
      ensures Valid() && fresh(bits)
      ensures Abs() == Init(currentTime, ReadSignalPin(pin), bits[..])
    {
      bits := new int[FrameLength];
      lastSampleValue := ReadSignalPin(pin);
      lastSampleTime, lastFlankTime := currentTime, currentTime;
      lastError := None;
      hasNewMinute := false;
      hasNewSecond := false;
      hasNewData := false;
      year := -1;
      month := -1;
      day := -1;
      hour := -1;
      minute := -1;
      second := -1;
      new;
      InitSatisfiesInv(currentTime, ReadSignalPin(pin), bits[..]);
    }

    /** Even parity of the slots from..to, inclusive. */
    method CheckEvenParity(from: int, to: int) returns (even: bool)
      requires 0 <= from <= to + 1 <= bits.Length
      ensures even == EvenParity(bits[..], from, to)
    {
      var sum := 0;
      for i := from to to + 1
        invariant sum == SumRange(bits[..], from, i)
      {
        sum := sum + bits[i];
      }
      even := sum % 2 == 0;
    }

    /** The frame check: slot 0 is 0 and the three parity ranges are even. */
    method CheckBits() returns (ok: bool)
      requires bits.Length == FrameLength
      ensures ok == ChecksumOk(bits[..])
    {
      if bits[0] != 0 {
        return false;
      }
      var minuteOk := CheckEvenParity(21, 28);
      if !minuteOk {
        return false;
      }
      var hourOk := CheckEvenParity(29, 35);
      if !hourOk {
        return false;
      }
      ok := CheckEvenParity(36, 58);
    }

    /** One call of the sampler. */
    method SampleSignal(currentTime: nat, pin: Level)
      requires Valid()
      modifies this, bits
      ensures Valid()
      ensures Abs() == Step(old(Abs()), currentTime, ReadSignalPin(pin))
    {
      StepKeepsInv(Abs(), currentTime, ReadSignalPin(pin));
      ghost var next := Step(Abs(), currentTime, ReadSignalPin(pin));

      lastError := None;
      hasNewMinute := false;
      hasNewSecond := false;
      hasNewData := false;
      assert Abs() == ClearOutcome(old(Abs()));

      if lastSampleTime > currentTime {
        // the clock wrapped around: start over
        lastSampleValue := ReadSignalPin(pin);
        lastSampleTime := currentTime;
        lastFlankTime := currentTime;
        second := -1;
      } else if currentTime >= lastSampleTime + SamplingInterval {
        var currentValue := ReadSignalPin(pin);
        if lastSampleValue == currentValue {
          lastSampleTime := currentTime;
          if !CheckPulseDuration(currentValue, currentTime - lastFlankTime, true) {
            second := -1;
            lastError := InvalidPulseDuration;
          }
        } else {
          OnFlank(currentTime, currentValue);
        }
      }
      assert Abs() == next;
    }

    /** The level changed: judge the pulse that ended and act on it. */
    method OnFlank(currentTime: nat, currentValue: Level)
      requires bits.Length == FrameLength && WellFormed(Abs())
      requires lastSampleTime <= currentTime
      modifies this, bits
      ensures Abs() == Flank(old(Abs()), currentTime, currentValue)
    {
      var pulseDuration: nat := currentTime - lastFlankTime;
      var pulseValue := lastSampleValue;

      lastSampleValue := currentValue;
      lastSampleTime := currentTime;
      lastFlankTime := currentTime;

      if !CheckPulseDuration(pulseValue, pulseDuration, false) {
        second := -1;
        lastError := InvalidPulseDuration;
        return;
      }

      if pulseValue == High {
        // HIGH -> LOW: a new second starts
        hasNewSecond := true;
        if second >= 0 {
          second := second + 1;
        }
        OnSecondStart(pulseDuration);
      } else {
        // LOW -> HIGH: the bit of this second ends
        OnBitEnd(pulseDuration);
      }
    }

    /** A LOW pulse ended: record its bit in the slot of the current second. */
    method OnBitEnd(pulseDuration: nat)
      requires bits.Length == FrameLength
      modifies this, bits
      ensures Abs() == BitEnd(old(Abs()), pulseDuration)
    {
      if second < 0 {
        return;
      }
      if second > 58 {
        second := -1;
        lastError := TooManyBits;
        return;
      }
      if pulseDuration < 150 {
        bits[second] := 0;
      } else {
        bits[second] := 1;
      }
      assert bits[..] == old(bits[..])[second := BitOf(pulseDuration)];
    }

    /** A HIGH pulse ended; a long one marks the start of a minute. */
    method OnSecondStart(pulseDuration: nat)
      requires bits.Length == FrameLength
      modifies this
      ensures Abs() == NewSecond(old(Abs()), pulseDuration)
    {
      if pulseDuration > 1750 {
        // the missing second pulse: a new minute starts
        if second != -1 && second != 59 {
          second := -1;
          lastError := UnexpectedMinuteStart;
          return;
        }
        if second == 59 {
          var ok := CheckBits();
          if !ok {
            lastError := ChecksumMismatch;
          } else {
            Publish();
          }
        }
        hasNewMinute := true;
        second := 0;
      }
    }

    /** Decodes the checked frame into the time fields and announces it. */
    method Publish()
      requires bits.Length == FrameLength
      modifies this
      ensures Abs() == Machine.Publish(old(Abs()))
    {
      var frame := bits[..];
      var y, mo, d, h, mi := Year(frame), Month(frame), Day(frame), Hour(frame), Minute(frame);
      year, month, day, hour, minute := y, mo, d, h, mi;
      hasNewData := true;
    }

    /** The error of the most recent call. */
    function GetLastError(): (e: Error)
      reads this, bits
      requires Valid()
      ensures Desynchronising(e) ==> second == -1 && !hasNewMinute
      ensures e == ChecksumMismatch ==> hasNewMinute && !hasNewData
    {
      lastError
    }

    /** Whether the most recent call saw a minute marker; the cursor is then at second 0. */
    function HasNewMinute(): (b: bool)
      reads this, bits
      requires Valid()
      ensures b ==> second == 0 && hasNewSecond
      ensures b ==> lastError == None || lastError == ChecksumMismatch
    {
      hasNewMinute
    }

    /** Whether the most recent call saw the start of a second. */
    function HasNewSecond(): (b: bool)
      reads this, bits
      requires Valid()
      ensures b ==> lastError != InvalidPulseDuration && lastError != TooManyBits
    {
      hasNewSecond
    }

    /** Whether the most recent call published a time; it is then the one in the frame. */
    function HasNewData(): (b: bool)
      reads this, bits
      requires Valid()
      ensures b ==> hasNewMinute && lastError == None && ChecksumOk(bits[..])
      ensures b ==> year == Year(bits[..]) && month == Month(bits[..]) && day == Day(bits[..]) &&
                    hour == Hour(bits[..]) && minute == Minute(bits[..])
    {
      hasNewData
    }

    /** The decoded year: -1 before the first decode, otherwise in [2000, 2165]. */
    function GetYear(): (y: int)
      reads this, bits
      requires Valid()
      ensures y == -1 || 2000 <= y <= 2165
      ensures y == -1 <==> month == -1
    {
      year
    }

    function GetMonth(): (m: int)
      reads this, bits
      requires Valid()
      ensures m == -1 || 0 <= m <= 25
      ensures m == -1 <==> year == -1
    {
      month
    }

    function GetDay(): (d: int)
      reads this, bits
      requires Valid()
      ensures d == -1 || 0 <= d <= 45
      ensures d == -1 <==> year == -1
    {
      day
    }

    function GetHour(): (h: int)
      reads this, bits
      requires Valid()
      ensures h == -1 || 0 <= h <= 45
      ensures h == -1 <==> year == -1
    {
      hour
    }

    function GetMinute(): (m: int)
      reads this, bits
      requires Valid()
      ensures m == -1 || 0 <= m <= 85
      ensures m == -1 <==> year == -1
    {
      minute
    }

    /** The cursor: -1 while waiting for a minute start, otherwise 0..59. */
    function GetSecond(): (s: int)
      reads this, bits
      requires Valid()
      ensures -1 <= s <= 59
      ensures s == 59 ==> lastSampleValue == Low
    {
      second
    }
  }
}
