/** The 59-slot DCF77 bit frame: the checksum over it and the BCD-coded time fields it carries.
    Slot 0 is always 0, slots 21-27 hold the minute and 28 its parity, slots 29-34 the hour
    and 35 its parity, slots 36-41 the day, 45-49 the month, 50-57 the year and 58 the
    parity of slots 36-57. */
module Frame {

  /** Number of slots in a frame: one per second 0..58; second 59 carries no bit. */
  const FrameLength: nat := 59

  predicate IsBit(b: int)
  {
    b == 0 || b == 1
  }

  predicate AreBits(s: seq<int>)
  {
    forall i :: 0 <= i < |s| ==> IsBit(s[i])
  }

  /** Sum of the slot values lo..hi-1, accumulated left to right. */
  function SumRange(frame: seq<int>, lo: int, hi: int): int
    requires 0 <= lo <= hi <= |frame|
    decreases hi - lo
  {
    if lo == hi then 0 else SumRange(frame, lo, hi - 1) + frame[hi - 1]
  }

  /** The number of slots that hold a 1. */
  function Ones(s: seq<int>): nat
  {
    multiset(s)[1]
  }

  /** On a frame of bits, the sum of a range is the number of ones in it. */
  lemma {:induction false} SumOfBitsCountsOnes(frame: seq<int>, lo: int, hi: int)
    requires 0 <= lo <= hi <= |frame| && AreBits(frame)
    ensures SumRange(frame, lo, hi) == Ones(frame[lo..hi])
    decreases hi - lo
  {
    if lo < hi {
      SumOfBitsCountsOnes(frame, lo, hi - 1);
      assert frame[lo..hi] == frame[lo..hi - 1] + [frame[hi - 1]];
      assert IsBit(frame[hi - 1]);
    }
  }

  /** Even parity over the inclusive slot range [from, to]. */
  predicate EvenParity(frame: seq<int>, from: int, to: int)
    requires 0 <= from <= to + 1 <= |frame|
  {
    SumRange(frame, from, to + 1) % 2 == 0
  }

  /** On a frame of bits, even parity means an even number of ones in the range. */
  lemma ParityCountsOnes(frame: seq<int>, from: int, to: int)
    requires 0 <= from <= to + 1 <= |frame|
    requires AreBits(frame)
    ensures EvenParity(frame, from, to) <==> Ones(frame[from..to + 1]) % 2 == 0
  {
    SumOfBitsCountsOnes(frame, from, to + 1);
  }

  /** The frame check: slot 0 is 0 and the minute, hour and date blocks have even parity. */
  predicate ChecksumOk(frame: seq<int>)
    requires |frame| == FrameLength
  {
    frame[0] == 0 && EvenParity(frame, 21, 28) && EvenParity(frame, 29, 35) && EvenParity(frame, 36, 58)
  }

  /** Writing x into slot i changes the sum of a range by x - frame[i] if i is in it, else not at all. */
  lemma {:induction false} SumUpdate(frame: seq<int>, lo: int, hi: int, i: int, x: int)
    requires 0 <= lo <= hi <= |frame| && 0 <= i < |frame|
    ensures SumRange(frame[i := x], lo, hi) ==
            if lo <= i < hi then SumRange(frame, lo, hi) - frame[i] + x else SumRange(frame, lo, hi)
    decreases hi - lo
  {
    if lo < hi {
      SumUpdate(frame, lo, hi - 1, i, x);
    }
  }

  /** Flipping one slot inside a parity range flips the parity of that range. */
  lemma FlipTogglesParity(frame: seq<int>, from: int, to: int, i: int)
    requires 0 <= from <= i <= to < |frame|
    ensures EvenParity(frame[i := 1 - frame[i]], from, to) != EvenParity(frame, from, to)
  {
    SumUpdate(frame, from, to + 1, i, 1 - frame[i]);
    OddStepFlipsParity(SumRange(frame, from, to + 1), frame[i]);
  }

  /** Adding 1 - 2x to a number changes its parity. */
  lemma OddStepFlipsParity(a: int, x: int)
    ensures (a - x + (1 - x)) % 2 != a % 2
  {
    var q := a / 2;
    assert a == 2 * q + a % 2;
    assert a - x + (1 - x) == 2 * (q - x) + a % 2 + 1;
  }

  /** Changing a slot outside a parity range leaves that range's parity alone. */
  lemma ParityIgnoresOtherSlots(frame: seq<int>, from: int, to: int, i: int, x: int)
    requires 0 <= from <= to + 1 <= |frame|
    requires 0 <= i < |frame| && (i < from || to < i)
    ensures EvenParity(frame[i := x], from, to) == EvenParity(frame, from, to)
  {
    SumUpdate(frame, from, to + 1, i, x);
  }

  /** A frame that passes the check fails it once slot 0 or any single slot of a
      parity range (21..58) is flipped. */
  lemma ChecksumDetectsSingleFlip(frame: seq<int>, i: int)
    requires |frame| == FrameLength && ChecksumOk(frame)
    requires i == 0 || 21 <= i <= 58
    ensures !ChecksumOk(frame[i := 1 - frame[i]])
  {
    if 21 <= i <= 28 {
      FlipTogglesParity(frame, 21, 28, i);
    } else if 29 <= i <= 35 {
      FlipTogglesParity(frame, 29, 35, i);
    } else if 36 <= i {
      FlipTogglesParity(frame, 36, 58, i);
    }
  }

  /** Slots 1..20 (weather data, flags, the start-of-time bit) take no part in the check. */
  lemma ChecksumIgnoresSlots1To20(frame: seq<int>, i: int, x: int)
    requires |frame| == FrameLength && 1 <= i <= 20
    ensures ChecksumOk(frame[i := x]) == ChecksumOk(frame)
  {
    ParityIgnoresOtherSlots(frame, 21, 28, i, x);
    ParityIgnoresOtherSlots(frame, 29, 35, i, x);
    ParityIgnoresOtherSlots(frame, 36, 58, i, x);
  }

  // ---------------------------------------------------------------------------
  // BCD-coded fields

  function Pow2(k: nat): nat
  {
    if k == 0 then 1 else 2 * Pow2(k - 1)
  }

  /** Little-endian binary value of a slot sequence (weights 1, 2, 4, 8, ...). */
  function Binary(s: seq<int>): int
  {
    if s == [] then 0 else s[0] + 2 * Binary(s[1..])
  }

  /** A BCD field: four slots for the units digit, the remaining slots for the tens digit. */
  function BcdValue(s: seq<int>): int
    requires |s| >= 4
  {
    Binary(s[..4]) + 10 * Binary(s[4..])
  }

  /** The year: 2000 plus slots 50..57 weighted 1, 2, 4, 8, 10, 20, 40, 80. */
  function Year(frame: seq<int>): int
    requires |frame| == FrameLength
  {
    2000 + frame[57] * 80 + frame[56] * 40 + frame[55] * 20 + frame[54] * 10
         + frame[53] * 8 + frame[52] * 4 + frame[51] * 2 + frame[50] * 1
  }

  /** The month: slots 45..49 weighted 1, 2, 4, 8, 10. */
  function Month(frame: seq<int>): int
    requires |frame| == FrameLength
  {
    frame[49] * 10 + frame[48] * 8 + frame[47] * 4 + frame[46] * 2 + frame[45] * 1
  }

  /** The day of the month: slots 36..41 weighted 1, 2, 4, 8, 10, 20. */
  function Day(frame: seq<int>): int
    requires |frame| == FrameLength
  {
    frame[41] * 20 + frame[40] * 10 + frame[39] * 8 + frame[38] * 4 + frame[37] * 2 + frame[36] * 1
  }

  /** The hour: slots 29..34 weighted 1, 2, 4, 8, 10, 20. */
  function Hour(frame: seq<int>): int
    requires |frame| == FrameLength
  {
    frame[34] * 20 + frame[33] * 10 + frame[32] * 8 + frame[31] * 4 + frame[30] * 2 + frame[29] * 1
  }

  /** The minute: slots 21..27 weighted 1, 2, 4, 8, 10, 20, 40. */
  function Minute(frame: seq<int>): int
    requires |frame| == FrameLength
  {
    frame[27] * 40 + frame[26] * 20 + frame[25] * 10 + frame[24] * 8
    + frame[23] * 4 + frame[22] * 2 + frame[21] * 1
  }

  lemma BinaryStep(frame: seq<int>, lo: int, hi: int)
    requires 0 <= lo < hi <= |frame|
    ensures Binary(frame[lo..hi]) == frame[lo] + 2 * Binary(frame[lo + 1..hi])
  {
    assert frame[lo..hi][1..] == frame[lo + 1..hi];
  }

  lemma BinaryOfOne(frame: seq<int>, lo: int)
    requires 0 <= lo < |frame|
    ensures Binary(frame[lo..lo + 1]) == frame[lo]
  {
    BinaryStep(frame, lo, lo + 1);
  }

  lemma BinaryOfTwo(frame: seq<int>, lo: int)
    requires 0 <= lo && lo + 2 <= |frame|
    ensures Binary(frame[lo..lo + 2]) == frame[lo] + 2 * frame[lo + 1]
  {
    BinaryStep(frame, lo, lo + 2);
    BinaryOfOne(frame, lo + 1);
  }

  lemma BinaryOfThree(frame: seq<int>, lo: int)
    requires 0 <= lo && lo + 3 <= |frame|
    ensures Binary(frame[lo..lo + 3]) == frame[lo] + 2 * frame[lo + 1] + 4 * frame[lo + 2]
  {
    BinaryStep(frame, lo, lo + 3);
    BinaryOfTwo(frame, lo + 1);
  }

  lemma BinaryOfFour(frame: seq<int>, lo: int)
    requires 0 <= lo && lo + 4 <= |frame|
    ensures Binary(frame[lo..lo + 4]) ==
            frame[lo] + 2 * frame[lo + 1] + 4 * frame[lo + 2] + 8 * frame[lo + 3]
  {
    BinaryStep(frame, lo, lo + 4);
    BinaryOfThree(frame, lo + 1);
  }

  lemma BcdSplit(frame: seq<int>, lo: int, hi: int)
    requires 0 <= lo && lo + 4 <= hi <= |frame|
    ensures BcdValue(frame[lo..hi]) == Binary(frame[lo..lo + 4]) + 10 * Binary(frame[lo + 4..hi])
  {
    assert frame[lo..hi][..4] == frame[lo..lo + 4];
    assert frame[lo..hi][4..] == frame[lo + 4..hi];
  }

  /** The weight tables are BCD: each field is a units digit in four slots and a tens
      digit in the slots after them. */
  lemma FieldsAreBcd(frame: seq<int>)
    requires |frame| == FrameLength
    ensures Year(frame) == 2000 + BcdValue(frame[50..58])
    ensures Month(frame) == BcdValue(frame[45..50])
    ensures Day(frame) == BcdValue(frame[36..42])
    ensures Hour(frame) == BcdValue(frame[29..35])
    ensures Minute(frame) == BcdValue(frame[21..28])
  {
    YearIsBcd(frame);
    MonthIsBcd(frame);
    DayIsBcd(frame);
    HourIsBcd(frame);
    MinuteIsBcd(frame);
  }

  lemma YearIsBcd(frame: seq<int>)
    requires |frame| == FrameLength
    ensures Year(frame) == 2000 + BcdValue(frame[50..58])
  {
    BcdSplit(frame, 50, 58); BinaryOfFour(frame, 50); BinaryOfFour(frame, 54);
  }

  lemma MonthIsBcd(frame: seq<int>)
    requires |frame| == FrameLength
    ensures Month(frame) == BcdValue(frame[45..50])
  {
    BcdSplit(frame, 45, 50); BinaryOfFour(frame, 45); BinaryOfOne(frame, 49);
  }

  lemma DayIsBcd(frame: seq<int>)
    requires |frame| == FrameLength
    ensures Day(frame) == BcdValue(frame[36..42])
  {
    BcdSplit(frame, 36, 42); BinaryOfFour(frame, 36); BinaryOfTwo(frame, 40);
  }

  lemma HourIsBcd(frame: seq<int>)
    requires |frame| == FrameLength
    ensures Hour(frame) == BcdValue(frame[29..35])
  {
    BcdSplit(frame, 29, 35); BinaryOfFour(frame, 29); BinaryOfTwo(frame, 33);
  }

  lemma MinuteIsBcd(frame: seq<int>)
    requires |frame| == FrameLength
    ensures Minute(frame) == BcdValue(frame[21..28])
  {
    BcdSplit(frame, 21, 28); BinaryOfFour(frame, 21); BinaryOfThree(frame, 25);
  }

  /** The binary value of k bits lies in [0, 2^k). */
  lemma {:induction false} BinaryBounds(s: seq<int>)
    requires AreBits(s)
    ensures 0 <= Binary(s) < Pow2(|s|)
  {
    if s != [] {
      assert AreBits(s[1..]) by {
        forall i | 0 <= i < |s[1..]| ensures IsBit(s[1..][i]) {
          assert s[1..][i] == s[i + 1];
        }
      }
      BinaryBounds(s[1..]);
    }
  }

  lemma SliceOfBits(frame: seq<int>, lo: int, hi: int)
    requires 0 <= lo <= hi <= |frame| && AreBits(frame)
    ensures AreBits(frame[lo..hi])
  {
    forall i | 0 <= i < hi - lo ensures IsBit(frame[lo..hi][i]) {
      assert frame[lo..hi][i] == frame[lo + i];
    }
  }

  lemma BcdBounds(frame: seq<int>, lo: int, hi: int)
    requires 0 <= lo && lo + 4 <= hi <= |frame| && AreBits(frame)
    ensures 0 <= BcdValue(frame[lo..hi]) <= 15 + 10 * (Pow2(hi - lo - 4) - 1)
  {
    BcdSplit(frame, lo, hi);
    SliceOfBits(frame, lo, lo + 4);
    SliceOfBits(frame, lo + 4, hi);
    BinaryBounds(frame[lo..lo + 4]);
    BinaryBounds(frame[lo + 4..hi]);
    assert Pow2(4) == 16;
  }

  /** Fields decoded from a frame of bits lie within what their slots can express:
      the year in [2000, 2165], the month up to 25, day and hour up to 45, the minute up to 85.
      The decoder does not check calendar validity beyond this. */
  lemma DecodedRanges(frame: seq<int>)
    requires |frame| == FrameLength && AreBits(frame)
    ensures 2000 <= Year(frame) <= 2165
    ensures 0 <= Month(frame) <= 25
    ensures 0 <= Day(frame) <= 45
    ensures 0 <= Hour(frame) <= 45
    ensures 0 <= Minute(frame) <= 85
  {
    FieldsAreBcd(frame);
    BcdBounds(frame, 50, 58);
    BcdBounds(frame, 45, 50);
    BcdBounds(frame, 36, 42);
    BcdBounds(frame, 29, 35);
    BcdBounds(frame, 21, 28);
    assert Pow2(1) == 2 && Pow2(2) == 4 && Pow2(3) == 8 && Pow2(4) == 16;
  }

  // ---------------------------------------------------------------------------
  // BCD encoding: the inverse of BcdValue, as a transmitter lays a field out

  /** The k low-order bits of d, least significant first. */
  function BinaryDigits(d: nat, k: nat): (s: seq<int>)
    ensures |s| == k && AreBits(s)
  {
    if k == 0 then [] else [d % 2] + BinaryDigits(d / 2, k - 1)
  }

  lemma {:induction false} BinaryRoundTrip(d: nat, k: nat)
    requires d < Pow2(k)
    ensures Binary(BinaryDigits(d, k)) == d
  {
    if k > 0 {
      BinaryRoundTrip(d / 2, k - 1);
      assert BinaryDigits(d, k)[1..] == BinaryDigits(d / 2, k - 1);
    }
  }

  lemma {:induction false} DigitsRoundTrip(s: seq<int>)
    requires AreBits(s)
    ensures Binary(s) >= 0 && BinaryDigits(Binary(s), |s|) == s
  {
    if s != [] {
      assert AreBits(s[1..]) by {
        forall i | 0 <= i < |s[1..]| ensures IsBit(s[1..][i]) {
          assert s[1..][i] == s[i + 1];
        }
      }
      BinaryBounds(s[1..]);
      DigitsRoundTrip(s[1..]);
      assert Binary(s) % 2 == s[0] && Binary(s) / 2 == Binary(s[1..]);
      assert s == [s[0]] + s[1..];
    }
  }

  /** A value laid out in `width` slots as two BCD digits, units first. */
  function EncodeBcd(n: nat, width: nat): (s: seq<int>)
    requires 4 <= width
    ensures |s| == width && AreBits(s)
  {
    BinaryDigits(n % 10, 4) + BinaryDigits(n / 10, width - 4)
  }

  /** Decoding an encoded field gives the value back, when its tens digit fits the field. */
  lemma BcdRoundTrip(n: nat, width: nat)
    requires 4 <= width && n / 10 < Pow2(width - 4)
    ensures BcdValue(EncodeBcd(n, width)) == n
  {
    var s := EncodeBcd(n, width);
    assert s[..4] == BinaryDigits(n % 10, 4);
    assert s[4..] == BinaryDigits(n / 10, width - 4);
    assert Pow2(4) == 16;
    BinaryRoundTrip(n % 10, 4);
    BinaryRoundTrip(n / 10, width - 4);
  }

  /** Encoding a decoded field gives the slots back, when the units digit is a decimal digit. */
  lemma BcdFieldRoundTrip(s: seq<int>)
    requires |s| >= 4 && AreBits(s) && Binary(s[..4]) <= 9
    ensures BcdValue(s) >= 0 && EncodeBcd(BcdValue(s), |s|) == s
  {
    var u, t := s[..4], s[4..];
    SliceOfBits(s, 0, 4);
    SliceOfBits(s, 4, |s|);
    BinaryBounds(u);
    BinaryBounds(t);
    DigitsRoundTrip(u);
    DigitsRoundTrip(t);
    var n := BcdValue(s);
    assert n % 10 == Binary(u) && n / 10 == Binary(t);
    assert s == u + t;
  }
}
