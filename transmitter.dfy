/** The sending side of the DCF77 frame: how a transmitter lays a time out in the 59 slots,
    with the parity bits chosen so that every block is even. This is the reference the
    decoder's check and field decoding are proved against. */
module Transmitter {
  import opened Frame

  /** A civil time as the frame carries it; `year` is the year within the century. */
  datatype Time = Time(minute: nat, hour: nat, day: nat, weekday: nat, month: nat, year: nat)

  /** The ranges a transmitted time keeps to. */
  predicate ValidTime(t: Time)
  {
    t.minute <= 59 && t.hour <= 23 && 1 <= t.day <= 31 && 1 <= t.weekday <= 7 &&
    1 <= t.month <= 12 && t.year <= 99
  }

  /** The parity bit that makes the block `s` plus that bit even. */
  function ParityBit(s: seq<int>): (p: int)
    ensures IsBit(p)
  {
    SumRange(s, 0, |s|) % 2
  }

  /** Slots 36-57: day, weekday, month and year. */
  function DateBlock(t: Time): (s: seq<int>)
    ensures |s| == 22 && AreBits(s)
  {
    EncodeBcd(t.day, 6) + BinaryDigits(t.weekday, 3) + EncodeBcd(t.month, 5) + EncodeBcd(t.year, 8)
  }

  /** The frame sent for time t; `info` holds slots 1-20 (weather data, call bit,
      time-zone bits and the start-of-time bit), which the decoder does not interpret. */
  function Encode(t: Time, info: seq<int>): (frame: seq<int>)
    requires |info| == 20
    ensures |frame| == FrameLength
  {
    var m := EncodeBcd(t.minute, 7);
    var h := EncodeBcd(t.hour, 6);
    var d := DateBlock(t);
    [0] + info + m + [ParityBit(m)] + h + [ParityBit(h)] + d + [ParityBit(d)]
  }

  /** A block followed by its parity bit has even parity. */
  lemma {:induction false} BlockWithParity(s: seq<int>)
    requires AreBits(s)
    ensures SumRange(s + [ParityBit(s)], 0, |s| + 1) % 2 == 0
  {
    var b := s + [ParityBit(s)];
    SumRangeShift(b, s, 0, |s|, 0);
  }

  /** A sum only depends on the slots in its range, wherever they sit. */
  lemma {:induction false} SumRangeShift(f: seq<int>, g: seq<int>, lo: int, hi: int, off: int)
    requires 0 <= lo <= hi <= |f| && 0 <= lo - off && hi - off <= |g|
    requires forall k | lo <= k < hi :: f[k] == g[k - off]
    ensures SumRange(f, lo, hi) == SumRange(g, lo - off, hi - off)
    decreases hi - lo
  {
    if lo < hi {
      SumRangeShift(f, g, lo, hi - 1, off);
    }
  }

  /** The parity range [from, to] of a frame whose slots from..to are block + [parity]. */
  lemma ParityOfPlacedBlock(frame: seq<int>, s: seq<int>, from: int)
    requires AreBits(s) && 0 <= from && from + |s| + 1 <= |frame|
    requires frame[from..from + |s| + 1] == s + [ParityBit(s)]
    ensures EvenParity(frame, from, from + |s|)
  {
    var b := s + [ParityBit(s)];
    forall k | from <= k < from + |s| + 1 ensures frame[k] == b[k - from] {
      assert frame[from..from + |s| + 1][k - from] == frame[k];
    }
    SumRangeShift(frame, b, from, from + |s| + 1, from);
    BlockWithParity(s);
  }

  /** The blocks an encoded frame is made of, with their lengths. */
  lemma EncodeBlocks(t: Time, info: seq<int>)
    requires |info| == 20
    ensures var m := EncodeBcd(t.minute, 7);
      var h := EncodeBcd(t.hour, 6);
      var d := DateBlock(t);
      var head := [0] + info;
      var mp := m + [ParityBit(m)];
      var hp := h + [ParityBit(h)];
      Encode(t, info) == head + mp + hp + (d + [ParityBit(d)]) &&
      |head| == 21 && |mp| == 8 && |hp| == 7 && Encode(t, info)[0] == 0
  {
  }

  /** The middle part of a concatenation of three. */
  lemma MiddleSlice(a: seq<int>, b: seq<int>, c: seq<int>)
    ensures (a + b + c)[|a|..|a| + |b|] == b
  {
  }

  /** Where the minute block and its parity bit sit. */
  lemma MinuteLayout(t: Time, info: seq<int>)
    requires |info| == 20
    ensures var f := Encode(t, info);
      var m := EncodeBcd(t.minute, 7);
      f[21..29] == m + [ParityBit(m)] && f[21..28] == m
  {
    var m := EncodeBcd(t.minute, 7);
    var h := EncodeBcd(t.hour, 6);
    var d := DateBlock(t);
    var head, mp, hp, dp := [0] + info, m + [ParityBit(m)], h + [ParityBit(h)], d + [ParityBit(d)];
    var f := Encode(t, info);
    EncodeBlocks(t, info);
    MiddleSlice(head, mp, hp);
    assert f[..36] == head + mp + hp;
    assert f[21..29] == f[..36][21..29];
    assert f[21..28] == f[21..29][..7];
  }

  /** Where the hour block and its parity bit sit. */
  lemma HourLayout(t: Time, info: seq<int>)
    requires |info| == 20
    ensures var f := Encode(t, info);
      var h := EncodeBcd(t.hour, 6);
      f[29..36] == h + [ParityBit(h)] && f[29..35] == h
  {
    var m := EncodeBcd(t.minute, 7);
    var h := EncodeBcd(t.hour, 6);
    var d := DateBlock(t);
    var head, hp, dp := [0] + info + (m + [ParityBit(m)]), h + [ParityBit(h)], d + [ParityBit(d)];
    var f := Encode(t, info);
    EncodeBlocks(t, info);
    assert f == head + hp + dp;
    MiddleSlice(head, hp, dp);
    assert f[29..35] == f[29..36][..6];
  }

  /** The fields inside the date block. */
  lemma DateFields(t: Time)
    ensures var d := DateBlock(t);
      d[0..6] == EncodeBcd(t.day, 6) && d[9..14] == EncodeBcd(t.month, 5) &&
      d[14..22] == EncodeBcd(t.year, 8)
  {
    var dw := EncodeBcd(t.day, 6) + BinaryDigits(t.weekday, 3);
    var dm := dw + EncodeBcd(t.month, 5);
    var d := DateBlock(t);
    assert d == dm + EncodeBcd(t.year, 8);
    assert d[..14] == dm;
    assert dm[..9] == dw;
  }

  /** Where the date block and its parity bit sit. */
  lemma DateTail(t: Time, info: seq<int>)
    requires |info| == 20
    ensures var d := DateBlock(t);
      Encode(t, info)[36..59] == d + [ParityBit(d)]
  {
    EncodeBlocks(t, info);
  }

  /** Where the date block and its parity bit sit, and the fields inside it. */
  lemma DateLayout(t: Time, info: seq<int>)
    requires |info| == 20
    ensures var f := Encode(t, info);
      var d := DateBlock(t);
      f[36..59] == d + [ParityBit(d)] &&
      f[36..42] == EncodeBcd(t.day, 6) && f[45..50] == EncodeBcd(t.month, 5) &&
      f[50..58] == EncodeBcd(t.year, 8)
  {
    var d := DateBlock(t);
    var f := Encode(t, info);
    DateTail(t, info);
    DateFields(t);
    var tail := f[36..59];
    assert tail[0..6] == d[0..6] && tail[9..14] == d[9..14] && tail[14..22] == d[14..22];
    assert f[36..42] == tail[0..6] && f[45..50] == tail[9..14] && f[50..58] == tail[14..22];
  }

  /** A concatenation of bit blocks is a bit block. */
  lemma ConcatBits(a: seq<int>, b: seq<int>)
    requires AreBits(a) && AreBits(b)
    ensures AreBits(a + b)
  {
    forall i | 0 <= i < |a + b| ensures IsBit((a + b)[i]) {
      if i < |a| {
        assert (a + b)[i] == a[i];
      } else {
        assert (a + b)[i] == b[i - |a|];
      }
    }
  }

  /** The frame sent for any time holds only bits when the information slots do. */
  lemma EncodeIsBits(t: Time, info: seq<int>)
    requires |info| == 20 && AreBits(info)
    ensures AreBits(Encode(t, info))
  {
    var m := EncodeBcd(t.minute, 7);
    var h := EncodeBcd(t.hour, 6);
    var d := DateBlock(t);
    var mp, hp, dp := m + [ParityBit(m)], h + [ParityBit(h)], d + [ParityBit(d)];
    ConcatBits(m, [ParityBit(m)]);
    ConcatBits(h, [ParityBit(h)]);
    ConcatBits(d, [ParityBit(d)]);
    ConcatBits([0], info);
    ConcatBits([0] + info, mp);
    ConcatBits([0] + info + mp, hp);
    ConcatBits([0] + info + mp + hp, dp);
    EncodeBlocks(t, info);
  }

  /** Every frame a transmitter sends for a valid time passes the decoder's check. */
  lemma EncodedPassesCheck(t: Time, info: seq<int>)
    requires |info| == 20
    ensures ChecksumOk(Encode(t, info))
  {
    var f := Encode(t, info);
    EncodeBlocks(t, info);
    MinuteLayout(t, info);
    HourLayout(t, info);
    DateLayout(t, info);
    ParityOfPlacedBlock(f, EncodeBcd(t.minute, 7), 21);
    ParityOfPlacedBlock(f, EncodeBcd(t.hour, 6), 29);
    ParityOfPlacedBlock(f, DateBlock(t), 36);
  }

  /** Decoding the frame of a valid time gives that time back. */
  lemma DecodeEncode(t: Time, info: seq<int>)
    requires |info| == 20 && ValidTime(t)
    ensures var f := Encode(t, info);
      Minute(f) == t.minute && Hour(f) == t.hour && Day(f) == t.day &&
      Month(f) == t.month && Year(f) == 2000 + t.year
  {
    var f := Encode(t, info);
    MinuteLayout(t, info);
    HourLayout(t, info);
    DateLayout(t, info);
    FieldsAreBcd(f);
    assert Pow2(1) == 2 && Pow2(2) == 4 && Pow2(3) == 8 && Pow2(4) == 16;
    BcdRoundTrip(t.minute, 7);
    BcdRoundTrip(t.hour, 6);
    BcdRoundTrip(t.day, 6);
    BcdRoundTrip(t.month, 5);
    BcdRoundTrip(t.year, 8);
  }
}
