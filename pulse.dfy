/** Signal levels and the pulse-length tolerances of the DCF77 decoder. */
module Pulse {

  /** A signal level. After ReadSignalPin, LOW segments of 100 or 200 ms carry the bits. */
  datatype Level = Low | High

  /** The level the decoder works with: the receiver module drives its line inverted. */
  function ReadSignalPin(pin: Level): (r: Level)
    ensures r != pin
  {
    if pin == Low then High else Low
  }

  /** Tolerance check for a pulse of `duration` milliseconds at level `value`.
      The final check (`maximumOnly` false) asks for the pulse to lie inside a window;
      the early check (`maximumOnly` true), made while a level is still held,
      applies only the upper bounds. */
  function CheckPulseDuration(value: Level, duration: nat, maximumOnly: bool): bool
  {
    if value == Low then
      (maximumOnly || duration > 50) && duration < 250
    else
      ((maximumOnly || duration > 750) && duration < 950) ||
      ((maximumOnly || duration > 1750) && duration < 1950)
  }

  /** The longest pulse of a level that can still turn out valid (exclusive). */
  function MaxDuration(value: Level): nat
  {
    if value == Low then 250 else 1950
  }

  /** The data bit carried by a LOW pulse: about 100 ms encodes 0, about 200 ms encodes 1. */
  function BitOf(lowDuration: nat): (b: int)
    ensures b == 0 || b == 1
  {
    if lowDuration < 150 then 0 else 1
  }

  /** The final check accepts exactly the three tolerance windows. */
  lemma FinalWindows(value: Level, d: nat)
    ensures CheckPulseDuration(value, d, false) <==>
              (value == Low && 50 < d < 250) ||
              (value == High && (750 < d < 950 || 1750 < d < 1950))
  {
  }

  /** The early check keeps only the upper bound of the level's longest window. */
  lemma RelaxedBound(value: Level, d: nat)
    ensures CheckPulseDuration(value, d, true) <==> d < MaxDuration(value)
  {
  }

  /** Every pulse that passes the final check passes the early one. */
  lemma FinalImpliesRelaxed(value: Level, d: nat)
    requires CheckPulseDuration(value, d, false)
    ensures CheckPulseDuration(value, d, true)
  {
  }

  /** A pulse that fails the early check can never become valid by lasting longer,
      which is why the decoder may give up on it before the flank. */
  lemma TooLongStaysInvalid(value: Level, d: nat, later: nat)
    requires !CheckPulseDuration(value, d, true)
    requires d <= later
    ensures !CheckPulseDuration(value, later, true)
    ensures !CheckPulseDuration(value, later, false)
  {
  }

  /** A valid HIGH pulse is either an ordinary second (below 950 ms) or a minute
      marker (above 1750 ms), never both. */
  lemma HighPulseIsSecondOrMarker(d: nat)
    requires CheckPulseDuration(High, d, false)
    ensures (d < 950) != (d > 1750)
  {
  }
}
