/** The pulse detector of the tachometer: a two-state Schmitt trigger over
    the centred voltage. Two versions exist, tachometer.h with a threshold
    of half of `minPulseHeight` and src/tachometer.h with a tenth of
    `pulseHeight`; both come to 100. The voltage is an `int` that C++
    converts to `float` for the comparison, so the comparison is modelled on
    reals. */
module Tachometer {

  /** `minPulseHeight` of tachometer.h. */
  const MinPulseHeight: real := 200.0

  /** `pulseHeight` of src/tachometer.h. */
  const PulseHeight: real := 1000.0

  /** The detector's outcome: whether the pulse crossed, and the new
      `pulseHigh`. */
  datatype Crossing = Crossing(crossed: bool, pulseHigh: bool)

  /** `crossed(v)` with the dead band [-threshold, threshold]: a high pulse
      goes low below it, a low pulse goes high above it, and on a crossing
      the new level is the sign of `v`. */
  function CrossedAt(threshold: real, pulseHigh: bool, v: int): (r: Crossing)
    requires threshold > 0.0
    ensures r.crossed <==> (pulseHigh && (v as real) < -threshold) || (!pulseHigh && (v as real) > threshold)
    ensures r.crossed ==> r.pulseHigh == !pulseHigh
    ensures !r.crossed ==> r.pulseHigh == pulseHigh
  {
    var crossed := (pulseHigh && (v as real) < -threshold) || (!pulseHigh && (v as real) > threshold);
    Crossing(crossed, if crossed then v > 0 else pulseHigh)
  }

  /** `crossed` of tachometer.h. */
  function CrossedByMinHeight(pulseHigh: bool, v: int): (r: Crossing)
    ensures r.crossed <==> (pulseHigh && v < -100) || (!pulseHigh && v > 100)
    ensures r.pulseHigh == (r.crossed != pulseHigh)
  {
    CrossedAt(MinPulseHeight / 2.0, pulseHigh, v)
  }

  /** `crossed` of src/tachometer.h. The double product `0.1 * 1000.0` rounds
      to exactly 100.0, as the real product is. */
  function CrossedByFraction(pulseHigh: bool, v: int): (r: Crossing)
    ensures r.crossed <==> (pulseHigh && v < -100) || (!pulseHigh && v > 100)
    ensures r.pulseHigh == (r.crossed != pulseHigh)
  {
    CrossedAt(0.1 * PulseHeight, pulseHigh, v)
  }

  /** The two versions detect the same crossings. */
  lemma VersionsAgree(pulseHigh: bool, v: int)
    ensures CrossedByMinHeight(pulseHigh, v) == CrossedByFraction(pulseHigh, v)
  {
  }

  /** A voltage inside the dead band never changes the state, whichever
      level the pulse is at. */
  lemma DeadBand(pulseHigh: bool, v: int)
    requires -100 <= v <= 100
    ensures !CrossedByFraction(pulseHigh, v).crossed
    ensures CrossedByFraction(pulseHigh, v).pulseHigh == pulseHigh
  {
  }

  /** The same voltage read twice crosses at most once: after a crossing the
      pulse is on the side of `v`. */
  lemma RepeatDoesNotCross(pulseHigh: bool, v: int)
    ensures var first := CrossedByFraction(pulseHigh, v);
      !CrossedByFraction(first.pulseHigh, v).crossed
  {
  }

  /** After a crossing the level is the sign of the voltage. */
  lemma CrossingFollowsSign(pulseHigh: bool, v: int)
    ensures var r := CrossedByFraction(pulseHigh, v);
      r.crossed ==> (r.pulseHigh <==> v > 0)
  {
  }
}
