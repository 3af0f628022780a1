/** The acquisition side of the rotary sensor (src/sensor.cpp, include/sensor.h):
    a cheap phase estimate from two quadrature channels, a lap counter that
    unwraps that phase, and the folding of samples into reports. Analog reads,
    clocks and the cross-core hand-off are not modelled: a sample arrives as
    plain numbers, and a finished report is returned instead of pushed. */
module Sensor {
  import opened Wrappers
  import opened CInt

  const TicksPerTurn: int := 720
  const HalfTurn: int := TicksPerTurn / 2
  const QuarterTurn: int := TicksPerTurn / 4
  const EighthTurn: int := TicksPerTurn / 8

  /** Microseconds between scheduled samples. */
  const SamplePeriod: int := 1000
  const SamplesPerReport: int := 5

  /** The analog level both channels are centred on before estimating phase. */
  const Midpoint: int := 300

  /** INT_MAX of the 32-bit target. */
  const IntMax: int := 0x7FFF_FFFF

  /** The turn is divisible by 8, so the half, quarter and eighth turns the
      phase estimate is built from are exact. */
  lemma TurnFractionsExact()
    ensures HalfTurn * 2 == TicksPerTurn && QuarterTurn * 4 == TicksPerTurn && EighthTurn * 8 == TicksPerTurn
    ensures HalfTurn == 360 && QuarterTurn == 180 && EighthTurn == 90
  {
  }

  // ---------------------------------------------------------------------------
  // Phase estimate

  // The four linear pieces of the arctangent substitute, one per region.
  function East(x: int, y: int): int
    requires x != 0
  {
    Div(EighthTurn * y, x)
  }

  function North(x: int, y: int): int
    requires y != 0
  {
    QuarterTurn + Div(-EighthTurn * x, y)
  }

  function South(x: int, y: int): int
    requires y != 0
  {
    -QuarterTurn + Div(-EighthTurn * x, y)
  }

  function West(x: int, y: int): int
    requires x != 0
  {
    HalfTurn + Div(EighthTurn * y, x)
  }

  datatype Region = EastRegion | NorthRegion | SouthRegion | WestRegion

  /** The branch of the estimate that handles (x, y), tested in the order of src/sensor.cpp. */
  function RegionOf(x: int, y: int): Region {
    if x >= Abs(y) then EastRegion
    else if y >= Abs(x) then NorthRegion
    else if -y >= Abs(x) then SouthRegion
    else WestRegion
  }

  /** The estimate as written. `None` stands for the division by zero that the
      first branch performs when both centred channels are 0. */
  function ApproximatePhaseAsWritten(x: int, y: int): (r: Option<int>)
    ensures r.None? <==> x == 0 && y == 0
  {
    match RegionOf(x, y)
    case EastRegion => if x == 0 then None else Some(East(x, y))
    case NorthRegion => Some(North(x, y))
    case SouthRegion => Some(South(x, y))
    case WestRegion => Some(West(x, y))
  }

  /** Both channels reading the midpoint is an ordinary input, and it sends
      the estimate as written into its division by zero. */
  lemma MidpointReadingDividesByZero()
    ensures ApproximatePhaseAsWritten(Midpoint - Midpoint, Midpoint - Midpoint).None?
  {
  }

  lemma EastWithin(x: int, y: int)
    requires x != 0 && x >= Abs(y)
    ensures -EighthTurn <= East(x, y) <= EighthTurn
  {
    DivWithin(EighthTurn * y, x, EighthTurn);
  }

  lemma NorthWithin(x: int, y: int)
    requires y != 0 && y >= Abs(x)
    ensures QuarterTurn - EighthTurn <= North(x, y) <= QuarterTurn + EighthTurn
  {
    DivWithin(-EighthTurn * x, y, EighthTurn);
  }

  lemma SouthWithin(x: int, y: int)
    requires y != 0 && -y >= Abs(x)
    ensures -QuarterTurn - EighthTurn <= South(x, y) <= -QuarterTurn + EighthTurn
  {
    DivWithin(-EighthTurn * x, y, EighthTurn);
  }

  lemma WestWithin(x: int, y: int)
    requires x != 0 && Abs(y) < Abs(x)
    ensures HalfTurn - EighthTurn < West(x, y) < HalfTurn + EighthTurn
  {
    DivInside(EighthTurn * y, x, EighthTurn);
  }

  /** The estimate with the origin mapped to angle 0; everywhere else it is
      the estimate as written. Each branch stays within an eighth of a turn of
      its region's centre (0, a quarter, minus a quarter, a half turn). */
  function ApproximatePhase(x: int, y: int): (r: int)
    ensures x == 0 && y == 0 ==> r == 0
    ensures ApproximatePhaseAsWritten(x, y).Some? ==> r == ApproximatePhaseAsWritten(x, y).value
    ensures RegionOf(x, y) == EastRegion ==> -EighthTurn <= r <= EighthTurn
    ensures RegionOf(x, y) == NorthRegion ==> QuarterTurn - EighthTurn <= r <= QuarterTurn + EighthTurn
    ensures RegionOf(x, y) == SouthRegion ==> -QuarterTurn - EighthTurn <= r <= -QuarterTurn + EighthTurn
    ensures RegionOf(x, y) == WestRegion ==> HalfTurn - EighthTurn < r < HalfTurn + EighthTurn
  {
    match RegionOf(x, y)
    case EastRegion =>
      if x == 0 then 0
      else
        EastWithin(x, y);
        East(x, y)
    case NorthRegion =>
      NorthWithin(x, y);
      North(x, y)
    case SouthRegion =>
      SouthWithin(x, y);
      South(x, y)
    case WestRegion =>
      WestWithin(x, y);
      West(x, y)
  }

  /** On the diagonals |x| == |y| two regions meet, and the neighbouring
      pieces give the same angle, so the order in which the branches are
      tested does not matter there (the last pair agrees once a negative
      angle is moved up by a turn). */
  lemma {:induction false} DiagonalsAgree(x: int)
    requires x > 0
    ensures East(x, x) == North(x, x) == EighthTurn
    ensures East(x, -x) == South(x, -x) == -EighthTurn
    ensures North(-x, x) == West(-x, x) == QuarterTurn + EighthTurn
    ensures South(-x, -x) + TicksPerTurn == West(-x, -x) == HalfTurn + EighthTurn
  {
    DivExact(EighthTurn, x);
    DivExact(-EighthTurn, x);
    DivExact(EighthTurn, -x);
    DivExact(-EighthTurn, -x);
    assert EighthTurn * x == -EighthTurn * -x;
    assert -EighthTurn * x == EighthTurn * -x;
  }

  /** The phase of centred channel values, in [0, TicksPerTurn): the estimate
      with negative angles moved up by one turn. */
  function CalculatePhase(x: int, y: int): (theta: int)
    ensures 0 <= theta < TicksPerTurn
    ensures (theta - ApproximatePhase(x, y)) % TicksPerTurn == 0
  {
    var t := ApproximatePhase(x, y);
    if t < 0 then t + TicksPerTurn else t
  }

  // ---------------------------------------------------------------------------
  // Lap counting

  /** The lap counter's state: whole turns so far and the previous angle. */
  datatype LapCounter = LapCounter(laps: int, prevTheta: int)

  /** The position the counter has unwrapped so far, in ticks. */
  function Unwrapped(c: LapCounter): int {
    c.laps * TicksPerTurn + c.prevTheta
  }

  datatype LapStep = LapStep(counter: LapCounter, thetaChange: int)

  /** Unwraps a new angle: a raw change of more than half a turn is read as a
      crossing of angle 0, which moves the lap count by one and the change by
      a turn. */
  function CountLaps(c: LapCounter, theta: int): (r: LapStep)
    ensures r.counter.prevTheta == theta
    ensures Unwrapped(r.counter) == Unwrapped(c) + r.thetaChange
    ensures r.counter.laps == c.laps + 1 <==> theta - c.prevTheta < -HalfTurn
    ensures r.counter.laps == c.laps - 1 <==> theta - c.prevTheta > HalfTurn
    ensures c.laps - 1 <= r.counter.laps <= c.laps + 1
    ensures (r.thetaChange - (theta - c.prevTheta)) % TicksPerTurn == 0
    ensures 0 <= theta < TicksPerTurn && 0 <= c.prevTheta < TicksPerTurn ==> -HalfTurn <= r.thetaChange <= HalfTurn
  {
    var change := theta - c.prevTheta;
    if change < -HalfTurn then
      LapStep(LapCounter(c.laps + 1, theta), change + TicksPerTurn)
    else if change > HalfTurn then
      LapStep(LapCounter(c.laps - 1, theta), change - TicksPerTurn)
    else
      LapStep(LapCounter(c.laps, theta), change)
  }

  /** The counter has followed the true position `p` (in ticks) exactly. */
  predicate Tracks(c: LapCounter, p: int) {
    c.laps == p / TicksPerTurn && c.prevTheta == p % TicksPerTurn
  }

  /** One step of less than half a turn in either direction is recovered
      exactly from the angle alone. */
  lemma StepTracksMotion(c: LapCounter, p: int, d: int)
    requires Tracks(c, p)
    requires -HalfTurn < d < HalfTurn
    ensures CountLaps(c, (p + d) % TicksPerTurn).thetaChange == d
    ensures Tracks(CountLaps(c, (p + d) % TicksPerTurn).counter, p + d)
  {
    var q := p + d;
    var theta := q % TicksPerTurn;
    assert p == c.laps * TicksPerTurn + c.prevTheta;
    assert q == (q / TicksPerTurn) * TicksPerTurn + theta;
    var j := c.laps - q / TicksPerTurn;
    assert theta - c.prevTheta == j * TicksPerTurn + d;
    assert -1 <= j <= 1;
    var s := CountLaps(c, theta);
    if j == 0 {
      assert s.thetaChange == d && s.counter.laps == c.laps;
    } else if j == 1 {
      assert s.thetaChange == d && s.counter.laps == c.laps - 1;
    } else {
      assert s.thetaChange == d && s.counter.laps == c.laps + 1;
    }
  }

  /** Folds the lap counter over a sequence of angles. */
  function Track(c: LapCounter, thetas: seq<int>): LapCounter
    decreases |thetas|
  {
    if |thetas| == 0 then c else Track(CountLaps(c, thetas[0]).counter, thetas[1..])
  }

  /** The angles the sensor reports along a trajectory of true positions. */
  function AnglesOf(ps: seq<int>): (ts: seq<int>)
    ensures |ts| == |ps|
    ensures forall i :: 0 <= i < |ps| ==> ts[i] == ps[i] % TicksPerTurn
  {
    seq(|ps|, i requires 0 <= i < |ps| => ps[i] % TicksPerTurn)
  }

  /** Consecutive true positions are less than half a turn apart. */
  predicate SlowerThanHalfTurn(ps: seq<int>) {
    forall i :: 1 <= i < |ps| ==> -HalfTurn < ps[i] - ps[i - 1] < HalfTurn
  }

  /** Wraparound correctness: when every step is shorter than half a turn,
      in either direction, the counter ends on the true lap count and angle,
      starting from any position it tracked. */
  lemma {:induction false} LapCountFollowsTrajectory(c: LapCounter, ps: seq<int>)
    requires |ps| > 0 && Tracks(c, ps[0])
    requires SlowerThanHalfTurn(ps)
    ensures Tracks(Track(c, AnglesOf(ps[1..])), ps[|ps| - 1])
    decreases |ps|
  {
    if |ps| > 1 {
      var d := ps[1] - ps[0];
      StepTracksMotion(c, ps[0], d);
      assert ps[0] + d == ps[1];
      var c' := CountLaps(c, ps[1] % TicksPerTurn).counter;
      var rest := ps[1..];
      assert AnglesOf(rest)[0] == ps[1] % TicksPerTurn;
      assert AnglesOf(rest)[1..] == AnglesOf(rest[1..]);
      assert SlowerThanHalfTurn(rest) by {
        forall i | 1 <= i < |rest|
          ensures -HalfTurn < rest[i] - rest[i - 1] < HalfTurn
        {
          assert rest[i] == ps[i + 1] && rest[i - 1] == ps[i];
        }
      }
      LapCountFollowsTrajectory(c', rest);
      assert rest[|rest| - 1] == ps[|ps| - 1];
    }
  }

  // ---------------------------------------------------------------------------
  // Folding samples into reports

  /** One sample as the calculations see it: the two raw channel readings and
      the idle time and jitter the scheduler measured around them. */
  datatype Sample = Sample(a: int, b: int, idle: int, jitter: int)

  /** The fields of a reading that readAndSend fills in before pushing it. */
  datatype Reading = Reading(
    a: int, b: int, theta: int, laps: int, thetaChange: int,
    jitter: int, minIdle: int, maxIdle: int)

  /** The acquisition core's state between samples. */
  datatype Acquisition = Acquisition(
    counter: LapCounter,
    samplesSinceReport: int,
    thetaChangeSinceReport: int,
    maxIdle: int,
    minIdle: int)

  /** What holds between samples: the angle is normalised, the report counter
      is below the report size, a fresh window has reset accumulators, and a
      started one has seen an idle time between its minimum and maximum. */
  predicate Valid(s: Acquisition) {
    && 0 <= s.counter.prevTheta < TicksPerTurn
    && 0 <= s.samplesSinceReport < SamplesPerReport
    && (s.samplesSinceReport == 0 ==>
          s.thetaChangeSinceReport == 0 && s.maxIdle == 0 && s.minIdle == SamplePeriod)
    && (s.samplesSinceReport > 0 ==> s.minIdle <= s.maxIdle)
  }

  /** The state after the warm-up reads: no laps, the angle of the last
      warm-up reading, an empty report window. */
  function StartAcquisition(warmup: Sample): (s: Acquisition)
    ensures Valid(s)
    ensures s.counter.laps == 0
    ensures s.counter.prevTheta == CalculatePhase(warmup.a - Midpoint, warmup.b - Midpoint)
    ensures s.samplesSinceReport == 0 && s.thetaChangeSinceReport == 0
    ensures s.maxIdle == 0 && s.minIdle == SamplePeriod
  {
    Acquisition(LapCounter(0, CalculatePhase(warmup.a - Midpoint, warmup.b - Midpoint)), 0, 0, 0, SamplePeriod)
  }

  /** The counter starts on the warm-up angle in lap 0, so it tracks that
      position, and the first sample reading the same channels sees no
      motion and leaves the counter where it was. */
  lemma StartTracksWarmup(warmup: Sample, x: Sample)
    requires x.a == warmup.a && x.b == warmup.b
    ensures Tracks(StartAcquisition(warmup).counter, CalculatePhase(warmup.a - Midpoint, warmup.b - Midpoint))
    ensures ReadAndSend(StartAcquisition(warmup), x).change == 0
    ensures ReadAndSend(StartAcquisition(warmup), x).next.counter == StartAcquisition(warmup).counter
  {
  }

  /** The result of one sample: the next state, the sample's own angle
      change, and the reading pushed when the window is full. */
  datatype Tick = Tick(next: Acquisition, change: int, pushed: Option<Reading>)

  /** readAndSend after its reads: estimate the phase, count laps, add the
      change and idle time to the window, and push a reading carrying the
      window's totals every SamplesPerReport samples. */
  function ReadAndSend(s: Acquisition, x: Sample): (t: Tick)
    ensures Valid(s) ==> Valid(t.next)
    ensures t.pushed.Some? <==> s.samplesSinceReport + 1 >= SamplesPerReport
    ensures t.next.counter.prevTheta == CalculatePhase(x.a - Midpoint, x.b - Midpoint)
    ensures Unwrapped(t.next.counter) == Unwrapped(s.counter) + t.change
    ensures t.pushed.None? ==>
      && t.next.samplesSinceReport == s.samplesSinceReport + 1
      && t.next.thetaChangeSinceReport == s.thetaChangeSinceReport + t.change
      && IsMin(t.next.minIdle, s.minIdle, x.idle)
      && IsMax(t.next.maxIdle, s.maxIdle, x.idle)
    ensures t.pushed.Some? ==>
      && t.pushed.value.thetaChange == s.thetaChangeSinceReport + t.change
      && t.pushed.value.laps == t.next.counter.laps
      && t.pushed.value.theta == t.next.counter.prevTheta
      && t.pushed.value.minIdle <= x.idle <= t.pushed.value.maxIdle
      && IsMin(t.pushed.value.minIdle, s.minIdle, x.idle)
      && IsMax(t.pushed.value.maxIdle, s.maxIdle, x.idle)
      && t.next.samplesSinceReport == 0
      && t.next.thetaChangeSinceReport == 0
      && t.next.maxIdle == 0
      && t.next.minIdle == SamplePeriod
    ensures Valid(s) ==> -HalfTurn <= t.change <= HalfTurn
  {
    var theta := CalculatePhase(x.a - Midpoint, x.b - Midpoint);
    var step := CountLaps(s.counter, theta);
    var samples := s.samplesSinceReport + 1;
    var sum := s.thetaChangeSinceReport + step.thetaChange;
    var maxIdle := if x.idle > s.maxIdle then x.idle else s.maxIdle;
    var minIdle := if x.idle < s.minIdle then x.idle else s.minIdle;
    if samples >= SamplesPerReport then
      var r := Reading(x.a, x.b, theta, step.counter.laps, sum, x.jitter, minIdle, maxIdle);
      Tick(Acquisition(step.counter, 0, 0, 0, SamplePeriod), step.thetaChange, Some(r))
    else
      Tick(Acquisition(step.counter, samples, sum, maxIdle, minIdle), step.thetaChange, None)
  }

  /** `m` is the smaller of `a` and `b`. */
  predicate IsMin(m: int, a: int, b: int) {
    m <= a && m <= b && (m == a || m == b)
  }

  /** `m` is the larger of `a` and `b`. */
  predicate IsMax(m: int, a: int, b: int) {
    m >= a && m >= b && (m == a || m == b)
  }

  /** The smallest idle time of the samples, or `m` if that is smaller. */
  function MinIdleOf(m: int, xs: seq<Sample>): (r: int)
    ensures r <= m && forall i :: 0 <= i < |xs| ==> r <= xs[i].idle
    ensures r == m || exists i :: 0 <= i < |xs| && r == xs[i].idle
    decreases |xs|
  {
    if |xs| == 0 then m
    else
      var r := MinIdleOf(if xs[0].idle < m then xs[0].idle else m, xs[1..]);
      assert forall i :: 1 <= i < |xs| ==> xs[i] == xs[1..][i - 1];
      r
  }

  /** The largest idle time of the samples, or `m` if that is larger. */
  function MaxIdleOf(m: int, xs: seq<Sample>): (r: int)
    ensures r >= m && forall i :: 0 <= i < |xs| ==> r >= xs[i].idle
    ensures r == m || exists i :: 0 <= i < |xs| && r == xs[i].idle
    decreases |xs|
  {
    if |xs| == 0 then m
    else
      var r := MaxIdleOf(if xs[0].idle > m then xs[0].idle else m, xs[1..]);
      assert forall i :: 1 <= i < |xs| ==> xs[i] == xs[1..][i - 1];
      r
  }

  /** The outcome of a run of samples: the final state, each sample's angle
      change, and the readings pushed on the way. */
  datatype Trace = Trace(last: Acquisition, changes: seq<int>, reports: seq<Reading>)

  function Run(s: Acquisition, xs: seq<Sample>): (tr: Trace)
    ensures |tr.changes| == |xs|
    decreases |xs|
  {
    if |xs| == 0 then Trace(s, [], [])
    else
      var t := ReadAndSend(s, xs[0]);
      var rest := Run(t.next, xs[1..]);
      Trace(rest.last, [t.change] + rest.changes,
            (if t.pushed.Some? then [t.pushed.value] else []) + rest.reports)
  }

  function Sum(xs: seq<int>): int
    decreases |xs|
  {
    if |xs| == 0 then 0 else xs[0] + Sum(xs[1..])
  }

  /** The angle change carried by a sequence of pushed readings. */
  function ReportedChange(rs: seq<Reading>): int
    decreases |rs|
  {
    if |rs| == 0 then 0 else rs[0].thetaChange + ReportedChange(rs[1..])
  }

  /** Over any run the state stays valid, one reading is pushed per
      SamplesPerReport samples, and the samples' changes add up to the
      unwrapped motion. */
  lemma {:induction false} RunCountsReports(s: Acquisition, xs: seq<Sample>)
    requires Valid(s)
    ensures Valid(Run(s, xs).last)
    ensures |Run(s, xs).reports| == (s.samplesSinceReport + |xs|) / SamplesPerReport
    ensures Run(s, xs).last.samplesSinceReport == (s.samplesSinceReport + |xs|) % SamplesPerReport
    ensures Sum(Run(s, xs).changes) == Unwrapped(Run(s, xs).last.counter) - Unwrapped(s.counter)
    decreases |xs|
  {
    if |xs| > 0 {
      var t := ReadAndSend(s, xs[0]);
      RunCountsReports(t.next, xs[1..]);
      var tr := Run(s, xs);
      var rest := Run(t.next, xs[1..]);
      assert tr.changes[1..] == rest.changes;
      if t.pushed.Some? {
        assert tr.reports[1..] == rest.reports;
      } else {
        assert tr.reports == rest.reports;
      }
    }
  }

  /** The pushed readings plus what is still pending carry exactly the
      samples' changes, and every reading has minIdle <= maxIdle. */
  lemma {:induction false} RunCarriesChanges(s: Acquisition, xs: seq<Sample>)
    requires Valid(s)
    ensures ReportedChange(Run(s, xs).reports) + Run(s, xs).last.thetaChangeSinceReport
         == s.thetaChangeSinceReport + Sum(Run(s, xs).changes)
    ensures forall r :: r in Run(s, xs).reports ==> r.minIdle <= r.maxIdle
    decreases |xs|
  {
    if |xs| > 0 {
      var t := ReadAndSend(s, xs[0]);
      RunCarriesChanges(t.next, xs[1..]);
      var tr := Run(s, xs);
      var rest := Run(t.next, xs[1..]);
      assert tr.changes == [t.change] + rest.changes;
      if t.pushed.Some? {
        assert tr.reports == [t.pushed.value] + rest.reports;
        assert tr.reports[1..] == rest.reports;
      } else {
        assert tr.reports == rest.reports;
      }
    }
  }

  /** No motion is lost at report boundaries: over any run, the pushed
      readings plus what is still pending add up to the unwrapped motion;
      one reading is pushed per SamplesPerReport samples; every reading
      has minIdle <= maxIdle. */
  lemma ReportsConserveMotion(s: Acquisition, xs: seq<Sample>)
    requires Valid(s)
    ensures Valid(Run(s, xs).last)
    ensures |Run(s, xs).reports| == (s.samplesSinceReport + |xs|) / SamplesPerReport
    ensures Run(s, xs).last.samplesSinceReport == (s.samplesSinceReport + |xs|) % SamplesPerReport
    ensures Sum(Run(s, xs).changes) == Unwrapped(Run(s, xs).last.counter) - Unwrapped(s.counter)
    ensures ReportedChange(Run(s, xs).reports) + Run(s, xs).last.thetaChangeSinceReport
         == s.thetaChangeSinceReport + Sum(Run(s, xs).changes)
    ensures forall r :: r in Run(s, xs).reports ==> r.minIdle <= r.maxIdle
  {
    RunCountsReports(s, xs);
    RunCarriesChanges(s, xs);
  }

  /** A window of SamplesPerReport samples from a fresh window pushes exactly
      one reading, at the last sample, whose angle change is the sum of the
      samples' changes; the accumulators are then reset. */
  lemma OneReportPerWindow(s: Acquisition, xs: seq<Sample>)
    requires Valid(s) && s.samplesSinceReport == 0
    requires |xs| == SamplesPerReport
    ensures |Run(s, xs).reports| == 1
    ensures Run(s, xs).reports[0].thetaChange == Sum(Run(s, xs).changes)
    ensures Run(s, xs).reports[0].minIdle <= Run(s, xs).reports[0].maxIdle
    ensures Run(s, xs).reports[0].minIdle == MinIdleOf(SamplePeriod, xs)
    ensures Run(s, xs).reports[0].maxIdle == MaxIdleOf(0, xs)
    ensures var l := Run(s, xs).last;
      l.samplesSinceReport == 0 && l.thetaChangeSinceReport == 0 && l.maxIdle == 0 && l.minIdle == SamplePeriod
  {
    ReportsConserveMotion(s, xs);
    WindowIdles(s, xs);
    var rs := Run(s, xs).reports;
    assert rs[1..] == [];
    assert rs[0] in rs;
  }

  /** The samples that complete a window push one reading whose idle
      bounds are the smallest and largest idle time of the window, counting
      the accumulators' values when the samples arrived. */
  lemma {:induction false} WindowIdles(s: Acquisition, xs: seq<Sample>)
    requires Valid(s) && |xs| > 0 && s.samplesSinceReport + |xs| == SamplesPerReport
    ensures |Run(s, xs).reports| == 1
    ensures Run(s, xs).reports[0].minIdle == MinIdleOf(s.minIdle, xs)
    ensures Run(s, xs).reports[0].maxIdle == MaxIdleOf(s.maxIdle, xs)
    decreases |xs|
  {
    var t := ReadAndSend(s, xs[0]);
    if |xs| == 1 {
      assert xs[1..] == [];
    } else {
      WindowIdles(t.next, xs[1..]);
    }
  }

  // ---------------------------------------------------------------------------
  // The richer report of include/sensor.h

  datatype Report = Report(
    last: Reading, samples: int, thetaChange: int,
    maxJitter: int, minIdle: int, sendTime: int)

  /** Starts a new aggregation window: counts and sums to 0, the minimum idle
      time to INT_MAX; the last reading and the send time are kept. */
  function Clear(r: Report): (c: Report)
    ensures c.samples == 0 && c.thetaChange == 0
    ensures c.maxJitter == 0 && c.minIdle == IntMax
    ensures c.last == r.last && c.sendTime == r.sendTime
  {
    r.(samples := 0, thetaChange := 0, maxJitter := 0, minIdle := IntMax)
  }

  /** Clearing twice is clearing once. */
  lemma ClearIdempotent(r: Report)
    ensures Clear(Clear(r)) == Clear(r)
  {
  }

  /** A cleared report is neutral for aggregation: the first 32-bit idle time
      becomes the minimum and the first non-negative jitter the maximum. */
  lemma ClearedIsNeutral(r: Report, idle: int, jitter: int)
    requires idle <= IntMax && 0 <= jitter
    ensures (if idle < Clear(r).minIdle then idle else Clear(r).minIdle) == idle
    ensures (if jitter > Clear(r).maxJitter then jitter else Clear(r).maxJitter) == jitter
  {
  }
}
