/** The calibration engine of src/calibration.h: a circular histogram of how
    much motion was seen in each of 36 angular bins, and the state machine
    that collects one lap of such motion at a time and blends it into a
    persistent weight table. The firmware's `float`/`double` values are
    `real` here: rounding, NaN and infinity are not modelled, except that the
    NaN start position is `None`. */
module Calibration {
  import opened Wrappers
  import opened CInt

  const BinCount: int := 36

  /** Accepted range for the mass one lap collected before it is blended in. */
  const MinSamples: real := 10.0
  const MaxSamples: real := 50.0

  /** How much of a completed lap is blended into the weight table. */
  const LearningRate: real := 0.02

  /** The bins of a histogram: a fixed-size array in the header. */
  type Bins = b: seq<real> | |b| == BinCount witness seq(36, _ => 0.0)

  datatype Weights = Weights(bins: Bins, total: real)

  // ---------------------------------------------------------------------------
  // Sums of bins

  function Sum(s: seq<real>): real
    decreases |s|
  {
    if |s| == 0 then 0.0 else s[0] + Sum(s[1..])
  }

  /** The class invariant: the bins add up to the running total. */
  predicate Balanced(w: Weights) {
    Sum(w.bins) == w.total
  }

  predicate NonNegative(s: seq<real>) {
    forall k :: 0 <= k < |s| ==> s[k] >= 0.0
  }

  /** Adding `v` to one element adds `v` to the sum. */
  lemma {:induction false} SumAddAt(s: seq<real>, k: int, v: real)
    requires 0 <= k < |s|
    ensures Sum(s[k := s[k] + v]) == Sum(s) + v
    decreases |s|
  {
    var t := s[k := s[k] + v];
    if k == 0 {
      assert t[1..] == s[1..];
    } else {
      assert t[1..] == s[1..][k - 1 := s[k] + v];
      SumAddAt(s[1..], k - 1, v);
    }
  }

  /** A constant sequence sums to its length times the constant. */
  lemma {:induction false} SumConstant(n: nat, v: real)
    ensures Sum(seq(n, _ => v)) == n as real * v
    decreases n
  {
    if n > 0 {
      assert seq(n, _ => v)[1..] == seq(n - 1, _ => v);
      SumConstant(n - 1, v);
    }
  }

  /** The element-wise blend `a[k] * x + b[k] * y`. */
  function Blend(a: seq<real>, b: seq<real>, x: real, y: real): (c: seq<real>)
    requires |a| == |b|
    ensures |c| == |a|
    ensures forall k :: 0 <= k < |a| ==> c[k] == a[k] * x + b[k] * y
    decreases |a|
  {
    if |a| == 0 then [] else [a[0] * x + b[0] * y] + Blend(a[1..], b[1..], x, y)
  }

  /** Summing is linear: the sum of a blend is the blend of the sums. */
  lemma {:induction false} SumBlend(a: seq<real>, b: seq<real>, x: real, y: real)
    requires |a| == |b|
    ensures Sum(Blend(a, b, x, y)) == Sum(a) * x + Sum(b) * y
    decreases |a|
  {
    if |a| > 0 {
      var c := Blend(a, b, x, y);
      var d := Blend(a[1..], b[1..], x, y);
      assert c[1..] == d;
      SumBlend(a[1..], b[1..], x, y);
      assert Sum(c) == c[0] + Sum(d);
      Distribute(a[0], Sum(a[1..]), b[0], Sum(b[1..]), x, y);
    }
  }

  /** The one step of algebra `SumBlend` needs. */
  lemma Distribute(a0: real, sa: real, b0: real, sb: real, x: real, y: real)
    ensures a0 * x + b0 * y + (sa * x + sb * y) == (a0 + sa) * x + (b0 + sb) * y
  {
    assert (a0 + sa) * x == a0 * x + sa * x;
    assert (b0 + sb) * y == b0 * y + sb * y;
  }

  /** In a non-negative sequence every element is at most the sum. */
  lemma {:induction false} ElementAtMostSum(s: seq<real>, k: int)
    requires NonNegative(s) && 0 <= k < |s|
    ensures 0.0 <= s[k] <= Sum(s)
    decreases |s|
  {
    SumNonNegative(s[1..]);
    if k > 0 {
      ElementAtMostSum(s[1..], k - 1);
    }
  }

  lemma {:induction false} SumNonNegative(s: seq<real>)
    requires NonNegative(s)
    ensures Sum(s) >= 0.0
    decreases |s|
  {
    if |s| > 0 {
      SumNonNegative(s[1..]);
    }
  }

  // ---------------------------------------------------------------------------
  // The histogram

  /** `((i % binCount) + binCount) % binCount` under C++ `%`: any index,
      negative ones included, lands on the bin with the same residue. */
  function BinIndex(i: int): (k: int)
    ensures 0 <= k < BinCount
    ensures k == i % BinCount
  {
    Mod(Mod(i, BinCount) + BinCount, BinCount)
  }

  /** The weight of bin `i`, taken circularly: an index in range reads its
      own bin, and every index reads the bin of its residue modulo 36. */
  function Get(w: Weights, i: int): (r: real)
    ensures 0 <= i < BinCount ==> r == w.bins[i]
    ensures r == w.bins[i % BinCount]
  {
    w.bins[BinIndex(i)]
  }

  /** Indices a whole lap apart read the same bin. */
  lemma GetIsCircular(w: Weights, i: int)
    ensures Get(w, i) == Get(w, i + BinCount) == Get(w, i - BinCount)
    ensures Get(w, -1) == w.bins[BinCount - 1]
  {
    var q, k := i / BinCount, i % BinCount;
    assert i == BinCount * q + k;
    assert i + BinCount == BinCount * (q + 1) + k;
    assert i - BinCount == BinCount * (q - 1) + k;
    assert (i + BinCount) % BinCount == k;
    assert (i - BinCount) % BinCount == k;
    assert -1 == BinCount * -1 + (BinCount - 1);
  }

  /** How many bins bin `b` lies after index `i`, going round the table. */
  function Offset(i: int, b: int): (o: int)
    ensures 0 <= o < BinCount
  {
    (b - i) % BinCount
  }

  /** Euclidean division by the bin count has one remainder. */
  lemma ModUnique(a: int, q: int, m: int)
    requires a == BinCount * q + m && 0 <= m < BinCount
    ensures a % BinCount == m
  {
  }

  /** Moving the index on by one: the index's own bin is at offset 0 and
      then a lap away less one; every other bin comes one closer. */
  lemma OffsetStep(i: int, b: int)
    requires 0 <= b < BinCount
    ensures b == BinIndex(i) <==> Offset(i, b) == 0
    ensures b == BinIndex(i) ==> Offset(i + 1, b) == BinCount - 1
    ensures b != BinIndex(i) ==> Offset(i, b) == Offset(i + 1, b) + 1
  {
    var q, k := i / BinCount, i % BinCount;
    assert i == BinCount * q + k;
    if b >= k {
      ModUnique(b - i, -q, b - k);
      if b == k {
        ModUnique(b - i - 1, -q - 1, BinCount - 1);
      } else {
        ModUnique(b - i - 1, -q, b - k - 1);
      }
    } else {
      ModUnique(b - i, -q - 1, b - k + BinCount);
      ModUnique(b - i - 1, -q - 1, b - k + BinCount - 1);
    }
  }

  /** The bin of index `j` lies `j - i` bins after `i` when that is less
      than a lap. */
  lemma OffsetOf(i: int, j: int)
    requires 0 <= j - i < BinCount
    ensures Offset(i, BinIndex(j)) == j - i
  {
    var q, k := j / BinCount, j % BinCount;
    assert j == BinCount * q + k;
    ModUnique(BinIndex(j) - i, -q, j - i);
  }

  /** The bin at offset `o` from `i` is the bin of index `i + o`. */
  lemma OffsetInverse(i: int, b: int)
    requires 0 <= b < BinCount
    ensures BinIndex(i + Offset(i, b)) == b
  {
    var o := Offset(i, b);
    var q := (b - i) / BinCount;
    assert b - i == BinCount * q + o;
    ModUnique(i + o, -q, b);
  }

  /** Every bin set to `val`, and the total to what they add up to. */
  function Fill(val: real): (r: Weights)
    ensures forall k :: 0 <= k < BinCount ==> r.bins[k] == val
    ensures r.total == BinCount as real * val
    ensures Balanced(r)
    ensures val >= 0.0 ==> NonNegative(r.bins)
  {
    SumConstant(BinCount, val);
    Weights(seq(BinCount, _ => val), BinCount as real * val)
  }

  /** Adds `val` to bin `i` (taken circularly) and to the total. */
  function Add(w: Weights, i: int, val: real): (r: Weights)
    ensures r.bins[BinIndex(i)] == w.bins[BinIndex(i)] + val
    ensures forall k :: 0 <= k < BinCount && k != BinIndex(i) ==> r.bins[k] == w.bins[k]
    ensures r.total == w.total + val
    ensures Balanced(w) ==> Balanced(r)
    ensures NonNegative(w.bins) && val >= 0.0 ==> NonNegative(r.bins)
  {
    var k := BinIndex(i);
    SumAddAt(w.bins, k, val);
    Weights(w.bins[k := w.bins[k] + val], w.total + val)
  }

  /** update as written: every bin becomes `bin * (1 - nextWeight) +
      next.bin * nextWeight / next.total`, and the total is left alone. */
  function UpdateAsWritten(w: Weights, next: Weights, nextWeight: real): (r: Weights)
    requires next.total != 0.0
    ensures forall k :: 0 <= k < BinCount ==>
      r.bins[k] == w.bins[k] * (1.0 - nextWeight) + next.bins[k] * (nextWeight / next.total)
    ensures r.total == w.total
    ensures Sum(r.bins) == Sum(w.bins) * (1.0 - nextWeight) + Sum(next.bins) * (nextWeight / next.total)
  {
    SumBlend(w.bins, next.bins, 1.0 - nextWeight, nextWeight / next.total);
    Weights(Blend(w.bins, next.bins, 1.0 - nextWeight, nextWeight / next.total), w.total)
  }

  /** Blending a balanced histogram into a table whose bins sum to 1 keeps
      the sum at 1, which is all the one caller relies on. */
  lemma UpdateKeepsUnitSum(w: Weights, next: Weights, nextWeight: real)
    requires next.total != 0.0
    requires Sum(w.bins) == 1.0 && Balanced(next)
    ensures Sum(UpdateAsWritten(w, next, nextWeight).bins) == 1.0
  {
    assert next.total * (nextWeight / next.total) == nextWeight;
  }

  /** In general the update as written breaks the class invariant: blending
      two balanced all-ones tables half and half leaves total at 36 while the
      bins add up to 18.5. */
  lemma UpdateAsWrittenUnbalances()
    ensures Balanced(Fill(1.0))
    ensures !Balanced(UpdateAsWritten(Fill(1.0), Fill(1.0), 0.5))
  {
    var r := UpdateAsWritten(Fill(1.0), Fill(1.0), 0.5);
    assert Sum(r.bins) == 36.0 * 0.5 + 36.0 * (0.5 / 36.0);
  }

  /** update with the total blended exactly like the bins, so that a
      balanced table stays balanced. The bins are those of the update as
      written. */
  function Update(w: Weights, next: Weights, nextWeight: real): (r: Weights)
    requires next.total != 0.0
    ensures r.bins == UpdateAsWritten(w, next, nextWeight).bins
    ensures Balanced(w) && Balanced(next) ==> Balanced(r)
    ensures r.total == w.total * (1.0 - nextWeight) + nextWeight
  {
    var scaled := nextWeight / next.total;
    assert next.total * scaled == nextWeight;
    Weights(UpdateAsWritten(w, next, nextWeight).bins, w.total * (1.0 - nextWeight) + next.total * scaled)
  }

  /** A blend of non-negative histograms with a weight in [0, 1] and a
      positive total is non-negative. */
  lemma UpdateKeepsNonNegative(w: Weights, next: Weights, nextWeight: real)
    requires NonNegative(w.bins) && NonNegative(next.bins)
    requires next.total > 0.0 && 0.0 <= nextWeight <= 1.0
    ensures NonNegative(Update(w, next, nextWeight).bins)
  {
    var r := Update(w, next, nextWeight);
    var scaled := nextWeight / next.total;
    assert scaled >= 0.0;
    forall k | 0 <= k < BinCount
      ensures r.bins[k] >= 0.0
    {
      MulNonNegative(w.bins[k], 1.0 - nextWeight);
      MulNonNegative(next.bins[k], scaled);
    }
  }

  lemma MulNonNegative(a: real, b: real)
    requires a >= 0.0 && b >= 0.0
    ensures a * b >= 0.0
  {
  }

  // ---------------------------------------------------------------------------
  // Spreading a range over bins

  /** C `ceil` on a real. */
  function Ceil(x: real): (c: int)
    ensures x <= c as real < x + 1.0
    ensures c == x.Floor <==> x == x.Floor as real
  {
    if x.Floor as real == x then x.Floor else x.Floor + 1
  }

  /** `n` copies of `v`. Kept as a function so that the solver meets the
      product of an integer count and a real only where it is unfolded. */
  function Times(n: int, v: real): real {
    n as real * v
  }

  lemma TimesStep(n: int, v: real)
    ensures Times(n + 1, v) == Times(n, v) + v
  {
  }

  /** Adds `v` to every bin from `i` up to but not including `hi`. */
  function AddEach(w: Weights, i: int, hi: int, v: real): (r: Weights)
    requires i <= hi
    ensures r.total == w.total + Times(hi - i, v)
    ensures Balanced(w) ==> Balanced(r)
    ensures NonNegative(w.bins) && v >= 0.0 ==> NonNegative(r.bins)
    ensures hi - i <= BinCount ==> forall b :: 0 <= b < BinCount ==>
      r.bins[b] == w.bins[b] + (if Offset(i, b) < hi - i then v else 0.0)
    decreases hi - i
  {
    if i == hi then w
    else
      TimesStep(hi - i - 1, v);
      OffsetSteps(i, i + 1);
      AddEach(Add(w, i, v), i + 1, hi, v)
  }

  /** `OffsetStep` for every bin at once, with `j` the next index. */
  lemma OffsetSteps(i: int, j: int)
    requires j == i + 1
    ensures forall b :: 0 <= b < BinCount ==>
      (b == BinIndex(i) <==> Offset(i, b) == 0) &&
      (b == BinIndex(i) ==> Offset(j, b) == BinCount - 1) &&
      (b != BinIndex(i) ==> Offset(i, b) == Offset(j, b) + 1)
  {
    forall b | 0 <= b < BinCount
      ensures b == BinIndex(i) <==> Offset(i, b) == 0
      ensures b == BinIndex(i) ==> Offset(j, b) == BinCount - 1
      ensures b != BinIndex(i) ==> Offset(i, b) == Offset(j, b) + 1
    {
      OffsetStep(i, b);
    }
  }

  /** Less than a lap from `i`, the bins at offset below `hi - i` are exactly
      the bins of the indices from `i` up to but not including `hi`. */
  lemma OffsetCovers(i: int, hi: int, b: int)
    requires i <= hi <= i + BinCount && 0 <= b < BinCount
    ensures Offset(i, b) < hi - i <==> exists k :: i <= k < hi && BinIndex(k) == b
  {
    if Offset(i, b) < hi - i {
      OffsetInverse(i, b);
      assert BinIndex(i + Offset(i, b)) == b;
    }
    if k :| i <= k < hi && BinIndex(k) == b {
      OffsetOf(i, k);
    }
  }

  /** The multi-bin case of addRange once the amounts are known: `first` to
      the start bin, `last` to the end bin and `weight` to each bin between. */
  function Spread(w: Weights, startBin: int, endBin: int, weight: real, first: real, last: real): (r: Weights)
    requires startBin < endBin
    ensures r.total == w.total + first + last + Times(endBin - startBin - 1, weight)
    ensures Balanced(w) ==> Balanced(r)
    ensures NonNegative(w.bins) && weight >= 0.0 && first >= 0.0 && last >= 0.0 ==> NonNegative(r.bins)
    ensures endBin - startBin < BinCount ==> forall b :: 0 <= b < BinCount ==>
      r.bins[b] == w.bins[b] + BinGain(startBin, endBin, weight, first, last, b)
  {
    var w2 := Add(Add(w, startBin, first), endBin, last);
    assert endBin - (startBin + 1) == endBin - startBin - 1;
    SpreadOffsets(startBin, startBin + 1, endBin);
    AddEach(w2, startBin + 1, endBin, weight)
  }

  /** What one bin gains from spreading over the bins of `s` to `e`: `first`
      in the bin of `s`, `last` in the bin of `e`, `weight` in each bin
      strictly between them, nothing elsewhere. */
  function BinGain(s: int, e: int, weight: real, first: real, last: real, b: int): real {
    if b == BinIndex(s) then first
    else if b == BinIndex(e) then last
    else if Offset(s, b) < e - s then weight
    else 0.0
  }

  /** Where the bins of a spread of less than a lap lie, by offset from the
      start `s` and from the next index `t`: the start bin at 0, the end bin
      at `e - s`, and one step on every other bin comes one closer. */
  lemma SpreadOffsets(s: int, t: int, e: int)
    requires s < e && t == s + 1
    ensures e - s < BinCount ==> BinIndex(s) != BinIndex(e)
    ensures e - s < BinCount ==> forall b :: 0 <= b < BinCount ==>
      (b == BinIndex(s) ==> Offset(t, b) == BinCount - 1) &&
      (b == BinIndex(e) ==> Offset(s, b) == e - s && Offset(t, b) == e - s - 1) &&
      (b != BinIndex(s) ==> Offset(s, b) == Offset(t, b) + 1)
  {
    if e - s < BinCount {
      OffsetOf(s, e);
      forall b | 0 <= b < BinCount
        ensures b == BinIndex(s) ==> Offset(t, b) == BinCount - 1
        ensures b == BinIndex(e) ==> Offset(s, b) == e - s && Offset(t, b) == e - s - 1
        ensures b != BinIndex(s) ==> Offset(s, b) == Offset(t, b) + 1
      {
        SpreadOffset(s, e, b);
      }
    }
  }

  /** `SpreadOffsets` for one bin. */
  lemma SpreadOffset(s: int, e: int, b: int)
    requires 0 < e - s < BinCount && 0 <= b < BinCount
    ensures b == BinIndex(s) ==> Offset(s + 1, b) == BinCount - 1
    ensures b == BinIndex(e) ==> Offset(s, b) == e - s && Offset(s + 1, b) == e - s - 1
    ensures b != BinIndex(s) ==> Offset(s, b) == Offset(s + 1, b) + 1
  {
    OffsetOf(s, e);
    OffsetOf(s + 1, e);
    OffsetStep(s, b);
  }

  /** The two ends of a range in ascending order. */
  function Ordered(start: real, end: real): (p: (real, real))
    ensures p.0 <= p.1
    ensures (p.0 == start && p.1 == end) || (p.0 == end && p.1 == start)
  {
    if end < start then (end, start) else (start, end)
  }

  lemma OrderedIsSymmetric(start: real, end: real)
    ensures Ordered(start, end) == Ordered(end, start)
  {
  }

  /** The scaled ends of an ordered range, in bin units. */
  function Scaled(p: (real, real)): (real, real) {
    (p.0 * BinCount as real, p.1 * BinCount as real)
  }

  /** The weight per bin unit of `val` spread over [lo, hi) in bin units. */
  function UnitWeight(lo: real, hi: real, val: real): real
    requires lo < hi
  {
    val / (hi - lo)
  }

  /** The share of the start bin: the part of it the range covers. */
  function FirstShare(lo: real, hi: real, val: real): real
    requires lo < hi
  {
    UnitWeight(lo, hi, val) * ((lo.Floor + 1) as real - lo)
  }

  /** The share of the start bin as written: `ceil(lo) - lo` units. */
  function FirstShareAsWritten(lo: real, hi: real, val: real): real
    requires lo < hi
  {
    UnitWeight(lo, hi, val) * (Ceil(lo) as real - lo)
  }

  /** The share of the end bin: the part of it the range covers. */
  function LastShare(lo: real, hi: real, val: real): real
    requires lo < hi
  {
    UnitWeight(lo, hi, val) * (hi - hi.Floor as real)
  }

  /** The shares of the bins strictly between the start and end bins. */
  function MiddleShare(lo: real, hi: real, val: real): real
    requires lo < hi
  {
    Times(hi.Floor - lo.Floor - 1, UnitWeight(lo, hi, val))
  }

  /** How much of the unit bin [k, k + 1) the range [lo, hi) covers. */
  function Overlap(lo: real, hi: real, k: int): (o: real)
    ensures 0.0 <= o <= 1.0
    ensures o <= hi - lo || o == 0.0
  {
    var from := if lo < k as real then k as real else lo;
    var to := if hi < (k + 1) as real then hi else (k + 1) as real;
    if from < to then to - from else 0.0
  }

  /** The share of `val` spread over [lo, hi) that bin `b` gets in proportion
      to how much of it the range covers, where, counted round the table,
      bin `b` is the bin unit `Offset(lo.Floor, b)` after the start. */
  function OverlapShare(lo: real, hi: real, val: real, b: int): real
    requires lo < hi
  {
    UnitWeight(lo, hi, val) * Overlap(lo, hi, lo.Floor + Offset(lo.Floor, b))
  }

  /** Over less than a lap of bins, what each bin but the start bin gains
      from the spread of `val` is `val` in proportion to how much of that
      bin the range covers; the start bin gains `first`, and its
      proportional share is `FirstShare`. */
  lemma BinGainIsOverlap(lo: real, hi: real, val: real, first: real)
    requires lo.Floor < hi.Floor
    ensures lo < hi
    ensures hi.Floor < lo.Floor + BinCount ==> forall b :: 0 <= b < BinCount ==>
      BinGain(lo.Floor, hi.Floor, UnitWeight(lo, hi, val), first, LastShare(lo, hi, val), b)
      == if b == BinIndex(lo.Floor) then first else OverlapShare(lo, hi, val, b)
    ensures FirstShare(lo, hi, val) == OverlapShare(lo, hi, val, BinIndex(lo.Floor))
  {
    OffsetOf(lo.Floor, lo.Floor);
    SharesAreOverlaps(lo, hi, val, lo.Floor);
    if hi.Floor < lo.Floor + BinCount {
      forall b | 0 <= b < BinCount
        ensures BinGain(lo.Floor, hi.Floor, UnitWeight(lo, hi, val), first, LastShare(lo, hi, val), b)
          == if b == BinIndex(lo.Floor) then first else OverlapShare(lo, hi, val, b)
      {
        BinGainIsOverlapAt(lo, hi, val, first, b);
      }
    }
  }

  /** `BinGainIsOverlap` for one bin. */
  lemma BinGainIsOverlapAt(lo: real, hi: real, val: real, first: real, b: int)
    requires lo.Floor < hi.Floor < lo.Floor + BinCount && 0 <= b < BinCount
    ensures lo < hi
    ensures BinGain(lo.Floor, hi.Floor, UnitWeight(lo, hi, val), first, LastShare(lo, hi, val), b)
      == if b == BinIndex(lo.Floor) then first else OverlapShare(lo, hi, val, b)
  {
    BinGainByUnit(lo.Floor, hi.Floor, UnitWeight(lo, hi, val), first, LastShare(lo, hi, val), b);
    OverlapShareByUnit(lo, hi, val, b);
  }

  /** `OverlapShare` by the bin unit that bin `b` stands for. */
  lemma OverlapShareByUnit(lo: real, hi: real, val: real, b: int)
    requires lo.Floor < hi.Floor < lo.Floor + BinCount && 0 <= b < BinCount
    ensures lo < hi
    ensures OverlapShare(lo, hi, val, b) == UnitGain(lo.Floor + Offset(lo.Floor, b), lo.Floor, hi.Floor,
      UnitWeight(lo, hi, val), FirstShare(lo, hi, val), LastShare(lo, hi, val))
  {
    SharesAreOverlaps(lo, hi, val, lo.Floor + Offset(lo.Floor, b));
  }

  /** What bin unit `k`, from `s` on, gains from a spread from `s` to `e`. */
  function UnitGain(k: int, s: int, e: int, weight: real, first: real, last: real): real {
    if k == s then first else if k == e then last else if k < e then weight else 0.0
  }

  /** `BinGain` by the bin unit `k` that bin `b` stands for in a spread of
      less than a lap from `s`. */
  lemma BinGainByUnit(s: int, e: int, weight: real, first: real, last: real, b: int)
    requires 0 < e - s < BinCount && 0 <= b < BinCount
    ensures s <= s + Offset(s, b)
    ensures b == BinIndex(s) <==> s + Offset(s, b) == s
    ensures BinGain(s, e, weight, first, last, b) == UnitGain(s + Offset(s, b), s, e, weight, first, last)
  {
    SpreadBin(s, e, b);
  }

  /** Each share of the spread is `val` in proportion to the overlap of the
      range with its bin unit `k`: the start and end bins by their parts, a
      bin between by a whole unit, a bin after the end by nothing. */
  lemma SharesAreOverlaps(lo: real, hi: real, val: real, k: int)
    requires lo.Floor < hi.Floor && lo.Floor <= k
    ensures lo < hi
    ensures UnitWeight(lo, hi, val) * Overlap(lo, hi, k) ==
      UnitGain(k, lo.Floor, hi.Floor, UnitWeight(lo, hi, val), FirstShare(lo, hi, val), LastShare(lo, hi, val))
  {
    OverlapCases(lo, hi, k);
  }

  /** Which bin unit, counted from the start bin `s`, bin `b` stands for in a
      spread of less than a lap, and which case of `BinGain` it falls in. */
  lemma SpreadBin(s: int, e: int, b: int)
    requires 0 < e - s < BinCount && 0 <= b < BinCount
    ensures b == BinIndex(s) ==> s + Offset(s, b) == s
    ensures b != BinIndex(s) && b == BinIndex(e) ==> s + Offset(s, b) == e
    ensures b != BinIndex(s) && b != BinIndex(e) ==>
      s < s + Offset(s, b) && s + Offset(s, b) != e && (Offset(s, b) < e - s <==> s + Offset(s, b) < e)
  {
    OffsetStep(s, b);
    OffsetOf(s, e);
    OffsetInverse(s, b);
  }

  /** The overlap of a range over several bins with each bin unit: the part
      of the start bin from `lo` on, the part of the end bin up to `hi`, all
      of each bin between and nothing of the bins after. */
  lemma OverlapCases(lo: real, hi: real, k: int)
    requires lo.Floor < hi.Floor
    ensures k == lo.Floor ==> Overlap(lo, hi, k) == (k + 1) as real - lo
    ensures k == hi.Floor ==> Overlap(lo, hi, k) == hi - k as real
    ensures lo.Floor < k < hi.Floor ==> Overlap(lo, hi, k) == 1.0
    ensures k > hi.Floor ==> Overlap(lo, hi, k) == 0.0
  {
  }

  /** What the multi-bin case adds to the total: with the start bin credited
      for the part of it the range covers the three shares add up to `val`;
      as written, a start on a bin boundary is credited nothing and one bin
      unit of weight is missing. */
  lemma SpreadAmounts(lo: real, hi: real, val: real)
    requires lo.Floor < hi.Floor
    ensures lo < hi
    ensures FirstShare(lo, hi, val) + LastShare(lo, hi, val) + MiddleShare(lo, hi, val) == val
    ensures lo != lo.Floor as real ==> FirstShareAsWritten(lo, hi, val) == FirstShare(lo, hi, val)
    ensures lo == lo.Floor as real ==>
      FirstShareAsWritten(lo, hi, val) + LastShare(lo, hi, val) + MiddleShare(lo, hi, val) == val - UnitWeight(lo, hi, val)
    ensures val >= 0.0 ==>
      UnitWeight(lo, hi, val) >= 0.0 && FirstShare(lo, hi, val) >= 0.0 && LastShare(lo, hi, val) >= 0.0
    ensures val != 0.0 ==> UnitWeight(lo, hi, val) != 0.0
  {
    assert lo < hi;
    var weight := UnitWeight(lo, hi, val);
    assert hi - lo > 0.0;
    assert weight * (hi - lo) == val;
    var a := (lo.Floor + 1) as real - lo;
    var b := hi - hi.Floor as real;
    var c := (hi.Floor - lo.Floor - 1) as real;
    assert a + b + c == hi - lo;
    assert weight * a + weight * b + c * weight == weight * (a + b + c);
    if lo == lo.Floor as real {
      assert Ceil(lo) as real - lo == 0.0;
      assert a == 1.0;
    } else {
      assert Ceil(lo) as real - lo == a;
    }
    if val >= 0.0 {
      assert weight >= 0.0;
      MulNonNegative(weight, a);
      MulNonNegative(weight, b);
    }
  }

  /** addRange as written on an ordered range in bin units: a range that
      starts exactly on a bin boundary and ends in a later bin loses
      `val / (hi - lo)`, one bin unit of weight; otherwise all of `val` is
      added. Nothing is ever added beyond `val`, and no bin goes negative. */
  function AddScaledRangeAsWritten(w: Weights, lo: real, hi: real, val: real): (r: Weights)
    requires lo <= hi
    ensures Balanced(w) ==> Balanced(r)
    ensures r.total == w.total + val <==> (lo.Floor == hi.Floor || lo != lo.Floor as real || val == 0.0)
    ensures lo.Floor < hi.Floor && lo == lo.Floor as real ==> r.total == w.total + val - val / (hi - lo)
    ensures val >= 0.0 ==> r.total <= w.total + val
    ensures NonNegative(w.bins) && val >= 0.0 ==> NonNegative(r.bins)
    ensures lo.Floor == hi.Floor ==> r == Add(w, lo.Floor, val)
    ensures lo.Floor < hi.Floor < lo.Floor + BinCount ==> forall b :: 0 <= b < BinCount ==>
      r.bins[b] == w.bins[b] + if b == BinIndex(lo.Floor) then FirstShareAsWritten(lo, hi, val) else OverlapShare(lo, hi, val, b)
  {
    if lo.Floor == hi.Floor then Add(w, lo.Floor, val)
    else
      AsWrittenShares(lo, hi, val);
      SpreadRange(w, lo, hi, val, FirstShareAsWritten(lo, hi, val))
  }

  /** The multi-bin case of addRange on [lo, hi) in bin units, with `first`
      for the start bin: the end bin and the bins between get their shares
      of `val` in proportion to how much of each the range covers. */
  function SpreadRange(w: Weights, lo: real, hi: real, val: real, first: real): (r: Weights)
    requires lo.Floor < hi.Floor
    ensures lo < hi
    ensures r.total == w.total + first + LastShare(lo, hi, val) + MiddleShare(lo, hi, val)
    ensures Balanced(w) ==> Balanced(r)
    ensures NonNegative(w.bins) && val >= 0.0 && first >= 0.0 ==> NonNegative(r.bins)
    ensures hi.Floor < lo.Floor + BinCount ==> forall b :: 0 <= b < BinCount ==>
      r.bins[b] == w.bins[b] + if b == BinIndex(lo.Floor) then first else OverlapShare(lo, hi, val, b)
  {
    SharesNonNegative(lo, hi, val);
    BinGainIsOverlap(lo, hi, val, first);
    Spread(w, lo.Floor, hi.Floor, UnitWeight(lo, hi, val), first, LastShare(lo, hi, val))
  }

  lemma SharesNonNegative(lo: real, hi: real, val: real)
    requires lo.Floor < hi.Floor
    ensures lo < hi
    ensures val >= 0.0 ==> UnitWeight(lo, hi, val) >= 0.0 && LastShare(lo, hi, val) >= 0.0
  {
    SpreadAmounts(lo, hi, val);
  }

  /** The shares as written add up to `val` exactly when the start is off a
      bin boundary or there is nothing to spread. */
  lemma AsWrittenShares(lo: real, hi: real, val: real)
    requires lo.Floor < hi.Floor
    ensures lo < hi
    ensures FirstShareAsWritten(lo, hi, val) + LastShare(lo, hi, val) + MiddleShare(lo, hi, val) == val
      <==> (lo != lo.Floor as real || val == 0.0)
    ensures lo == lo.Floor as real ==>
      FirstShareAsWritten(lo, hi, val) + LastShare(lo, hi, val) + MiddleShare(lo, hi, val) == val - val / (hi - lo)
    ensures val >= 0.0 ==>
      FirstShareAsWritten(lo, hi, val) + LastShare(lo, hi, val) + MiddleShare(lo, hi, val) <= val
    ensures val >= 0.0 ==>
      UnitWeight(lo, hi, val) >= 0.0 && FirstShareAsWritten(lo, hi, val) >= 0.0 && LastShare(lo, hi, val) >= 0.0
  {
    SpreadAmounts(lo, hi, val);
    if val >= 0.0 {
      MulNonNegative(UnitWeight(lo, hi, val), Ceil(lo) as real - lo);
    }
  }

  /** addRange as written on an ordered range: the start bin is credited
      `ceil(lo) - lo` units of weight, which is 0 when the scaled start lies
      exactly on a bin boundary. */
  function AddOrderedRangeAsWritten(w: Weights, p: (real, real), val: real): (r: Weights)
    requires p.0 <= p.1
    ensures Balanced(w) ==> Balanced(r)
    ensures var (lo, hi) := Scaled(p);
      r.total == w.total + val <==> (lo.Floor == hi.Floor || lo != lo.Floor as real || val == 0.0)
    ensures var (lo, hi) := Scaled(p);
      lo.Floor < hi.Floor && lo == lo.Floor as real ==> r.total == w.total + val - val / (hi - lo)
    ensures val >= 0.0 ==> r.total <= w.total + val
    ensures NonNegative(w.bins) && val >= 0.0 ==> NonNegative(r.bins)
    ensures var (lo, hi) := Scaled(p);
      lo.Floor < hi.Floor < lo.Floor + BinCount ==> forall b :: 0 <= b < BinCount ==>
        r.bins[b] == w.bins[b] + if b == BinIndex(lo.Floor) then FirstShareAsWritten(lo, hi, val) else OverlapShare(lo, hi, val, b)
  {
    var (lo, hi) := Scaled(p);
    AddScaledRangeAsWritten(w, lo, hi, val)
  }

  /** Whether addRange as written credits all of `val`: the range lies in
      one bin, starts off a bin boundary, or carries nothing. */
  predicate LosesNothing(start: real, end: real, val: real) {
    var (lo, hi) := Scaled(Ordered(start, end));
    lo.Floor == hi.Floor || lo != lo.Floor as real || val == 0.0
  }

  lemma LosesNothingIgnoresOrder(start: real, end: real, val: real)
    ensures LosesNothing(start, end, val) == LosesNothing(end, start, val)
  {
    OrderedIsSymmetric(start, end);
  }

  /** addRange as written: as `AddScaledRangeAsWritten` on the ordered
      range scaled to bin units. */
  function AddRangeAsWritten(w: Weights, start: real, end: real, val: real): (r: Weights)
    ensures Balanced(w) ==> Balanced(r)
    ensures r.total == w.total + val <==> LosesNothing(start, end, val)
    ensures var (lo, hi) := Scaled(Ordered(start, end));
      lo.Floor < hi.Floor && lo == lo.Floor as real ==> r.total == w.total + val - val / (hi - lo)
    ensures val >= 0.0 ==> r.total <= w.total + val
    ensures NonNegative(w.bins) && val >= 0.0 ==> NonNegative(r.bins)
    ensures var (lo, hi) := Scaled(Ordered(start, end));
      lo.Floor < hi.Floor < lo.Floor + BinCount ==> forall b :: 0 <= b < BinCount ==>
        r.bins[b] == w.bins[b] + if b == BinIndex(lo.Floor) then FirstShareAsWritten(lo, hi, val) else OverlapShare(lo, hi, val, b)
  {
    AddOrderedRangeAsWritten(w, Ordered(start, end), val)
  }

  /** addRange on an ordered range in bin units, with the start bin
      credited for the part of it the range covers. */
  function AddScaledRange(w: Weights, lo: real, hi: real, val: real): (r: Weights)
    requires lo <= hi
    ensures r.total == w.total + val
    ensures Balanced(w) ==> Balanced(r)
    ensures NonNegative(w.bins) && val >= 0.0 ==> NonNegative(r.bins)
    ensures lo.Floor == hi.Floor ==> r == Add(w, lo.Floor, val)
    ensures lo.Floor < hi.Floor < lo.Floor + BinCount ==> forall b :: 0 <= b < BinCount ==>
      r.bins[b] == w.bins[b] + OverlapShare(lo, hi, val, b)
  {
    if lo.Floor == hi.Floor then Add(w, lo.Floor, val)
    else
      SpreadAmounts(lo, hi, val);
      BinGainIsOverlap(lo, hi, val, FirstShare(lo, hi, val));
      SpreadRange(w, lo, hi, val, FirstShare(lo, hi, val))
  }

  function AddOrderedRange(w: Weights, p: (real, real), val: real): (r: Weights)
    requires p.0 <= p.1
    ensures r.total == w.total + val
    ensures Balanced(w) ==> Balanced(r)
    ensures NonNegative(w.bins) && val >= 0.0 ==> NonNegative(r.bins)
    ensures var (lo, hi) := Scaled(p);
      lo.Floor == hi.Floor ==> r == Add(w, lo.Floor, val)
    ensures var (lo, hi) := Scaled(p);
      lo.Floor < hi.Floor < lo.Floor + BinCount ==> forall b :: 0 <= b < BinCount ==>
        r.bins[b] == w.bins[b] + OverlapShare(lo, hi, val, b)
  {
    var (lo, hi) := Scaled(p);
    AddScaledRange(w, lo, hi, val)
  }

  /** addRange puts `val` exactly once into the table: the whole of it in
      one bin when both scaled ends share a bin, otherwise spread over the
      covered bins in proportion to how much of each bin the range covers. */
  function AddRange(w: Weights, start: real, end: real, val: real): (r: Weights)
    ensures r.total == w.total + val
    ensures Balanced(w) ==> Balanced(r)
    ensures NonNegative(w.bins) && val >= 0.0 ==> NonNegative(r.bins)
    ensures var (lo, hi) := Scaled(Ordered(start, end));
      lo.Floor == hi.Floor ==> r == Add(w, lo.Floor, val)
    ensures var (lo, hi) := Scaled(Ordered(start, end));
      lo.Floor < hi.Floor < lo.Floor + BinCount ==> forall b :: 0 <= b < BinCount ==>
        r.bins[b] == w.bins[b] + OverlapShare(lo, hi, val, b)
  {
    AddOrderedRange(w, Ordered(start, end), val)
  }

  /** The order of the two ends does not matter, as written or corrected. */
  lemma AddRangeIgnoresOrder(w: Weights, start: real, end: real, val: real)
    ensures AddRange(w, start, end, val) == AddRange(w, end, start, val)
    ensures AddRangeAsWritten(w, start, end, val) == AddRangeAsWritten(w, end, start, val)
  {
    OrderedIsSymmetric(start, end);
  }

  /** A range starting on a bin boundary loses mass as written: spreading 1
      over [0, 0.05) of a lap (bins 0 to 1.8) credits bin 0 with nothing,
      though the range covers all of it, and raises the total by 0.8/1.8. */
  lemma BoundaryStartLosesMass(w: Weights)
    ensures AddRangeAsWritten(w, 0.0, 0.05, 1.0).total == w.total + 0.8 / 1.8
    ensures AddRangeAsWritten(w, 0.0, 0.05, 1.0).bins[0] == w.bins[0]
  {
    assert Ordered(0.0, 0.05) == (0.0, 0.05);
    assert Scaled((0.0, 0.05)) == (0.0, 1.8);
    assert AddRangeAsWritten(w, 0.0, 0.05, 1.0) == AddScaledRangeAsWritten(w, 0.0, 1.8, 1.0);
    ScaledBoundaryAsWritten(w);
  }

  /** The corrected form on the same range credits bin 0 with the 1/1.8 it
      covers and raises the total by all of 1. */
  lemma BoundaryStartKeepsMass(w: Weights)
    ensures AddRange(w, 0.0, 0.05, 1.0).total == w.total + 1.0
    ensures AddRange(w, 0.0, 0.05, 1.0).bins[0] == w.bins[0] + 1.0 / 1.8
  {
    assert Ordered(0.0, 0.05) == (0.0, 0.05);
    assert Scaled((0.0, 0.05)) == (0.0, 1.8);
    assert AddRange(w, 0.0, 0.05, 1.0) == AddScaledRange(w, 0.0, 1.8, 1.0);
    ScaledBoundaryCorrected(w);
  }

  /** `BoundaryStartLosesMass` in bin units. */
  lemma ScaledBoundaryAsWritten(w: Weights)
    ensures AddScaledRangeAsWritten(w, 0.0, 1.8, 1.0).total == w.total + 0.8 / 1.8
    ensures AddScaledRangeAsWritten(w, 0.0, 1.8, 1.0).bins[0] == w.bins[0]
  {
    assert 0.0.Floor == 0 && 1.8.Floor == 1;
    assert 1.0 - 1.0 / (1.8 - 0.0) == 0.8 / 1.8;
    assert FirstShareAsWritten(0.0, 1.8, 1.0) == 0.0 by {
      assert Ceil(0.0) == 0;
    }
    assert BinIndex(0) == 0;
  }

  /** `BoundaryStartKeepsMass` in bin units. */
  lemma ScaledBoundaryCorrected(w: Weights)
    ensures AddScaledRange(w, 0.0, 1.8, 1.0).total == w.total + 1.0
    ensures AddScaledRange(w, 0.0, 1.8, 1.0).bins[0] == w.bins[0] + 1.0 / 1.8
  {
    assert 0.0.Floor == 0 && 1.8.Floor == 1;
    assert Offset(0, 0) == 0;
    assert OverlapShare(0.0, 1.8, 1.0, 0) == 1.0 / 1.8 by {
      assert Overlap(0.0, 1.8, 0) == 1.0;
    }
  }

  /** On less than a lap of bins, the two versions of addRange fill every
      bin alike but the start bin, which as written misses one bin unit of
      weight exactly when the scaled start lies on a bin boundary. */
  lemma RangeVersionsDifferAtStartBin(w: Weights, lo: real, hi: real, val: real)
    requires lo.Floor < hi.Floor < lo.Floor + BinCount
    ensures lo < hi
    ensures forall b :: 0 <= b < BinCount && b != BinIndex(lo.Floor) ==>
      AddScaledRangeAsWritten(w, lo, hi, val).bins[b] == AddScaledRange(w, lo, hi, val).bins[b]
    ensures AddScaledRangeAsWritten(w, lo, hi, val).bins[BinIndex(lo.Floor)]
      == AddScaledRange(w, lo, hi, val).bins[BinIndex(lo.Floor)] - (if lo == lo.Floor as real then UnitWeight(lo, hi, val) else 0.0)
  {
    BinGainIsOverlap(lo, hi, val, FirstShare(lo, hi, val));
    SpreadAmounts(lo, hi, val);
    if lo == lo.Floor as real {
      assert Ceil(lo) == lo.Floor;
      assert FirstShare(lo, hi, val) == UnitWeight(lo, hi, val);
    }
  }

  /** A range covering two half bins splits its mass 50/50. */
  lemma HalfBinsSplitEvenly()
    ensures AddRange(Fill(0.0), 0.5 / 36.0, 1.5 / 36.0, 1.0).bins[0] == 0.5
    ensures AddRange(Fill(0.0), 0.5 / 36.0, 1.5 / 36.0, 1.0).bins[1] == 0.5
  {
    assert Scaled(Ordered(0.5 / 36.0, 1.5 / 36.0)) == (0.5, 1.5);
    assert 0.5.Floor == 0 && 1.5.Floor == 1;
    assert UnitWeight(0.5, 1.5, 1.0) == 1.0;
    assert FirstShare(0.5, 1.5, 1.0) == 0.5;
    assert LastShare(0.5, 1.5, 1.0) == 0.5;
  }

  // ---------------------------------------------------------------------------
  // Collecting laps

  /** The direction of travel; the header's enum values are -1, 0 and 1. */
  datatype Direction = Down | Stopped | Up

  function Step(d: Direction): int {
    match d
    case Down => -1
    case Stopped => 0
    case Up => 1
  }

  /** The direction of the move from `prevPos` to `laps`; comparisons with the
      NaN start position are false, so there is no direction then. */
  function DirectionOf(laps: real, prevPos: Option<real>): (d: Direction)
    ensures prevPos.None? ==> d == Stopped
    ensures prevPos.Some? ==> (d == Up <==> laps > prevPos.value) && (d == Down <==> laps < prevPos.value)
  {
    match prevPos
    case None => Stopped
    case Some(p) => if laps - p < 0.0 then Down else if laps - p > 0.0 then Up else Stopped
  }

  datatype CalibrationState = CalibrationState(
    weights: Weights,
    partial: Weights,
    lapDirection: Direction,
    prevPos: Option<real>,
    finishLine: real,
    weightUpdateCount: int,
    nextBin: int,
    foundLap: bool)

  /** The start-up state: a uniform table of 1/36 per bin, an empty partial
      lap, no direction, the NaN start position and a zero finish line. */
  function Initial(): (s: CalibrationState)
    ensures Inv(s)
  {
    var w := Fill(1.0 / BinCount as real);
    CalibrationState(w, Fill(0.0), Stopped, None, 0.0, 0, 0, false)
  }

  /** What holds between calls: both histograms are balanced and
      non-negative, the weight table sums to 1, a pending lap has no
      direction, and while a direction is set the tracked position lies
      within one lap short of the finish line. */
  predicate Inv(s: CalibrationState) {
    && Balanced(s.partial) && NonNegative(s.partial.bins)
    && Balanced(s.weights) && s.weights.total == 1.0 && NonNegative(s.weights.bins)
    && (s.foundLap ==> s.lapDirection == Stopped)
    && (s.lapDirection != Stopped ==> s.prevPos.Some?)
    && (s.lapDirection == Up ==> s.finishLine - 1.0 <= s.prevPos.value < s.finishLine)
    && (s.lapDirection == Down ==> s.finishLine < s.prevPos.value <= s.finishLine + 1.0)
    && 0 <= s.nextBin < BinCount
    && 0 <= s.weightUpdateCount
  }

  /** Whether a completed lap collected a plausible amount of mass. */
  predicate Acceptable(partial: Weights) {
    MinSamples <= partial.total <= MaxSamples
  }

  /** Which histogram operations the lap collector runs: those of the header
      as written, or the corrected `AddRange` and `Update` of this model. */
  datatype Version = AsWritten | Corrected

  /** The addRange the collector of version `v` calls. */
  function AddPiece(v: Version, w: Weights, start: real, end: real, val: real): (r: Weights)
    ensures Balanced(w) ==> Balanced(r)
    ensures NonNegative(w.bins) && val >= 0.0 ==> NonNegative(r.bins)
    ensures val >= 0.0 ==> r.total <= w.total + val
    ensures r.total == w.total + val <==> v == Corrected || LosesNothing(start, end, val)
  {
    match v
    case AsWritten => AddRangeAsWritten(w, start, end, val)
    case Corrected =>
      var r := AddRange(w, start, end, val);
      assert r.total == w.total + val;
      r
  }

  lemma AddPieceIgnoresOrder(v: Version, w: Weights, start: real, end: real, val: real)
    ensures AddPiece(v, w, start, end, val) == AddPiece(v, w, end, start, val)
  {
    AddRangeIgnoresOrder(w, start, end, val);
  }

  /** The collector of each version spreads a piece with that version's
      addRange, whose contracts say what each bin gains. */
  lemma AddPieceIsAddRange(v: Version, w: Weights, start: real, end: real, val: real)
    ensures v == AsWritten ==> AddPiece(v, w, start, end, val) == AddRangeAsWritten(w, start, end, val)
    ensures v == Corrected ==> AddPiece(v, w, start, end, val) == AddRange(w, start, end, val)
  {
  }

  /** The update the collector of version `v` calls. */
  function UpdateIn(v: Version, w: Weights, next: Weights, nextWeight: real): (r: Weights)
    requires next.total != 0.0
    ensures r.bins == UpdateAsWritten(w, next, nextWeight).bins
  {
    if v == AsWritten then UpdateAsWritten(w, next, nextWeight) else Update(w, next, nextWeight)
  }

  /** On a table whose total is 1, as the weight table's always is, the
      update as written and the corrected one agree. */
  lemma UpdatesAgreeOnUnitTotal(w: Weights, next: Weights, nextWeight: real)
    requires next.total != 0.0 && w.total == 1.0
    ensures UpdateAsWritten(w, next, nextWeight) == Update(w, next, nextWeight)
  {
  }

  /** Commits a pending lap, blending it in when its mass is plausible. */
  function CommitLap(v: Version, s: CalibrationState): (r: CalibrationState)
    requires s.foundLap
    ensures !r.foundLap
    ensures r == s.(foundLap := false) || Acceptable(s.partial)
    ensures Acceptable(s.partial) <==> r.weightUpdateCount == s.weightUpdateCount + 1
    ensures !Acceptable(s.partial) ==> r == s.(foundLap := false)
    ensures Acceptable(s.partial) ==>
      r == s.(weights := r.weights, weightUpdateCount := s.weightUpdateCount + 1, foundLap := false)
      && r.weights.bins == UpdateAsWritten(s.weights, s.partial, LearningRate).bins
    ensures Inv(s) ==> Inv(r)
  {
    if Acceptable(s.partial) then
      var weights := UpdateIn(v, s.weights, s.partial, LearningRate);
      assert Inv(s) ==> Balanced(weights) && weights.total == 1.0 && NonNegative(weights.bins) by {
        if Inv(s) {
          UpdatesAgreeOnUnitTotal(s.weights, s.partial, LearningRate);
          UpdateKeepsNonNegative(s.weights, s.partial, LearningRate);
        }
      }
      s.(weights := weights, weightUpdateCount := s.weightUpdateCount + 1, foundLap := false)
    else
      s.(foundLap := false)
  }

  /** Under the invariant both versions commit a lap alike. */
  lemma CommitVersionsAgree(s: CalibrationState)
    requires s.foundLap && Inv(s)
    ensures CommitLap(AsWritten, s) == CommitLap(Corrected, s)
  {
    if Acceptable(s.partial) {
      UpdatesAgreeOnUnitTotal(s.weights, s.partial, LearningRate);
    }
  }

  /** The call follows a lap in progress: no pending lap, a direction set,
      and the move goes the same way. */
  predicate Collecting(s: CalibrationState, laps: real) {
    !s.foundLap && s.lapDirection != Stopped && DirectionOf(laps, s.prevPos) == s.lapDirection
  }

  /** The position has reached or passed the finish line. */
  predicate Reached(s: CalibrationState, laps: real) {
    if s.lapDirection == Up then laps >= s.finishLine else laps <= s.finishLine
  }

  /** updateWeights: one new position fed to the lap collector of version
      `v`. A pending lap is committed first; a change of direction starts a
      new lap one lap away; reaching the finish line credits the last piece
      and leaves the lap pending; otherwise the move is credited with one
      unit. As written, a piece starting on a bin boundary is credited less
      than that, and never more. */
  function UpdateWeights(v: Version, s: CalibrationState, laps: real): (r: CalibrationState)
    ensures Inv(s) ==> Inv(r)
    ensures r.nextBin == s.nextBin
    ensures s.foundLap ==> r == CommitLap(v, s)
    ensures !s.foundLap ==> r.weights == s.weights && r.weightUpdateCount == s.weightUpdateCount
    ensures !s.foundLap && !Collecting(s, laps) ==>
      && r.lapDirection == DirectionOf(laps, s.prevPos)
      && r.partial == Fill(0.0)
      && r.prevPos == Some(laps)
      && r.finishLine == laps + Step(r.lapDirection) as real
      && !r.foundLap
    ensures Collecting(s, laps) && Reached(s, laps) ==>
      var p := s.prevPos.value;
      var piece := Remaining(s.lapDirection, s.finishLine, p);
      && r.finishLine == s.finishLine
      && r.foundLap && r.lapDirection == Stopped && r.prevPos == s.prevPos
      && r.partial == AddPiece(v, s.partial, p, s.finishLine, piece)
      && (r.partial.total == s.partial.total + piece <==> v == Corrected || LosesNothing(p, s.finishLine, piece))
      && (Inv(s) ==> r.partial.total <= s.partial.total + piece)
    ensures Collecting(s, laps) && !Reached(s, laps) ==>
      var p := s.prevPos.value;
      && r.finishLine == s.finishLine
      && !r.foundLap && r.lapDirection == s.lapDirection && r.prevPos == Some(laps)
      && r.partial == AddPiece(v, s.partial, p, laps, 1.0)
      && (r.partial.total == s.partial.total + 1.0 <==> v == Corrected || LosesNothing(p, laps, 1.0))
      && r.partial.total <= s.partial.total + 1.0
  {
    if s.foundLap then CommitLap(v, s)
    else
      var dir := DirectionOf(laps, s.prevPos);
      if s.lapDirection == Stopped || dir != s.lapDirection then
        s.(lapDirection := dir, partial := Fill(0.0), prevPos := Some(laps),
           finishLine := laps + Step(dir) as real)
      else if Reached(s, laps) then FinishLap(v, s)
      else
        s.(partial := AddPiece(v, s.partial, s.prevPos.value, laps, 1.0), prevPos := Some(laps))
  }

  /** The finish line is reached: the piece from the tracked position to the
      finish line is credited, whichever way the lap runs, and the lap is
      left pending with no direction. */
  function FinishLap(v: Version, s: CalibrationState): (r: CalibrationState)
    requires s.lapDirection != Stopped && s.prevPos.Some?
    ensures r == s.(partial := r.partial, foundLap := true, lapDirection := Stopped)
    ensures r.partial == AddPiece(v, s.partial, s.prevPos.value, s.finishLine,
      Remaining(s.lapDirection, s.finishLine, s.prevPos.value))
  {
    var p := s.prevPos.value;
    var piece := Remaining(s.lapDirection, s.finishLine, p);
    if s.lapDirection == Up then
      s.(partial := AddPiece(v, s.partial, p, s.finishLine, piece),
         foundLap := true, lapDirection := Stopped)
    else
      AddPieceIgnoresOrder(v, s.partial, s.finishLine, p, piece);
      s.(partial := AddPiece(v, s.partial, s.finishLine, p, piece),
         foundLap := true, lapDirection := Stopped)
  }

  /** The part of a lap still to go from `p` to the finish line. */
  function Remaining(d: Direction, finishLine: real, p: real): real {
    if d == Up then finishLine - p else p - finishLine
  }

  /** While collecting, the last piece of a lap is more than 0 and at most 1. */
  lemma RemainingWithinOneLap(s: CalibrationState)
    requires Inv(s) && s.lapDirection != Stopped
    ensures 0.0 < Remaining(s.lapDirection, s.finishLine, s.prevPos.value) <= 1.0
  {
  }

  /** A pending lap makes the next call ignore its position. */
  lemma PendingLapIgnoresPosition(v: Version, s: CalibrationState, a: real, b: real)
    requires s.foundLap
    ensures UpdateWeights(v, s, a) == UpdateWeights(v, s, b)
    ensures !UpdateWeights(v, s, a).foundLap
  {
  }

  /** From any state the invariant admits, one call of either version leaves
      the same state except for the partial lap, which as written holds no
      more mass than corrected, and the same mass unless the piece credited
      starts on a bin boundary. */
  lemma VersionsDifferOnlyInPartial(s: CalibrationState, laps: real)
    requires Inv(s)
    ensures var a := UpdateWeights(AsWritten, s, laps);
      var c := UpdateWeights(Corrected, s, laps);
      && a.(partial := c.partial) == c
      && a.partial.total <= c.partial.total
      && (!Collecting(s, laps) ==> a == c)
  {
    if s.foundLap {
      CommitVersionsAgree(s);
    } else if Collecting(s, laps) && Reached(s, laps) {
      RemainingWithinOneLap(s);
    }
  }

  /** The lap collector as written misses mass on a reachable input: from
      start-up, positions -1, 0 and then 0.05 of a lap start a lap upwards
      at 0, and the move to 0.05 starts exactly on the boundary of bin 0, so
      the partial lap gains 0.8/1.8 where the corrected collector gains 1. */
  lemma BoundaryStartDiverges()
    ensures var s := UpdateWeights(AsWritten, UpdateWeights(AsWritten, Initial(), -1.0), 0.0);
      && s == UpdateWeights(Corrected, UpdateWeights(Corrected, Initial(), -1.0), 0.0)
      && s.lapDirection == Up && s.prevPos == Some(0.0) && s.finishLine == 1.0 && s.partial == Fill(0.0)
      && UpdateWeights(AsWritten, s, 0.05).partial.total == 0.8 / 1.8
      && UpdateWeights(Corrected, s, 0.05).partial.total == 1.0
  {
    var s1 := UpdateWeights(AsWritten, Initial(), -1.0);
    assert s1 == UpdateWeights(Corrected, Initial(), -1.0);
    assert s1.lapDirection == Stopped;
    var s := UpdateWeights(AsWritten, s1, 0.0);
    assert s == UpdateWeights(Corrected, s1, 0.0);
    BoundaryMove(AsWritten, s);
    BoundaryMove(Corrected, s);
  }

  /** On a fresh upward lap at 0, the move to 0.05 credits the piece
      [0, 0.05) with each version's addRange: 0.8/1.8 as written, 1 when
      corrected. */
  lemma BoundaryMove(v: Version, s: CalibrationState)
    requires !s.foundLap && s.lapDirection == Up && s.prevPos == Some(0.0) && s.finishLine == 1.0
    requires s.partial == Fill(0.0)
    ensures UpdateWeights(v, s, 0.05).partial.total == if v == AsWritten then 0.8 / 1.8 else 1.0
  {
    assert Collecting(s, 0.05) && !Reached(s, 0.05);
    var w := Fill(0.0);
    assert w.total == 0.0;
    AddPieceIsAddRange(v, w, 0.0, 0.05, 1.0);
    if v == AsWritten {
      BoundaryStartLosesMass(w);
    } else {
      BoundaryStartKeepsMass(w);
    }
  }

  /** The diagnostics calculateWeights reports. */
  datatype WeightMetrics = WeightMetrics(updateCount: int, bin: int, binValue: real)

  /** calculateWeights: feed the position, then report the update count and
      one bin of the table, visiting the bins round-robin. */
  function CalculateWeights(v: Version, s: CalibrationState, laps: real): (r: (CalibrationState, WeightMetrics))
    ensures r.0 == UpdateWeights(v, s, laps).(nextBin := r.0.nextBin)
    ensures Inv(s) ==> Inv(r.0)
    ensures r.1.bin == s.nextBin
    ensures Inv(s) ==> r.0.nextBin == (s.nextBin + 1) % BinCount
    ensures r.1.updateCount == r.0.weightUpdateCount
    ensures r.1.binValue == Get(r.0.weights, s.nextBin)
    ensures Inv(s) ==> 0.0 <= r.1.binValue <= 1.0
    ensures r.0.weightUpdateCount == s.weightUpdateCount || r.0.weightUpdateCount == s.weightUpdateCount + 1
  {
    var u := UpdateWeights(v, s, laps);
    var m := WeightMetrics(u.weightUpdateCount, u.nextBin, Get(u.weights, u.nextBin));
    var next := Mod(u.nextBin + 1, BinCount);
    assert Inv(s) ==> 0.0 <= m.binValue <= 1.0 && next == (s.nextBin + 1) % BinCount by {
      if Inv(s) {
        GetWithinUnit(u.weights, u.nextBin);
      }
    }
    (u.(nextBin := next), m)
  }

  /** Under the invariant both versions report the same metrics; only the
      partial lap they carry on may differ. */
  lemma MetricsAgree(s: CalibrationState, laps: real)
    requires Inv(s)
    ensures CalculateWeights(AsWritten, s, laps).1 == CalculateWeights(Corrected, s, laps).1
  {
    VersionsDifferOnlyInPartial(s, laps);
  }

  /** A bin of a non-negative table summing to 1 lies in [0, 1]. */
  lemma GetWithinUnit(w: Weights, i: int)
    requires Balanced(w) && w.total == 1.0 && NonNegative(w.bins)
    ensures 0.0 <= Get(w, i) <= 1.0
  {
    ElementAtMostSum(w.bins, BinIndex(i));
  }
}
