/** The moving-average filter (`MovingAverageFilter<SIZE>` in src/filters.h
    and include/filters.h): a ring of the last SIZE inputs with a running
    sum, whose output is the sum divided by SIZE. `float` is modelled as
    `real`, so rounding in the running sum is not modelled. */
module Filters {

  function Sum(s: seq<real>): real {
    if s == [] then 0.0 else Sum(s[..|s| - 1]) + s[|s| - 1]
  }

  /** The sum can equally be taken from the front. */
  lemma {:induction false} SumFront(s: seq<real>)
    requires |s| > 0
    ensures Sum(s) == s[0] + Sum(s[1..])
  {
    if |s| > 1 {
      SumFront(s[..|s| - 1]);
      assert s[..|s| - 1][1..] == s[1..][..|s| - 2];
    }
  }

  /** Replacing one element changes the sum by the difference. */
  lemma {:induction false} SumUpdate(s: seq<real>, i: int, v: real)
    requires 0 <= i < |s|
    ensures Sum(s[i := v]) == Sum(s) - s[i] + v
  {
    var t := s[i := v];
    if i < |s| - 1 {
      SumUpdate(s[..|s| - 1], i, v);
      assert t[..|t| - 1] == s[..|s| - 1][i := v];
    } else {
      assert t[..|t| - 1] == s[..|s| - 1];
    }
  }

  function Zeros(n: nat): (z: seq<real>)
    ensures |z| == n && forall i :: 0 <= i < n ==> z[i] == 0.0
  {
    seq(n, _ => 0.0)
  }

  lemma {:induction false} SumZeros(n: nat)
    ensures Sum(Zeros(n)) == 0.0
  {
    if n > 0 {
      SumZeros(n - 1);
      assert Zeros(n)[..n - 1] == Zeros(n - 1);
    }
  }

  /** The queue, the slot the next input overwrites, and the running sum. */
  datatype MovingAverage = MovingAverage(queue: seq<real>, next: int, sum: real)

  /** The slot index stays inside a non-empty queue. */
  predicate InRange(f: MovingAverage) {
    |f.queue| > 0 && 0 <= f.next < |f.queue|
  }

  /** The filter's invariant: the running sum is the sum of the queue. */
  predicate Valid(f: MovingAverage) {
    InRange(f) && f.sum == Sum(f.queue)
  }

  /** `reset` (and the constructor): every slot 0, the first slot next, sum 0. */
  function Reset(size: nat): (f: MovingAverage)
    requires size > 0
    ensures Valid(f) && |f.queue| == size && f.next == 0 && f.sum == 0.0
    ensures forall i :: 0 <= i < size ==> f.queue[i] == 0.0
  {
    SumZeros(size);
    MovingAverage(Zeros(size), 0, 0.0)
  }

  /** `update(v)`: adds `v`, subtracts the input it overwrites, stores it in
      the next slot, advances the slot cyclically, and returns the mean of
      the queue. */
  function Update(f: MovingAverage, v: real): (r: (MovingAverage, real))
    requires InRange(f)
    ensures InRange(r.0) && |r.0.queue| == |f.queue|
    ensures r.0.queue == f.queue[f.next := v]
    ensures r.0.next == (f.next + 1) % |f.queue|
    ensures Valid(f) ==> Valid(r.0) && r.1 == Sum(r.0.queue) / (|f.queue| as real)
  {
    var sum := f.sum + v - f.queue[f.next];
    var next := if f.next + 1 >= |f.queue| then 0 else f.next + 1;
    SumUpdate(f.queue, f.next, v);
    (MovingAverage(f.queue[f.next := v], next, sum), sum / (|f.queue| as real))
  }

  /** The filter after a run of inputs, oldest first. */
  function Run(f: MovingAverage, xs: seq<real>): (r: MovingAverage)
    requires InRange(f)
    ensures InRange(r) && |r.queue| == |f.queue|
  {
    if xs == [] then f else Update(Run(f, xs[..|xs| - 1]), xs[|xs| - 1]).0
  }

  /** The last `size` inputs, oldest first, with zeros in front while fewer
      have arrived. */
  function Window(xs: seq<real>, size: nat): (w: seq<real>)
    ensures |w| == size
  {
    if |xs| >= size then xs[|xs| - size..] else Zeros(size - |xs|) + xs
  }

  /** One more input shifts the window by one. */
  lemma WindowShift(xs: seq<real>, x: real, size: nat)
    requires size > 0
    ensures Window(xs + [x], size) == Window(xs, size)[1..] + [x]
  {
    var ys := xs + [x];
    if |xs| >= size {
      assert ys[|ys| - size..] == xs[|xs| - size..][1..] + [x];
    } else if |xs| + 1 == size {
      assert Window(ys, size) == ys;
      assert Window(xs, size)[1..] == xs;
    } else {
      assert Window(xs, size)[1..] == Zeros(size - |xs| - 1) + xs;
    }
  }

  /** Slot `i` positions after `p` in a ring of `n`. */
  function Slot(p: int, i: int, n: int): int {
    if p + i < n then p + i else p + i - n
  }

  /** The queue read from the next slot round is the window `w`. */
  ghost predicate Holds(f: MovingAverage, w: seq<real>) {
    InRange(f) && |w| == |f.queue|
    && forall i :: 0 <= i < |w| ==> 0 <= Slot(f.next, i, |w|) < |w| && f.queue[Slot(f.next, i, |w|)] == w[i]
  }

  /** One update moves the window on: the queue read from the new next slot
      is the old window without its oldest input, followed by the new one. */
  lemma UpdateShiftsWindow(f: MovingAverage, w: seq<real>, x: real)
    requires Holds(f, w) && f.sum == Sum(w)
    ensures Holds(Update(f, x).0, w[1..] + [x])
    ensures Update(f, x).0.sum == Sum(w[1..] + [x])
  {
    var n := |w|;
    var g := Update(f, x).0;
    var w' := w[1..] + [x];
    forall i | 0 <= i < n
      ensures 0 <= Slot(g.next, i, n) < n && g.queue[Slot(g.next, i, n)] == w'[i]
    {
      if i < n - 1 {
        assert Slot(g.next, i, n) == Slot(f.next, i + 1, n);
        assert f.queue[Slot(f.next, i + 1, n)] == w[i + 1];
      } else {
        assert Slot(g.next, i, n) == f.next;
      }
    }
    assert f.queue[Slot(f.next, 0, n)] == w[0];
    SumUpdate(f.queue, f.next, x);
    SumFront(w);
    assert w'[..|w'| - 1] == w[1..];
  }

  /** After any run from a reset filter, the queue holds the last SIZE
      inputs (zeros for slots not yet written), oldest at the next slot, and
      the running sum is their sum; the output is therefore their mean. */
  lemma {:induction false} RunHoldsWindow(size: nat, xs: seq<real>)
    requires size > 0
    ensures Holds(Run(Reset(size), xs), Window(xs, size))
    ensures Valid(Run(Reset(size), xs)) && Run(Reset(size), xs).sum == Sum(Window(xs, size))
  {
    if xs == [] {
      SumZeros(size);
      assert Window(xs, size) == Zeros(size);
      assert forall i :: 0 <= i < size ==> Slot(0, i, size) == i;
    } else {
      var prefix := xs[..|xs| - 1];
      var x := xs[|xs| - 1];
      assert xs == prefix + [x];
      RunHoldsWindow(size, prefix);
      WindowShift(prefix, x, size);
      UpdateShiftsWindow(Run(Reset(size), prefix), Window(prefix, size), x);
    }
  }

  /** Each output is the mean of the last SIZE inputs, counting the slots
      not yet written as zeros. */
  lemma OutputIsMean(size: nat, xs: seq<real>, x: real)
    requires size > 0
    ensures Update(Run(Reset(size), xs), x).1 == Sum(Window(xs + [x], size)) / (size as real)
  {
    var f := Run(Reset(size), xs);
    RunHoldsWindow(size, xs);
    var g := Update(f, x).0;
    assert g.sum == Sum(g.queue);
    assert (xs + [x])[..|xs + [x]| - 1] == xs;
    assert Run(Reset(size), xs + [x]) == g;
    RunHoldsWindow(size, xs + [x]);
  }

  /** The value a C++ `float` holds: a finite number, NaN, or an infinity. */
  datatype Float = Finite(value: real) | NaN | Infinite(positive: bool)

  /** `update` of include/filters.h: a NaN or infinite input is returned as
      it is and leaves the filter alone; a finite one is filtered as above. */
  function UpdateChecked(f: MovingAverage, v: Float): (r: (MovingAverage, Float))
    requires InRange(f)
    ensures !v.Finite? ==> r.0 == f && r.1 == v
    ensures v.Finite? ==> r.0 == Update(f, v.value).0 && r.1 == Finite(Update(f, v.value).1)
    ensures Valid(f) ==> Valid(r.0)
  {
    if !v.Finite? then (f, v)
    else
      var (g, out) := Update(f, v.value);
      (g, Finite(out))
  }
}
