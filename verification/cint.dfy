/** The C++ integer semantics the firmware relies on. Dafny's `/` and `%`
    are Euclidean (the remainder is never negative); C++ truncates the
    quotient toward zero, so both are written out here. */
module CInt {

  function Abs(x: int): nat {
    if x < 0 then -x else x
  }

  /** `a / b` on C++ `int`: the quotient rounded toward zero. */
  function Div(a: int, b: int): (q: int)
    requires b != 0
    ensures Abs(q) * Abs(b) <= Abs(a) < (Abs(q) + 1) * Abs(b)
    ensures q > 0 ==> (a < 0) == (b < 0)
    ensures q < 0 ==> (a < 0) != (b < 0)
  {
    var m := Abs(a) / Abs(b);
    NatDivBounds(Abs(a), Abs(b));
    if (a < 0) == (b < 0) then m else -m
  }

  /** Euclidean division of naturals brackets the dividend. */
  lemma NatDivBounds(x: nat, y: nat)
    requires y > 0
    ensures (x / y) * y <= x < (x / y + 1) * y
  {
    var q := x / y;
    var r := x % y;
    assert x == q * y + r && 0 <= r < y;
    assert (q + 1) * y == q * y + y;
  }

  /** `a % b` on C++ `int`: the remainder takes the sign of the dividend. */
  function Mod(a: int, b: int): (r: int)
    requires b != 0
    ensures Div(a, b) * b + r == a
    ensures Abs(r) < Abs(b)
    ensures r != 0 ==> (r < 0) == (a < 0)
    ensures a >= 0 && b > 0 ==> r == a % b
  {
    a - Div(a, b) * b
  }

  /** A C++ conversion of an `int` to an 8-bit unsigned type keeps the value modulo 256. */
  function ToUInt8(x: int): (r: int)
    ensures 0 <= r < 256
    ensures 0 <= x < 256 ==> r == x
    ensures (x - r) % 256 == 0
  {
    x % 256
  }

  /** A conversion to `signed char` keeps the value modulo 256 in [-128, 128). */
  function ToInt8(x: int): (r: int)
    ensures -128 <= r < 128
    ensures -128 <= x < 128 ==> r == x
    ensures (x - r) % 256 == 0
  {
    (x + 128) % 256 - 128
  }

  /** If `|a| <= k * |b|` then the truncated quotient lies in [-k, k]. */
  lemma DivWithin(a: int, b: int, k: int)
    requires b != 0 && k >= 0
    requires Abs(a) <= k * Abs(b)
    ensures -k <= Div(a, b) <= k
  {
    var q := Div(a, b);
    if Abs(q) > k {
      MulMonotone(k + 1, Abs(q), Abs(b));
    }
  }

  /** If `|a| < k * |b|` then the truncated quotient lies strictly inside (-k, k). */
  lemma DivInside(a: int, b: int, k: int)
    requires b != 0 && k >= 0
    requires Abs(a) < k * Abs(b)
    ensures -k < Div(a, b) < k
  {
    var q := Div(a, b);
    if Abs(q) >= k {
      MulMonotone(k, Abs(q), Abs(b));
    }
  }

  lemma MulMonotone(x: nat, y: nat, z: nat)
    requires x <= y
    ensures x * z <= y * z
  {
  }

  /** `(k * b) / b == k` with C++ truncation, for either sign of `b`. */
  lemma DivExact(k: int, b: int)
    requires b != 0
    ensures Div(k * b, b) == k
  {
    var q := Div(k * b, b);
    assert Abs(k * b) == Abs(k) * Abs(b);
    if Abs(q) < Abs(k) {
      MulMonotone(Abs(q) + 1, Abs(k), Abs(b));
    } else if Abs(q) > Abs(k) {
      MulMonotone(Abs(k) + 1, Abs(q), Abs(b));
    }
    assert Abs(q) == Abs(k);
  }
}
