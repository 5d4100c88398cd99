/** Real-number helpers: the exact-real stand-ins for the floating-point operations the
    services use. Floating point itself is not modelled: a Python `float` or JavaScript
    `number` is a Dafny `real`. */
module Numeric {

  function Abs(x: real): (r: real)
    ensures r >= 0.0 && (r == x || r == -x)
  {
    if x < 0.0 then -x else x
  }

  function MaxR(a: real, b: real): (r: real)
    ensures r >= a && r >= b && (r == a || r == b)
  {
    if a >= b then a else b
  }

  function MinR(a: real, b: real): (r: real)
    ensures r <= a && r <= b && (r == a || r == b)
  {
    if a <= b then a else b
  }

  function MaxI(a: int, b: int): (r: int)
    ensures r >= a && r >= b && (r == a || r == b)
  {
    if a >= b then a else b
  }

  function MinI(a: int, b: int): (r: int)
    ensures r <= a && r <= b && (r == a || r == b)
  {
    if a <= b then a else b
  }

  /** Python `round(n)` on an exact real: the nearest integer, ties to the even one. */
  function RoundHalfEven(n: real): (k: int)
    ensures n - 0.5 <= k as real <= n + 0.5
  {
    var f := n.Floor;
    var d := n - f as real;
    if d < 0.5 then f
    else if d > 0.5 then f + 1
    else if f % 2 == 0 then f
    else f + 1
  }

  /** Python `round(x, 4)`: the nearest multiple of 1/10000, ties to even. */
  function Round4(x: real): (r: real)
    ensures Abs(r - x) <= 0.00005
  {
    RoundHalfEven(x * 10000.0) as real / 10000.0
  }

  /** A value already on the 4-decimal grid. */
  predicate OnGrid(x: real) {
    x == (x * 10000.0).Floor as real / 10000.0
  }

  lemma RoundHalfEvenMonotone(a: real, b: real)
    requires a <= b
    ensures RoundHalfEven(a) <= RoundHalfEven(b)
  {
    var fa, fb := a.Floor, b.Floor;
    assert fa <= fb;
    if fa == fb {
      assert a - fa as real <= b - fb as real;
    } else {
      assert fa + 1 <= fb;
    }
  }

  lemma RoundHalfEvenOfInteger(k: int)
    ensures RoundHalfEven(k as real) == k
  {
    assert (k as real).Floor == k;
  }

  lemma Round4Monotone(a: real, b: real)
    requires a <= b
    ensures Round4(a) <= Round4(b)
  {
    RoundHalfEvenMonotone(a * 10000.0, b * 10000.0);
  }

  /** A multiple of 1/10000 is left unchanged by Round4. */
  lemma Round4OfGrid(k: int)
    ensures Round4(k as real / 10000.0) == k as real / 10000.0
  {
    assert (k as real / 10000.0) * 10000.0 == k as real;
    RoundHalfEvenOfInteger(k);
  }

  /** Every result of Round4 lies on the grid and is a fixed point of Round4. */
  lemma Round4Idempotent(x: real)
    ensures OnGrid(Round4(x))
    ensures Round4(Round4(x)) == Round4(x)
  {
    var k := RoundHalfEven(x * 10000.0);
    assert Round4(x) * 10000.0 == k as real;
    assert (k as real).Floor == k;
    Round4OfGrid(k);
  }

  lemma Round4OfOnGrid(x: real)
    requires OnGrid(x)
    ensures Round4(x) == x
  {
    Round4OfGrid((x * 10000.0).Floor);
  }

  /** Adding a non-negative amount to a grid value and rounding never goes below it. */
  lemma Round4NoDecrease(a: real, d: real)
    requires OnGrid(a) && d >= 0.0
    ensures a <= Round4(a + d)
  {
    Round4Monotone(a, a + d);
    Round4OfOnGrid(a);
  }

  /** Adding at least one grid step (0.0001) to a grid value and rounding moves it up. */
  lemma Round4Advances(a: real, d: real)
    requires OnGrid(a) && d >= 0.0001
    ensures a < Round4(a + d)
  {
    var k := (a * 10000.0).Floor;
    assert a + 0.0001 == (k + 1) as real / 10000.0;
    Round4OfGrid(k + 1);
    Round4Monotone(a + 0.0001, a + d);
  }

  /** The laws the model relies on for Python's `round(x, 4)`: monotone, idempotent, exact
      on the 4-decimal grid, and moving a rounded value up by at least one grid step moves it
      up. The services receive the rounding function as a parameter obeying these laws. */
  ghost predicate IsRound4(round4: real -> real) {
    RoundMonotone(round4) && RoundIdempotent(round4) && RoundExactOnGrid(round4) && RoundAdvances(round4)
  }

  ghost predicate RoundMonotone(round4: real -> real) {
    forall a, b :: a <= b ==> round4(a) <= round4(b)
  }

  ghost predicate RoundIdempotent(round4: real -> real) {
    forall x :: round4(round4(x)) == round4(x)
  }

  ghost predicate RoundExactOnGrid(round4: real -> real) {
    forall x {:trigger OnGrid(x)} :: OnGrid(x) ==> round4(x) == x
  }

  ghost predicate RoundAdvances(round4: real -> real) {
    forall x, y :: round4(x) + 0.0001 <= y ==> round4(x) < round4(y)
  }

  /** The exact half-even Round4 obeys those laws. */
  lemma Round4IsRound4()
    ensures IsRound4(Round4)
  {
    forall a, b | a <= b
      ensures Round4(a) <= Round4(b)
    {
      Round4Monotone(a, b);
    }
    forall x
      ensures Round4(Round4(x)) == Round4(x)
    {
      Round4Idempotent(x);
    }
    forall x | OnGrid(x)
      ensures Round4(x) == x
    {
      Round4OfOnGrid(x);
    }
    forall x, y | Round4(x) + 0.0001 <= y
      ensures Round4(x) < Round4(y)
    {
      Round4Idempotent(x);
      Round4Advances(Round4(x), y - Round4(x));
    }
  }

  /** The law a square-root function must obey; numpy's and JavaScript's `sqrt` are
      passed to the model as a parameter satisfying it. */
  ghost predicate IsSqrt(sqrt: real -> real) {
    forall z :: 0.0 <= z ==> 0.0 <= sqrt(z) && sqrt(z) * sqrt(z) == z
  }

  lemma SqrtOfSquare(sqrt: real -> real, s: real)
    requires IsSqrt(sqrt)
    requires 0.0 <= s
    ensures sqrt(s * s) == s
  {
    var t := sqrt(s * s);
    assert 0.0 <= t && t * t == s * s;
    if t > s {
      SquareStrictlyMonotone(s, t);
    } else if t < s {
      SquareStrictlyMonotone(t, s);
    }
  }

  lemma SquareStrictlyMonotone(b: real, a: real)
    requires 0.0 <= b < a
    ensures b * b < a * a
  {
    var x := a - b;
    assert a == b + x;
    assert a * a == b * b + 2.0 * b * x + x * x;
    assert x * x > 0.0;
    assert b * x >= 0.0;
  }

  lemma SqrtZeroIff(sqrt: real -> real, z: real)
    requires IsSqrt(sqrt)
    requires 0.0 <= z
    ensures sqrt(z) == 0.0 <==> z == 0.0
  {
    if z == 0.0 {
      SqrtOfSquare(sqrt, 0.0);
    }
  }

  /** Sum of a sequence of reals, left to right (Python `sum`, a JavaScript `reduce`). */
  function Sum(xs: seq<real>): real
  {
    if |xs| == 0 then 0.0 else Sum(xs[..|xs| - 1]) + xs[|xs| - 1]
  }

  lemma {:induction false} SumAppend(a: seq<real>, b: seq<real>)
    ensures Sum(a + b) == Sum(a) + Sum(b)
    decreases |b|
  {
    if |b| == 0 {
      assert a + b == a;
    } else {
      assert (a + b)[..|a + b| - 1] == a + b[..|b| - 1];
      SumAppend(a, b[..|b| - 1]);
    }
  }

  lemma {:induction false} SumNonNegative(xs: seq<real>)
    requires forall i :: 0 <= i < |xs| ==> xs[i] >= 0.0
    ensures Sum(xs) >= 0.0
  {
    if |xs| > 0 {
      SumNonNegative(xs[..|xs| - 1]);
    }
  }

  function Mean(xs: seq<real>): real
    requires |xs| > 0
  {
    Sum(xs) / |xs| as real
  }

  lemma MeanNonNegative(xs: seq<real>)
    requires |xs| > 0
    requires forall i :: 0 <= i < |xs| ==> xs[i] >= 0.0
    ensures Mean(xs) >= 0.0
  {
    SumNonNegative(xs);
  }

  /** A square is never negative. */
  lemma SquareNonNegative(x: real)
    ensures x * x >= 0.0
  {
    if x < 0.0 {
      assert x * x == (-x) * (-x);
    }
  }
}
