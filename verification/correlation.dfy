/** Pearson correlation of paired values, as computed by the analytics service and
    (with the same formula) by the comparison dashboard. */
module Correlation {
  import opened Wrappers
  import opened Numeric

  datatype Pair = Pair(a: real, b: real)

  function Swap(p: Pair): Pair { Pair(p.b, p.a) }

  function SwapAll(ps: seq<Pair>): (r: seq<Pair>)
    ensures |r| == |ps|
    ensures forall i :: 0 <= i < |ps| ==> r[i] == Swap(ps[i])
  {
    seq(|ps|, i requires 0 <= i < |ps| => Swap(ps[i]))
  }

  /** The five running totals of the correlation loop: the two plain sums (for the means),
      the cross-deviation sum and the two squared-deviation sums. */
  datatype Moments = Moments(sumA: real, sumB: real, cross: real, sqA: real, sqB: real)

  function Add(m: Moments, n: Moments): Moments {
    Moments(m.sumA + n.sumA, m.sumB + n.sumB, m.cross + n.cross, m.sqA + n.sqA, m.sqB + n.sqB)
  }

  const Zero := Moments(0.0, 0.0, 0.0, 0.0, 0.0)

  /** One pair's contribution, given the two means. */
  function Term(p: Pair, ma: real, mb: real): Moments {
    var da, db := p.a - ma, p.b - mb;
    Moments(p.a, p.b, da * db, da * da, db * db)
  }

  /** The totals accumulated over the pairs, left to right. */
  function Totals(ps: seq<Pair>, ma: real, mb: real): Moments
  {
    if |ps| == 0 then Zero else Add(Totals(ps[..|ps| - 1], ma, mb), Term(ps[|ps| - 1], ma, mb))
  }

  function MeanA(ps: seq<Pair>): real
    requires |ps| > 0
  {
    Totals(ps, 0.0, 0.0).sumA / |ps| as real
  }

  function MeanB(ps: seq<Pair>): real
    requires |ps| > 0
  {
    Totals(ps, 0.0, 0.0).sumB / |ps| as real
  }

  /** The deviation totals around the pairs' own means. */
  function Deviations(ps: seq<Pair>): Moments
  {
    if |ps| == 0 then Zero else Totals(ps, MeanA(ps), MeanB(ps))
  }

  /** `compute_correlation`: None below three pairs or when the denominator
      sqrt(sum (a - mean_a)^2 * sum (b - mean_b)^2) is zero; otherwise the coefficient. */
  function ComputeCorrelation(sqrt: real -> real, ps: seq<Pair>): (r: Option<real>)
    ensures |ps| < 3 ==> r.None?
  {
    if |ps| < 3 then None
    else
      Coefficient(sqrt, Deviations(ps))
  }

  /** The product under the square root of the denominator. */
  function SpreadProduct(t: Moments): real { t.sqA * t.sqB }

  /** The final division: None when sqrt(sqA * sqB) is zero. */
  function Coefficient(sqrt: real -> real, t: Moments): Option<real>
  {
    var denom := sqrt(SpreadProduct(t));
    if denom == 0.0 then None else Some(t.cross / denom)
  }

  // ---- Algebra of the totals ----

  lemma {:induction false} TotalsAppend(xs: seq<Pair>, ys: seq<Pair>, ma: real, mb: real)
    ensures Totals(xs + ys, ma, mb) == Add(Totals(xs, ma, mb), Totals(ys, ma, mb))
    decreases |ys|
  {
    if |ys| == 0 {
      assert xs + ys == xs;
    } else {
      var ys' := ys[..|ys| - 1];
      assert (xs + ys)[..|xs + ys| - 1] == xs + ys';
      TotalsAppend(xs, ys', ma, mb);
    }
  }

  /** The totals do not depend on the order of the pairs. */
  lemma {:induction false} TotalsPermutation(ps: seq<Pair>, qs: seq<Pair>, ma: real, mb: real)
    requires multiset(ps) == multiset(qs)
    ensures Totals(ps, ma, mb) == Totals(qs, ma, mb)
    decreases |ps|
  {
    if |ps| == 0 {
      assert |qs| == |multiset(qs)| == 0;
    } else {
      var x := ps[|ps| - 1];
      var init := ps[..|ps| - 1];
      assert ps == init + [x];
      assert x in multiset(qs);
      var k :| 0 <= k < |qs| && qs[k] == x;
      var rest := qs[..k] + qs[k + 1..];
      assert qs == qs[..k] + [x] + qs[k + 1..];
      assert multiset(qs) == multiset(qs[..k]) + multiset{x} + multiset(qs[k + 1..]);
      assert multiset(ps) == multiset(init) + multiset{x};
      assert multiset(rest) == multiset(qs[..k]) + multiset(qs[k + 1..]);
      assert multiset(init) == multiset(ps) - multiset{x};
      assert multiset(rest) == multiset(qs) - multiset{x};
      TotalsPermutation(init, rest, ma, mb);
      TotalsAppend(qs[..k] + [x], qs[k + 1..], ma, mb);
      TotalsAppend(qs[..k], [x], ma, mb);
      TotalsAppend(qs[..k], qs[k + 1..], ma, mb);
      assert [x][..0] == [];
      var A, B, T := Totals(qs[..k], ma, mb), Totals(qs[k + 1..], ma, mb), Term(x, ma, mb);
      assert Totals([x], ma, mb) == Add(Zero, T);
      assert Totals(qs, ma, mb) == Add(Add(A, Add(Zero, T)), B);
      assert Totals(ps, ma, mb) == Add(Add(A, B), T);
      AddRearrange(A, B, T);
    }
  }

  lemma AddRearrange(a: Moments, b: Moments, t: Moments)
    ensures Add(Add(a, Add(Zero, t)), b) == Add(Add(a, b), t)
  {
  }

  function Mirror(m: Moments): Moments {
    Moments(m.sumB, m.sumA, m.cross, m.sqB, m.sqA)
  }

  /** Swapping the components of every pair swaps the roles of the two series. */
  lemma {:induction false} TotalsSwap(ps: seq<Pair>, ma: real, mb: real)
    ensures Totals(SwapAll(ps), mb, ma) == Mirror(Totals(ps, ma, mb))
  {
    if |ps| > 0 {
      assert SwapAll(ps)[..|ps| - 1] == SwapAll(ps[..|ps| - 1]);
      TotalsSwap(ps[..|ps| - 1], ma, mb);
      TermSwap(ps[|ps| - 1], ma, mb);
    }
  }

  lemma TermSwap(p: Pair, ma: real, mb: real)
    ensures Term(Swap(p), mb, ma) == Mirror(Term(p, ma, mb))
  {
    var x, y := p.a - ma, p.b - mb;
    assert y * x == x * y;
  }

  /** One pair's squared deviations are not negative. */
  lemma TermSquares(p: Pair, ma: real, mb: real)
    ensures Term(p, ma, mb).sqA >= 0.0 && Term(p, ma, mb).sqB >= 0.0
  {
    SquareNonNegative(p.a - ma);
    SquareNonNegative(p.b - mb);
  }

  lemma {:induction false} SquaresNonNegative(ps: seq<Pair>, ma: real, mb: real)
    ensures Totals(ps, ma, mb).sqA >= 0.0 && Totals(ps, ma, mb).sqB >= 0.0
  {
    if |ps| > 0 {
      var init := ps[..|ps| - 1];
      SquaresNonNegative(init, ma, mb);
      TermSquares(ps[|ps| - 1], ma, mb);
    }
  }

  // ---- Properties of the coefficient ----

  /** Swapping the two series leaves the coefficient unchanged. */
  lemma CorrelationSymmetric(sqrt: real -> real, ps: seq<Pair>)
    ensures ComputeCorrelation(sqrt, SwapAll(ps)) == ComputeCorrelation(sqrt, ps)
  {
    if |ps| >= 3 {
      var qs := SwapAll(ps);
      TotalsSwap(ps, 0.0, 0.0);
      assert MeanA(qs) == MeanB(ps) && MeanB(qs) == MeanA(ps);
      TotalsSwap(ps, MeanA(ps), MeanB(ps));
      assert Deviations(qs) == Mirror(Deviations(ps));
      CoefficientMirror(sqrt, Deviations(ps));
    }
  }

  /** The coefficient does not depend on the order of the pairs. */
  lemma CorrelationPermutationInvariant(sqrt: real -> real, ps: seq<Pair>, qs: seq<Pair>)
    requires multiset(ps) == multiset(qs)
    ensures ComputeCorrelation(sqrt, ps) == ComputeCorrelation(sqrt, qs)
  {
    assert |ps| == |multiset(ps)| == |multiset(qs)| == |qs|;
    if |ps| >= 3 {
      TotalsPermutation(ps, qs, 0.0, 0.0);
      assert MeanA(ps) == MeanA(qs) && MeanB(ps) == MeanB(qs);
      TotalsPermutation(ps, qs, MeanA(ps), MeanB(ps));
      assert Deviations(ps) == Deviations(qs);
    }
  }

  /** With a true square root, the result is None exactly when there are fewer than three
      pairs or one of the two series has no spread around its mean. */
  lemma CorrelationNoneIff(sqrt: real -> real, ps: seq<Pair>)
    requires IsSqrt(sqrt)
    ensures ComputeCorrelation(sqrt, ps).None? <==>
      |ps| < 3 || Deviations(ps).sqA == 0.0 || Deviations(ps).sqB == 0.0
  {
    if |ps| >= 3 {
      var t := Deviations(ps);
      SquaresNonNegative(ps, MeanA(ps), MeanB(ps));
      ProductNonNegative(t.sqA, t.sqB);
      SqrtZeroIff(sqrt, SpreadProduct(t));
      ProductZeroIff(t.sqA, t.sqB);
    }
  }

  lemma CoefficientMirror(sqrt: real -> real, t: Moments)
    ensures Coefficient(sqrt, Mirror(t)) == Coefficient(sqrt, t)
  {
    assert SpreadProduct(Mirror(t)) == SpreadProduct(t);
  }

  lemma ProductNonNegative(x: real, y: real)
    requires x >= 0.0 && y >= 0.0
    ensures x * y >= 0.0
  {
    if x > 0.0 && y > 0.0 {
      MulPositive(x, y);
    }
  }

  lemma ProductZeroIff(x: real, y: real)
    ensures x * y == 0.0 <==> x == 0.0 || y == 0.0
  {
    if x != 0.0 && y != 0.0 {
      if x > 0.0 && y > 0.0 { MulPositive(x, y); }
      else if x < 0.0 && y < 0.0 { MulPositive(-x, -y); }
      else if x > 0.0 { MulPositive(x, -y); }
      else { MulPositive(-x, y); }
    }
  }

  lemma MulPositive(x: real, y: real)
    requires x > 0.0 && y > 0.0
    ensures x * y > 0.0
  {
  }

  /** A series whose values are all equal has no spread, so the coefficient is None. */
  lemma ConstantSeriesGivesNone(sqrt: real -> real, ps: seq<Pair>, c: real)
    requires IsSqrt(sqrt)
    requires forall i :: 0 <= i < |ps| ==> ps[i].a == c
    ensures ComputeCorrelation(sqrt, ps).None?
  {
    if |ps| >= 3 {
      ConstantTotals(ps, c, 0.0, 0.0);
      var n := |ps| as real;
      assert Totals(ps, 0.0, 0.0).sumA == n * c;
      assert MeanA(ps) == c;
      ConstantTotals(ps, c, MeanA(ps), MeanB(ps));
      assert Deviations(ps).sqA == 0.0;
      CorrelationNoneIff(sqrt, ps);
    }
  }

  lemma {:induction false} ConstantTotals(ps: seq<Pair>, c: real, ma: real, mb: real)
    requires forall i :: 0 <= i < |ps| ==> ps[i].a == c
    ensures Totals(ps, ma, mb).sumA == |ps| as real * c
    ensures ma == c ==> Totals(ps, ma, mb).sqA == 0.0
  {
    if |ps| > 0 {
      var init := ps[..|ps| - 1];
      ConstantTotals(init, c, ma, mb);
      var prev := Totals(init, ma, mb);
      assert Totals(ps, ma, mb).sumA == prev.sumA + c;
      MulSucc(|init| as real, c);
      if ma == c {
        assert Term(ps[|ps| - 1], ma, mb).sqA == 0.0 * 0.0;
      }
    }
  }

  lemma MulSucc(k: real, c: real)
    ensures k * c + c == (k + 1.0) * c
  {
  }


  // ---- Cauchy-Schwarz: the coefficient lies in [-1, 1] ----

  /** sum of (da - t * db)^2 over the pairs. */
  function QuadSum(ps: seq<Pair>, ma: real, mb: real, t: real): real
  {
    if |ps| == 0 then 0.0
    else QuadSum(ps[..|ps| - 1], ma, mb, t) + QuadTerm(ps[|ps| - 1], ma, mb, t)
  }

  function QuadTerm(p: Pair, ma: real, mb: real, t: real): real {
    var d := (p.a - ma) - t * (p.b - mb);
    d * d
  }

  /** The quadratic in t whose coefficients are the deviation totals. */
  function Quad(m: Moments, t: real): real {
    m.sqA - 2.0 * t * m.cross + t * t * m.sqB
  }

  lemma {:induction false} QuadSumExpands(ps: seq<Pair>, ma: real, mb: real, t: real)
    ensures QuadSum(ps, ma, mb, t) == Quad(Totals(ps, ma, mb), t)
    ensures QuadSum(ps, ma, mb, t) >= 0.0
  {
    if |ps| > 0 {
      var init := ps[..|ps| - 1];
      QuadSumExpands(init, ma, mb, t);
      QuadStep(Totals(init, ma, mb), ps[|ps| - 1], ma, mb, t);
      QuadTermNonNegative(ps[|ps| - 1], ma, mb, t);
    }
  }

  /** Adding one pair's terms adds that pair's squared residual to the quadratic. */
  lemma QuadStep(m: Moments, p: Pair, ma: real, mb: real, t: real)
    ensures Quad(Add(m, Term(p, ma, mb)), t) == Quad(m, t) + QuadTerm(p, ma, mb, t)
  {
    var x, y := p.a - ma, p.b - mb;
    var d := Term(p, ma, mb);
    assert d == Moments(p.a, p.b, x * y, x * x, y * y);
    QuadStepMoments(m, d, x, y, t);
  }

  lemma QuadStepMoments(m: Moments, d: Moments, x: real, y: real, t: real)
    requires d.sqA == x * x && d.cross == x * y && d.sqB == y * y
    ensures Quad(Add(m, d), t) == Quad(m, t) + (x - t * y) * (x - t * y)
  {
    var n := Add(m, d);
    QuadStepReal(m.sqA, m.cross, m.sqB, n.sqA, n.cross, n.sqB, x, y, t);
  }

  lemma QuadTermNonNegative(p: Pair, ma: real, mb: real, t: real)
    ensures QuadTerm(p, ma, mb, t) >= 0.0
  {
    SquareNonNegative((p.a - ma) - t * (p.b - mb));
  }

  /** QuadStep on plain numbers: x and y are the pair's two deviations, and a', c', b' the
      totals after adding them. */
  lemma QuadStepReal(a: real, c: real, b: real, a': real, c': real, b': real, x: real, y: real, t: real)
    requires a' == a + x * x && c' == c + x * y && b' == b + y * y
    ensures a' - 2.0 * t * c' + t * t * b' == (a - 2.0 * t * c + t * t * b) + (x - t * y) * (x - t * y)
  {
    ResidualExpands(x, y, t);
    QuadLinear(a, c, b, x * x, x * y, y * y, t);
  }

  lemma ResidualExpands(x: real, y: real, t: real)
    ensures (x - t * y) * (x - t * y) == x * x - 2.0 * t * (x * y) + t * t * (y * y)
  {
  }

  lemma QuadLinear(a: real, c: real, b: real, a': real, c': real, b': real, t: real)
    ensures (a + a') - 2.0 * t * (c + c') + t * t * (b + b') == (a - 2.0 * t * c + t * t * b) + (a' - 2.0 * t * c' + t * t * b')
  {
    assert t * t * (b + b') == t * t * b + t * t * b';
    assert 2.0 * t * (c + c') == 2.0 * t * c + 2.0 * t * c';
  }

  /** (sum da*db)^2 <= (sum da^2) * (sum db^2). */
  predicate CrossWithinSpread(m: Moments) {
    m.cross * m.cross <= m.sqA * m.sqB
  }

  lemma CauchySchwarz(ps: seq<Pair>, ma: real, mb: real)
    ensures CrossWithinSpread(Totals(ps, ma, mb))
  {
    var m := Totals(ps, ma, mb);
    SquaresNonNegative(ps, ma, mb);
    if m.sqB == 0.0 {
      if m.cross != 0.0 {
        var t := (m.sqA + 1.0) / (2.0 * m.cross);
        QuadSumExpands(ps, ma, mb, t);
        OverShoot(m, t);
        assert false;
      } else {
        NoCross(m);
      }
    } else {
      var t := m.cross / m.sqB;
      QuadSumExpands(ps, ma, mb, t);
      Discriminant(m, t);
    }
  }

  /** Without spread in b, a cross term would let the quadratic go negative. */
  lemma OverShoot(m: Moments, t: real)
    requires m.cross != 0.0 && m.sqB == 0.0 && t == (m.sqA + 1.0) / (2.0 * m.cross)
    ensures Quad(m, t) < 0.0
  {
    assert 2.0 * t * m.cross == m.sqA + 1.0;
    assert t * t * m.sqB == 0.0;
  }

  lemma NoCross(m: Moments)
    requires m.cross == 0.0 && m.sqA >= 0.0 && m.sqB >= 0.0
    ensures CrossWithinSpread(m)
  {
    ProductNonNegative(m.sqA, m.sqB);
  }

  lemma Discriminant(m: Moments, t: real)
    requires m.sqB > 0.0 && t == m.cross / m.sqB && Quad(m, t) >= 0.0
    ensures CrossWithinSpread(m)
  {
    DiscriminantStep(m.sqA, m.cross, m.sqB, t);
  }

  lemma DiscriminantStep(a: real, c: real, b: real, t: real)
    requires b > 0.0 && t == c / b
    requires a - 2.0 * t * c + t * t * b >= 0.0
    ensures c * c <= a * b
  {
    assert t * b == c;
    assert t * t * b == t * c;
    assert a - t * c >= 0.0;
    assert (a - t * c) * b >= 0.0;
    assert t * c * b == c * c;
  }

  /** The coefficient, when defined, lies in [-1, 1]. */
  lemma CorrelationBounded(sqrt: real -> real, ps: seq<Pair>)
    requires IsSqrt(sqrt)
    ensures ComputeCorrelation(sqrt, ps).Some? ==> -1.0 <= ComputeCorrelation(sqrt, ps).value <= 1.0
  {
    if |ps| >= 3 {
      var m := Totals(ps, MeanA(ps), MeanB(ps));
      CauchySchwarz(ps, MeanA(ps), MeanB(ps));
      SquaresNonNegative(ps, MeanA(ps), MeanB(ps));
      CoefficientBounded(sqrt, m);
      assert Deviations(ps) == m;
    }
  }

  lemma CoefficientBounded(sqrt: real -> real, t: Moments)
    requires IsSqrt(sqrt)
    requires t.sqA >= 0.0 && t.sqB >= 0.0 && CrossWithinSpread(t)
    ensures Coefficient(sqrt, t).Some? ==> -1.0 <= Coefficient(sqrt, t).value <= 1.0
  {
    ProductNonNegative(t.sqA, t.sqB);
    CoefficientBound(t.cross, SpreadProduct(t), sqrt(SpreadProduct(t)));
  }

  lemma CoefficientBound(c: real, p: real, s: real)
    requires c * c <= p && s >= 0.0 && s * s == p
    ensures s != 0.0 ==> -1.0 <= c / s <= 1.0
  {
    if s != 0.0 {
      WithinRoot(c, s);
      DivWithin(c, s);
    }
  }

  lemma WithinRoot(c: real, s: real)
    requires s > 0.0 && c * c <= s * s
    ensures -s <= c <= s
  {
    if c > s {
      SquareStrictlyMonotone(s, c);
    } else if c < -s {
      SquareStrictlyMonotone(s, -c);
    }
  }

  lemma DivWithin(c: real, s: real)
    requires s > 0.0 && -s <= c <= s
    ensures -1.0 <= c / s <= 1.0
  {
    var q := c / s;
    assert q * s == c;
    if q > 1.0 {
      MulPositive(q - 1.0, s);
    } else if q < -1.0 {
      MulPositive(-1.0 - q, s);
    }
  }

  /** Three pairs on the line b = 2a have coefficient 1. */
  lemma PerfectLineExample(sqrt: real -> real)
    requires IsSqrt(sqrt)
    ensures ComputeCorrelation(sqrt, [Pair(1.0, 2.0), Pair(2.0, 4.0), Pair(3.0, 6.0)]) == Some(1.0)
  {
    var ps := [Pair(1.0, 2.0), Pair(2.0, 4.0), Pair(3.0, 6.0)];
    PerfectLineDeviations();
    assert SpreadProduct(Deviations(ps)) == 4.0 * 4.0;
    SqrtOfSquare(sqrt, 4.0);
  }

  lemma PerfectLineDeviations()
    ensures Deviations([Pair(1.0, 2.0), Pair(2.0, 4.0), Pair(3.0, 6.0)]) == Moments(6.0, 12.0, 4.0, 2.0, 8.0)
  {
    var ps := [Pair(1.0, 2.0), Pair(2.0, 4.0), Pair(3.0, 6.0)];
    PerfectLineSums();
    assert MeanA(ps) == 2.0 && MeanB(ps) == 4.0;
    PerfectLineCentered();
  }

  lemma PerfectLineSums()
    ensures Totals([Pair(1.0, 2.0), Pair(2.0, 4.0), Pair(3.0, 6.0)], 0.0, 0.0).sumA == 6.0
    ensures Totals([Pair(1.0, 2.0), Pair(2.0, 4.0), Pair(3.0, 6.0)], 0.0, 0.0).sumB == 12.0
  {
    var ps := [Pair(1.0, 2.0), Pair(2.0, 4.0), Pair(3.0, 6.0)];
    assert ps[..1] == [Pair(1.0, 2.0)] && ps[..2] == [Pair(1.0, 2.0), Pair(2.0, 4.0)];
    assert [Pair(1.0, 2.0)][..0] == [];
    assert Totals(ps[..1], 0.0, 0.0) == Moments(1.0, 2.0, 2.0, 1.0, 4.0);
    assert Totals(ps[..2], 0.0, 0.0) == Moments(3.0, 6.0, 10.0, 5.0, 20.0);
  }

  lemma PerfectLineCentered()
    ensures Totals([Pair(1.0, 2.0), Pair(2.0, 4.0), Pair(3.0, 6.0)], 2.0, 4.0) == Moments(6.0, 12.0, 4.0, 2.0, 8.0)
  {
    var ps := [Pair(1.0, 2.0), Pair(2.0, 4.0), Pair(3.0, 6.0)];
    assert ps[..1] == [Pair(1.0, 2.0)] && ps[..2] == [Pair(1.0, 2.0), Pair(2.0, 4.0)];
    assert [Pair(1.0, 2.0)][..0] == [];
    assert Totals(ps[..1], 2.0, 4.0) == Moments(1.0, 2.0, 2.0, 1.0, 4.0);
    assert Totals(ps[..2], 2.0, 4.0) == Moments(3.0, 6.0, 2.0, 1.0, 4.0);
  }
}
