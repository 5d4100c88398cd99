/** The inequality service: Lorenz points from quintile income shares, the trapezoid Gini
    index, selection of the quintile observations for a (country, year) and the cached
    Lorenz result (backend/fastapi_service/app/services/analytics.py). */
module Lorenz {
  import opened Wrappers
  import opened Numeric
  import Text
  import opened Store

  /** A World Bank quintile income-share indicator and the population share it covers. */
  datatype Quintile = Quintile(code: string, populationShare: real)

  const LorenzIndicators: seq<Quintile> := [
    Quintile("SI.DST.FRST.20", 0.2),
    Quintile("SI.DST.02ND.20", 0.2),
    Quintile("SI.DST.03RD.20", 0.2),
    Quintile("SI.DST.04TH.20", 0.2),
    Quintile("SI.DST.05TH.20", 0.2)
  ]

  /** The quintile codes are pairwise distinct. */
  lemma LorenzCodesDistinct()
    ensures forall i, j :: 0 <= i < j < |LorenzIndicators| ==> LorenzIndicators[i].code != LorenzIndicators[j].code
  {
    forall i, j | 0 <= i < j < |LorenzIndicators|
      ensures LorenzIndicators[i].code != LorenzIndicators[j].code
    {
      assert LorenzIndicators[i].code[7] != LorenzIndicators[j].code[7] || LorenzIndicators[i].code[8] != LorenzIndicators[j].code[8];
    }
  }

  /** Lorenz points from income shares (percent) and population shares (fractions), zipped to
      the shorter input: starts at the origin and each next point adds one pair to the
      running totals, every coordinate passed through `round4` (Python `round(v, 4)`). */
  function BuildLorenzPoints(round4: real -> real, shares: seq<real>, populations: seq<real>): (r: seq<XY>)
    ensures |r| == MinI(|shares|, |populations|) + 1
    ensures r[0] == XY(0.0, 0.0)
    ensures forall i {:trigger populations[i]} :: 0 <= i < |r| - 1 ==>
      r[i + 1] == XY(round4(r[i].x + populations[i]), round4(r[i].y + shares[i] / 100.0))
    decreases |shares|
  {
    var n := MinI(|shares|, |populations|);
    if n == 0 then [XY(0.0, 0.0)]
    else
      var prev := BuildLorenzPoints(round4, shares[..n - 1], populations[..n - 1]);
      var last := prev[|prev| - 1];
      prev + [XY(round4(last.x + populations[n - 1]), round4(last.y + shares[n - 1] / 100.0))]
  }

  lemma LorenzStep(round4: real -> real, shares: seq<real>, populations: seq<real>, i: int)
    requires 0 <= i < MinI(|shares|, |populations|)
    ensures BuildLorenzPoints(round4, shares, populations)[i + 1].x ==
      round4(BuildLorenzPoints(round4, shares, populations)[i].x + populations[i])
    ensures BuildLorenzPoints(round4, shares, populations)[i + 1].y ==
      round4(BuildLorenzPoints(round4, shares, populations)[i].y + shares[i] / 100.0)
  {
  }

  /** Every coordinate is already rounded: rounding it again changes nothing. */
  lemma LorenzPointRounded(round4: real -> real, shares: seq<real>, populations: seq<real>, i: int)
    requires RoundIdempotent(round4) && RoundExactOnGrid(round4)
    requires 0 <= i < |BuildLorenzPoints(round4, shares, populations)|
    ensures round4(BuildLorenzPoints(round4, shares, populations)[i].x) == BuildLorenzPoints(round4, shares, populations)[i].x
    ensures round4(BuildLorenzPoints(round4, shares, populations)[i].y) == BuildLorenzPoints(round4, shares, populations)[i].y
  {
    if i == 0 {
      assert (0.0 * 10000.0).Floor == 0;
      assert OnGrid(0.0);
    } else {
      LorenzStep(round4, shares, populations, i - 1);
    }
  }

  lemma LorenzYStep(round4: real -> real, shares: seq<real>, populations: seq<real>, i: int)
    requires RoundMonotone(round4) && RoundIdempotent(round4) && RoundExactOnGrid(round4)
    requires 0 <= i < MinI(|shares|, |populations|)
    requires shares[i] >= 0.0
    ensures BuildLorenzPoints(round4, shares, populations)[i].y <= BuildLorenzPoints(round4, shares, populations)[i + 1].y
  {
    var r := BuildLorenzPoints(round4, shares, populations);
    LorenzStep(round4, shares, populations, i);
    LorenzPointRounded(round4, shares, populations, i);
    assert round4(r[i].y) <= round4(r[i].y + shares[i] / 100.0);
  }

  lemma LorenzXStep(round4: real -> real, shares: seq<real>, populations: seq<real>, i: int)
    requires RoundAdvances(round4) && RoundIdempotent(round4) && RoundExactOnGrid(round4)
    requires 0 <= i < MinI(|shares|, |populations|)
    requires populations[i] >= 0.0001
    ensures BuildLorenzPoints(round4, shares, populations)[i].x < BuildLorenzPoints(round4, shares, populations)[i + 1].x
  {
    var r := BuildLorenzPoints(round4, shares, populations);
    LorenzStep(round4, shares, populations, i);
    LorenzPointRounded(round4, shares, populations, i);
    assert round4(r[i].x) + 0.0001 <= r[i].x + populations[i];
  }

  /** With non-negative income shares the cumulative income never decreases. */
  lemma LorenzYMonotone(round4: real -> real, shares: seq<real>, populations: seq<real>)
    requires IsRound4(round4)
    requires forall i :: 0 <= i < |shares| ==> shares[i] >= 0.0
    ensures forall i, j :: 0 <= i <= j < |BuildLorenzPoints(round4, shares, populations)| ==>
      BuildLorenzPoints(round4, shares, populations)[i].y <= BuildLorenzPoints(round4, shares, populations)[j].y
  {
    var r := BuildLorenzPoints(round4, shares, populations);
    forall i | 0 <= i < |r| - 1
      ensures r[i].y <= r[i + 1].y
    {
      LorenzYStep(round4, shares, populations, i);
    }
    ChainMonotone(r);
  }

  /** With every population share at least one grid step (0.0001) the cumulative population
      strictly increases. */
  lemma LorenzXStrictlyIncreasing(round4: real -> real, shares: seq<real>, populations: seq<real>)
    requires IsRound4(round4)
    requires forall i :: 0 <= i < |populations| ==> populations[i] >= 0.0001
    ensures forall i, j :: 0 <= i < j < |BuildLorenzPoints(round4, shares, populations)| ==>
      BuildLorenzPoints(round4, shares, populations)[i].x < BuildLorenzPoints(round4, shares, populations)[j].x
  {
    var r := BuildLorenzPoints(round4, shares, populations);
    forall i | 0 <= i < |r| - 1
      ensures r[i].x < r[i + 1].x
    {
      LorenzXStep(round4, shares, populations, i);
    }
    ChainStrict(r);
  }

  /** A positive population share below half a grid step is rounded away under Python's
      rounding: x does not move. */
  lemma TinyPopulationDoesNotAdvance()
    ensures BuildLorenzPoints(Round4, [10.0], [0.00005])[1].x == BuildLorenzPoints(Round4, [10.0], [0.00005])[0].x
  {
    var r := BuildLorenzPoints(Round4, [10.0], [0.00005]);
    LorenzStep(Round4, [10.0], [0.00005], 0);
    assert r[1].x == Round4(0.0 + 0.00005);
    assert (0.00005 * 10000.0).Floor == 0;
    assert RoundHalfEven(0.00005 * 10000.0) == 0;
  }

  /** Consecutive y values non-decreasing implies all of them are. */
  lemma {:induction false} ChainMonotone(ps: seq<XY>)
    requires forall i :: 0 <= i < |ps| - 1 ==> ps[i].y <= ps[i + 1].y
    ensures forall i, j :: 0 <= i <= j < |ps| ==> ps[i].y <= ps[j].y
  {
    if |ps| > 1 {
      var init := ps[..|ps| - 1];
      ChainMonotone(init);
      forall i, j | 0 <= i <= j < |ps|
        ensures ps[i].y <= ps[j].y
      {
        if j < |ps| - 1 {
          assert init[i].y <= init[j].y;
        } else if i < j {
          assert init[i].y <= init[j - 1].y;
        }
      }
    }
  }

  /** Consecutive x values increasing implies all of them are. */
  lemma {:induction false} ChainStrict(ps: seq<XY>)
    requires forall i :: 0 <= i < |ps| - 1 ==> ps[i].x < ps[i + 1].x
    ensures forall i, j :: 0 <= i < j < |ps| ==> ps[i].x < ps[j].x
  {
    if |ps| > 1 {
      var init := ps[..|ps| - 1];
      ChainStrict(init);
      forall i, j | 0 <= i < j < |ps|
        ensures ps[i].x < ps[j].x
      {
        if j < |ps| - 1 {
          assert init[i].x < init[j].x;
        } else if i < j - 1 {
          assert init[i].x < init[j - 1].x;
        }
      }
    }
  }

  /** Area under the polyline through the points, by the trapezoid rule. */
  function TrapezoidArea(points: seq<XY>): real
  {
    if |points| < 2 then 0.0
    else
      var a, b := points[|points| - 2], points[|points| - 1];
      TrapezoidArea(points[..|points| - 1]) + (a.y + b.y) * (b.x - a.x) / 2.0
  }

  /** Gini index as one minus twice the area under the Lorenz curve, clamped to [0, 1]. */
  function ComputeGini(points: seq<XY>): (g: real)
    ensures 0.0 <= g <= 1.0
    ensures |points| < 2 ==> g == 1.0
    ensures 0.0 <= 1.0 - 2.0 * TrapezoidArea(points) <= 1.0 ==> g == 1.0 - 2.0 * TrapezoidArea(points)
  {
    MaxR(0.0, MinR(1.0, 1.0 - 2.0 * TrapezoidArea(points)))
  }

  /** A well-formed Lorenz curve (from the origin, x non-decreasing up to 1, 0 <= y <= x)
      has trapezoid area in [0, 1/2], so its Gini index is never clamped. */
  lemma GiniOfLorenzCurveIsUnclamped(points: seq<XY>)
    requires |points| >= 1 && points[0] == XY(0.0, 0.0)
    requires forall i :: 0 <= i < |points| - 1 ==> points[i].x <= points[i + 1].x
    requires forall i :: 0 <= i < |points| ==> 0.0 <= points[i].y <= points[i].x
    requires points[|points| - 1].x <= 1.0
    ensures ComputeGini(points) == 1.0 - 2.0 * TrapezoidArea(points)
  {
    LorenzAreaAtMostHalf(points);
  }

  /** The area under such a curve lies in [0, 1/2]. */
  lemma LorenzAreaAtMostHalf(points: seq<XY>)
    requires |points| >= 1 && points[0] == XY(0.0, 0.0)
    requires forall i :: 0 <= i < |points| - 1 ==> points[i].x <= points[i + 1].x
    requires forall i :: 0 <= i < |points| ==> 0.0 <= points[i].y <= points[i].x
    requires points[|points| - 1].x <= 1.0
    ensures 0.0 <= TrapezoidArea(points) <= 0.5
  {
    AreaBounds(points);
    assert 0.0 <= points[|points| - 1].y <= points[|points| - 1].x;
    HalfSquareBound(TrapezoidArea(points), points[|points| - 1].x, points[0].x);
  }

  lemma HalfSquareBound(a: real, x: real, x0: real)
    requires x0 == 0.0 && 0.0 <= x <= 1.0
    requires 2.0 * a <= x * x - x0 * x0
    ensures a <= 0.5
  {
    var w := 1.0 - x;
    MulLe(0.0, x, w);
    assert 0.0 <= x * w;
    assert x * w == x - x * x;
    assert x0 * x0 == 0.0;
  }

  /** 0 <= area <= (x_last^2 - x_0^2) / 2 under the conditions above. */
  lemma {:induction false} AreaBounds(points: seq<XY>)
    requires |points| >= 1
    requires forall i :: 0 <= i < |points| - 1 ==> points[i].x <= points[i + 1].x
    requires forall i :: 0 <= i < |points| ==> 0.0 <= points[i].y <= points[i].x
    ensures 0.0 <= TrapezoidArea(points)
    ensures 2.0 * TrapezoidArea(points) <= points[|points| - 1].x * points[|points| - 1].x - points[0].x * points[0].x
  {
    if |points| >= 2 {
      var init := points[..|points| - 1];
      AreaBounds(init);
      TrapezoidBelowDiagonal(points[|points| - 2], points[|points| - 1]);
    }
  }

  /** One trapezoid lies between 0 and the area under the diagonal over the same interval. */
  lemma TrapezoidBelowDiagonal(a: XY, b: XY)
    requires a.x <= b.x
    requires 0.0 <= a.y <= a.x && 0.0 <= b.y <= b.x
    ensures 0.0 <= (a.y + b.y) * (b.x - a.x) <= b.x * b.x - a.x * a.x
  {
    var w := b.x - a.x;
    MulLe(a.y + b.y, a.x + b.x, w);
    assert (a.x + b.x) * w == b.x * b.x - a.x * a.x;
  }

  lemma MulLe(u: real, v: real, w: real)
    requires 0.0 <= u <= v && 0.0 <= w
    ensures 0.0 <= u * w <= v * w
  {
    assert (v - u) * w >= 0.0;
    assert u * w >= 0.0;
  }

  /** The equality line has Gini index 0. */
  lemma GiniOfEqualityLine()
    ensures ComputeGini([XY(0.0, 0.0), XY(1.0, 1.0)]) == 0.0
  {
    var ps := [XY(0.0, 0.0), XY(1.0, 1.0)];
    assert ps[..1] == [XY(0.0, 0.0)];
    assert TrapezoidArea(ps) == 0.5;
  }

  function QuintilePopulations(): seq<real> {
    [0.2, 0.2, 0.2, 0.2, 0.2]
  }

  /** With the five quintile population shares, x runs through 0, 0.2, ..., 1.0 exactly. */
  lemma QuintileGrid()
    ensures OnGrid(0.2) && OnGrid(0.4) && OnGrid(0.6) && OnGrid(0.8) && OnGrid(1.0)
  {
    assert (0.2 * 10000.0).Floor == 2000;
    assert (0.4 * 10000.0).Floor == 4000;
    assert (0.6 * 10000.0).Floor == 6000;
    assert (0.8 * 10000.0).Floor == 8000;
    assert (1.0 * 10000.0).Floor == 10000;
  }

  lemma QuintileXs(round4: real -> real, shares: seq<real>)
    requires RoundExactOnGrid(round4)
    requires |shares| >= 5
    ensures |BuildLorenzPoints(round4, shares, QuintilePopulations())| == 6
    ensures forall k :: 0 <= k <= 5 ==> BuildLorenzPoints(round4, shares, QuintilePopulations())[k].x == [0.0, 0.2, 0.4, 0.6, 0.8, 1.0][k]
  {
    var pops := QuintilePopulations();
    var r := BuildLorenzPoints(round4, shares, pops);
    QuintileGrid();
    LorenzStep(round4, shares, pops, 0);
    LorenzStep(round4, shares, pops, 1);
    LorenzStep(round4, shares, pops, 2);
    LorenzStep(round4, shares, pops, 3);
    LorenzStep(round4, shares, pops, 4);
  }

  /** The curve of income shares 5/10/15/20/50 percent. */
  const ExampleShares: seq<real> := [5.0, 10.0, 15.0, 20.0, 50.0]
  const ExampleCurve: seq<XY> := [XY(0.0, 0.0), XY(0.2, 0.05), XY(0.4, 0.15), XY(0.6, 0.3), XY(0.8, 0.5), XY(1.0, 1.0)]

  lemma ExampleOnGrid()
    ensures OnGrid(0.05) && OnGrid(0.15) && OnGrid(0.3) && OnGrid(0.5) && OnGrid(1.0)
  {
    assert (0.05 * 10000.0).Floor == 500;
    assert (0.15 * 10000.0).Floor == 1500;
    assert (0.3 * 10000.0).Floor == 3000;
    assert (0.5 * 10000.0).Floor == 5000;
    assert (1.0 * 10000.0).Floor == 10000;
  }

  lemma ExamplePoints(round4: real -> real)
    requires RoundExactOnGrid(round4)
    ensures BuildLorenzPoints(round4, ExampleShares, QuintilePopulations()) == ExampleCurve
  {
    var pops := QuintilePopulations();
    var r := BuildLorenzPoints(round4, ExampleShares, pops);
    QuintileXs(round4, ExampleShares);
    ExampleOnGrid();
    LorenzStep(round4, ExampleShares, pops, 0);
    assert r[1].y == 0.05;
    LorenzStep(round4, ExampleShares, pops, 1);
    assert r[2].y == 0.15;
    LorenzStep(round4, ExampleShares, pops, 2);
    assert r[3].y == 0.3;
    LorenzStep(round4, ExampleShares, pops, 3);
    assert r[4].y == 0.5;
    LorenzStep(round4, ExampleShares, pops, 4);
    assert r[5].y == 1.0;
    assert forall k :: 0 <= k < 6 ==> r[k] == ExampleCurve[k];
  }

  lemma ExampleArea()
    ensures TrapezoidArea(ExampleCurve) == 0.3
  {
    var e := ExampleCurve;
    assert e[..2][..1] == [XY(0.0, 0.0)];
    assert TrapezoidArea(e[..2]) == 0.005;
    assert e[..3][..2] == e[..2];
    assert TrapezoidArea(e[..3]) == 0.025;
    assert e[..4][..3] == e[..3];
    assert TrapezoidArea(e[..4]) == 0.07;
    assert e[..5][..4] == e[..4];
    assert TrapezoidArea(e[..5]) == 0.15;
    assert e[..5] == e[..|e| - 1];
  }

  /** Income shares 5/10/15/20/50 percent give the curve (0,0), (0.2,0.05), (0.4,0.15),
      (0.6,0.3), (0.8,0.5), (1,1) and the Gini index 0.4. */
  lemma ExampleCurveAndGini(round4: real -> real)
    requires RoundExactOnGrid(round4)
    ensures BuildLorenzPoints(round4, [5.0, 10.0, 15.0, 20.0, 50.0], QuintilePopulations())
      == [XY(0.0, 0.0), XY(0.2, 0.05), XY(0.4, 0.15), XY(0.6, 0.3), XY(0.8, 0.5), XY(1.0, 1.0)]
    ensures ComputeGini(BuildLorenzPoints(round4, [5.0, 10.0, 15.0, 20.0, 50.0], QuintilePopulations())) == 0.4
  {
    ExamplePoints(round4);
    ExampleArea();
  }

  /** The selection made for one quintile: the value of the latest observation at or before
      `year`, or None when the indicator row or the observation is absent or its value is
      null. */
  function QuintileValue(db: Db, countryId: int, code: string, year: int): Option<real>
  {
    match FindIndicator(db, code)
    case None => None
    case Some(ind) =>
      match LatestAtOrBefore(db.observations, countryId, ind.id, year)
      case None => None
      case Some(o) => o.value
  }

  /** A quintile value is the value of a stored observation of that country and indicator
      at or before the year, and no later such observation exists. */
  lemma QuintileValueIsLatest(db: Db, countryId: int, code: string, year: int)
    requires QuintileValue(db, countryId, code, year).Some?
    ensures FindIndicator(db, code).Some?
    ensures exists o :: (o in db.observations && Of(o, countryId, FindIndicator(db, code).value.id) &&
        o.year <= year && o.value == QuintileValue(db, countryId, code, year) &&
        forall o' :: o' in db.observations && Of(o', countryId, FindIndicator(db, code).value.id) && o'.year <= year ==>
          o'.year <= o.year)
  {
    var o := LatestAtOrBefore(db.observations, countryId, FindIndicator(db, code).value.id, year).value;
    assert forall o' :: o' in db.observations && Of(o', countryId, FindIndicator(db, code).value.id) && o'.year <= year ==>
          o'.year <= o.year by {
      forall o' | o' in db.observations && Of(o', countryId, FindIndicator(db, code).value.id) && o'.year <= year
        ensures o'.year <= o.year
      {
        var i :| 0 <= i < |db.observations| && db.observations[i] == o';
      }
    }
  }

  /** A null at the latest year is not replaced by an earlier non-null observation. */
  lemma NoEarlierFallback(db: Db, countryId: int, code: string, year: int, o: Observation)
    requires ObservationKeysUnique(db)
    requires FindIndicator(db, code).Some?
    requires o in db.observations && Of(o, countryId, FindIndicator(db, code).value.id)
    requires o.year <= year && o.value.None?
    requires forall o' :: o' in db.observations && Of(o', countryId, FindIndicator(db, code).value.id) && o'.year <= year ==>
               o'.year <= o.year
    ensures QuintileValue(db, countryId, code, year).None?
  {
    var id := FindIndicator(db, code).value.id;
    var i :| 0 <= i < |db.observations| && db.observations[i] == o;
    var l := LatestAtOrBefore(db.observations, countryId, id, year);
    assert l.Some?;
    var j :| 0 <= j < |db.observations| && db.observations[j] == l.value;
    assert l.value.year == o.year;
    if i != j {
      assert false;
    }
  }

  datatype Segments = Segments(country: string, year: int, shares: seq<real>, populations: seq<real>, missing: seq<string>)

  /** The loop over the quintile list: present values go to shares/populations, the others'
      codes go to `missing`, each in list order. */
  function CollectQuintiles(db: Db, countryId: int, qs: seq<Quintile>, year: int): (r: (seq<real>, seq<real>, seq<string>))
    ensures |r.0| == |r.1|
    ensures |r.0| + |r.2| == |qs|
  {
    if |qs| == 0 then ([], [], [])
    else
      var prev := CollectQuintiles(db, countryId, qs[..|qs| - 1], year);
      var q := qs[|qs| - 1];
      match QuintileValue(db, countryId, q.code, year)
      case None => (prev.0, prev.1, prev.2 + [q.code])
      case Some(v) => (prev.0 + [v], prev.1 + [q.populationShare], prev.2)
  }

  /** A code is reported missing exactly when it is in the list and its quintile has no value. */
  lemma {:induction false} CollectMissingIff(db: Db, countryId: int, qs: seq<Quintile>, year: int, c: string)
    ensures c in CollectQuintiles(db, countryId, qs, year).2 <==>
      exists k :: 0 <= k < |qs| && qs[k].code == c && QuintileValue(db, countryId, c, year).None?
  {
    if |qs| > 0 {
      var init := qs[..|qs| - 1];
      CollectMissingIff(db, countryId, init, year, c);
      if exists k :: 0 <= k < |init| && init[k].code == c && QuintileValue(db, countryId, c, year).None? {
        var k :| 0 <= k < |init| && init[k].code == c && QuintileValue(db, countryId, c, year).None?;
        assert qs[k] == init[k];
      }
      if exists k :: 0 <= k < |qs| && qs[k].code == c && QuintileValue(db, countryId, c, year).None? {
        var k :| 0 <= k < |qs| && qs[k].code == c && QuintileValue(db, countryId, c, year).None?;
        if k < |init| {
          assert init[k] == qs[k];
        }
      }
    }
  }

  /** Population shares are copied from the list. */
  lemma {:induction false} CollectPopulations(db: Db, countryId: int, qs: seq<Quintile>, year: int, p: real)
    requires forall k :: 0 <= k < |qs| ==> qs[k].populationShare == p
    ensures forall i :: 0 <= i < |CollectQuintiles(db, countryId, qs, year).1| ==> CollectQuintiles(db, countryId, qs, year).1[i] == p
  {
    if |qs| > 0 {
      CollectPopulations(db, countryId, qs[..|qs| - 1], year, p);
    }
  }

  /** With nothing missing, the k-th share is the k-th quintile's value. */
  lemma {:induction false} CollectComplete(db: Db, countryId: int, qs: seq<Quintile>, year: int)
    requires CollectQuintiles(db, countryId, qs, year).2 == []
    ensures forall k :: 0 <= k < |qs| ==>
      QuintileValue(db, countryId, qs[k].code, year) == Some(CollectQuintiles(db, countryId, qs, year).0[k])
  {
    if |qs| > 0 {
      var init := qs[..|qs| - 1];
      var prev := CollectQuintiles(db, countryId, init, year);
      var r := CollectQuintiles(db, countryId, qs, year);
      var last := qs[|qs| - 1];
      var v := QuintileValue(db, countryId, last.code, year);
      assert v.Some?;
      assert r.0 == prev.0 + [v.value] && r.2 == prev.2;
      assert |prev.0| == |init|;
      CollectComplete(db, countryId, init, year);
      forall k | 0 <= k < |qs|
        ensures QuintileValue(db, countryId, qs[k].code, year) == Some(r.0[k])
      {
        if k < |init| {
          assert qs[k] == init[k] && r.0[k] == prev.0[k];
        } else {
          assert qs[k] == last && r.0[k] == v.value;
        }
      }
    }
  }

  /** The collection facts specialised to the five quintile indicators. */
  lemma CollectLorenzFacts(db: Db, countryId: int, year: int)
    ensures var parts := CollectQuintiles(db, countryId, LorenzIndicators, year);
      && (forall i :: 0 <= i < |parts.1| ==> parts.1[i] == 0.2)
      && (forall k :: 0 <= k < |LorenzIndicators| ==>
            (LorenzIndicators[k].code in parts.2 <==> QuintileValue(db, countryId, LorenzIndicators[k].code, year).None?))
      && (parts.2 == [] ==> forall k :: 0 <= k < |LorenzIndicators| ==>
            QuintileValue(db, countryId, LorenzIndicators[k].code, year) == Some(parts.0[k]))
  {
    var parts := CollectQuintiles(db, countryId, LorenzIndicators, year);
    forall k | 0 <= k < |LorenzIndicators|
      ensures LorenzIndicators[k].code in parts.2 <==> QuintileValue(db, countryId, LorenzIndicators[k].code, year).None?
    {
      CollectMissingIff(db, countryId, LorenzIndicators, year, LorenzIndicators[k].code);
    }
    CollectPopulations(db, countryId, LorenzIndicators, year, 0.2);
    if parts.2 == [] {
      CollectComplete(db, countryId, LorenzIndicators, year);
    }
  }

  /** `get_lorenz_segments`: None for an unknown (upper-cased) country code. */
  function LorenzSegments(db: Db, countryCode: string, year: int): (r: Option<Segments>)
    ensures r.None? <==> FindCountry(db, Text.Upper(countryCode)).None?
    ensures r.Some? ==>
      var c := FindCountry(db, Text.Upper(countryCode)).value;
      && r.value.country == c.code == Text.Upper(countryCode)
      && r.value.year == year
      && |r.value.shares| == |r.value.populations|
      && |r.value.shares| + |r.value.missing| == |LorenzIndicators|
      && (forall i :: 0 <= i < |r.value.populations| ==> r.value.populations[i] == 0.2)
      && (forall k :: 0 <= k < |LorenzIndicators| ==>
            (LorenzIndicators[k].code in r.value.missing <==> QuintileValue(db, c.id, LorenzIndicators[k].code, year).None?))
      && (r.value.missing == [] ==> forall k :: 0 <= k < |LorenzIndicators| ==>
            QuintileValue(db, c.id, LorenzIndicators[k].code, year) == Some(r.value.shares[k]))
  {
    match FindCountry(db, Text.Upper(countryCode))
    case None => None
    case Some(c) =>
      var parts := CollectQuintiles(db, c.id, LorenzIndicators, year);
      CollectLorenzFacts(db, c.id, year);
      Some(Segments(c.code, year, parts.0, parts.1, parts.2))
  }

  datatype LorenzResult = LorenzResult(country: string, year: int, points: seq<XY>, gini: real)

  /** The cached row for (country, year), if any. */
  function FindLorenzRow(rows: seq<LorenzRow>, countryId: int, year: int): (r: Option<LorenzRow>)
    ensures r.None? <==> forall i :: 0 <= i < |rows| ==> !(rows[i].countryId == countryId && rows[i].year == year)
    ensures r.Some? ==> r.value in rows && r.value.countryId == countryId && r.value.year == year
  {
    if |rows| == 0 then None
    else if rows[0].countryId == countryId && rows[0].year == year then Some(rows[0])
    else
      var r := FindLorenzRow(rows[1..], countryId, year);
      assert forall i :: 1 <= i < |rows| ==> rows[i] == rows[1..][i - 1];
      r
  }

  /** A non-empty missing list names a quintile without a value. */
  lemma MissingHasWitness(db: Db, countryId: int, year: int)
    requires CollectQuintiles(db, countryId, LorenzIndicators, year).2 != []
    ensures exists k :: 0 <= k < |LorenzIndicators| && QuintileValue(db, countryId, LorenzIndicators[k].code, year).None?
  {
    var missing := CollectQuintiles(db, countryId, LorenzIndicators, year).2;
    CollectMissingIff(db, countryId, LorenzIndicators, year, missing[0]);
    assert missing[0] in missing;
    var k :| 0 <= k < |LorenzIndicators| && LorenzIndicators[k].code == missing[0] &&
      QuintileValue(db, countryId, missing[0], year).None?;
  }

  /** Looking up after appending a row finds an earlier match first, else the new row. */
  lemma {:induction false} FindLorenzRowAppend(rows: seq<LorenzRow>, row: LorenzRow, countryId: int, year: int)
    ensures FindLorenzRow(rows + [row], countryId, year) ==
      if FindLorenzRow(rows, countryId, year).Some? then FindLorenzRow(rows, countryId, year)
      else if row.countryId == countryId && row.year == year then Some(row)
      else None
  {
    if |rows| > 0 {
      assert (rows + [row])[1..] == rows[1..] + [row];
      FindLorenzRowAppend(rows[1..], row, countryId, year);
    }
  }

  /** `get_or_create_lorenz_result`: the cached row when present; otherwise, when all five
      quintiles are available, a freshly computed result that is also stored. */
  function GetOrCreateLorenzResult(round4: real -> real, db: Db, countryCode: string, year: int): (r: (Option<LorenzResult>, Db))
    ensures FindCountry(db, Text.Upper(countryCode)).None? ==> r == (None, db)
    ensures r.0.None? ==> r.1 == db
    ensures FindCountry(db, Text.Upper(countryCode)).Some? ==>
      var c := FindCountry(db, Text.Upper(countryCode)).value;
      && (FindLorenzRow(db.lorenz, c.id, year).Some? ==>
            var row := FindLorenzRow(db.lorenz, c.id, year).value;
            r == (Some(LorenzResult(c.code, row.year, row.points, row.gini)), db))
      && (FindLorenzRow(db.lorenz, c.id, year).None? ==>
        (r.0.Some? <==> forall k :: 0 <= k < |LorenzIndicators| ==> QuintileValue(db, c.id, LorenzIndicators[k].code, year).Some?)
        && (r.0.Some? ==>
              var shares := seq(5, k requires 0 <= k < 5 => QuintileValue(db, c.id, LorenzIndicators[k].code, year).value);
              && r.0.value == LorenzResult(c.code, year, BuildLorenzPoints(round4, shares, QuintilePopulations()),
                                           ComputeGini(BuildLorenzPoints(round4, shares, QuintilePopulations())))
              && r.1 == db.(lorenz := db.lorenz + [LorenzRow(c.id, year, r.0.value.points, r.0.value.gini)])))
  {
    match FindCountry(db, Text.Upper(countryCode))
    case None => (None, db)
    case Some(c) =>
      match FindLorenzRow(db.lorenz, c.id, year)
      case Some(row) => (Some(LorenzResult(c.code, row.year, row.points, row.gini)), db)
      case None =>
        var seg := LorenzSegments(db, countryCode, year).value;
        if seg.missing != [] then
          MissingHasWitness(db, c.id, year);
          (None, db)
        else
          var shares := seq(5, k requires 0 <= k < 5 => QuintileValue(db, c.id, LorenzIndicators[k].code, year).value);
          assert seg.shares == shares;
          assert seg.populations == QuintilePopulations();
          var points := BuildLorenzPoints(round4, seg.shares, seg.populations);
          var gini := ComputeGini(points);
          (Some(LorenzResult(c.code, year, points, gini)), db.(lorenz := db.lorenz + [LorenzRow(c.id, year, points, gini)]))
  }

  /** A second call returns the same result from the cache and stores nothing more. */
  lemma GetOrCreateIsIdempotent(round4: real -> real, db: Db, countryCode: string, year: int)
    requires GetOrCreateLorenzResult(round4, db, countryCode, year).0.Some?
    ensures var res, db1 := GetOrCreateLorenzResult(round4, db, countryCode, year).0, GetOrCreateLorenzResult(round4, db, countryCode, year).1;
      GetOrCreateLorenzResult(round4, db1, countryCode, year) == (res, db1)
  {
    var (res, db1) := GetOrCreateLorenzResult(round4, db, countryCode, year);
    var c := FindCountry(db, Text.Upper(countryCode)).value;
    if FindLorenzRow(db.lorenz, c.id, year).None? {
      FindLorenzRowAppend(db.lorenz, db1.lorenz[|db1.lorenz| - 1], c.id, year);
    }
  }
}
