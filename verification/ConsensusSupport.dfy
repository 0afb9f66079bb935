/**
  A side's boundaries read off its pivots and bars: which pivots support a line, when two contacts are apart,
  which pivots stick out, and which seed is kept.
 */
module ConsensusSupport {
  import opened Market
  import opened Wrappers
  import opened ConsensusFit
  import opened ConsensusBoundary
  import A = Arithmetic

  function LineAt(line: Line, i: int): real {
    line.slope * i as real + line.intercept
  }

  /** How far a pivot lies above the line. */
  function Above(line: Line, p: Point): real {
    p.price - LineAt(line, p.index)
  }

  /** Within the band, in units of the ATR at the pivot. */
  predicate Near(line: Line, p: Point, band: real) {
    -(band * p.atr) <= Above(line, p) <= band * p.atr
  }

  lemma BandIsNear(line: Line, p: Point, band: real)
    requires 0.0 < p.atr
    ensures InBand(line, p, band) <==> Near(line, p, band)
  {
    assert Residual(line, p) == Above(line, p);
    A.QuotientOrder(Abs(Residual(line, p)), p.atr, band);
  }

  /** The line through two pivots. */
  predicate JoinsSeed(line: Line, p: Point, q: Point) {
    Above(line, p) == 0.0 && Above(line, q) == 0.0
  }

  /** A seed's inliers are exactly the pivots near the line through its anchors. */
  lemma InliersAreNear(e: Evidence, i: int, j: int)
    requires e.Valid() && 0 <= i < j < |e.points|
    ensures JoinsSeed(SeedLine(e.points[i], e.points[j]), e.points[i], e.points[j])
    ensures forall p :: p in SeedInliers(e, i, j) <==> p in e.points && Near(SeedLine(e.points[i], e.points[j]), p, e.band)
  {
    var line := SeedLine(e.points[i], e.points[j]);
    SeedLinePassesThrough(e.points[i], e.points[j]);
    assert Residual(line, e.points[i]) == Above(line, e.points[i]) && Residual(line, e.points[j]) == Above(line, e.points[j]);
    forall p | p in e.points ensures InBand(line, p, e.band) <==> Near(line, p, e.band) {
      BandIsNear(line, p, e.band);
    }
  }

  /** The refitted line keeps every inlier near and is a price at both ends of the support. */
  predicate Keeps(line: Line, inliers: seq<Point>, band: real)
    requires inliers != []
  {
    && (forall p :: p in inliers ==> Near(line, p, band))
    && 0.0 < LineAt(line, inliers[0].index) && 0.0 < LineAt(line, inliers[|inliers| - 1].index)
  }

  lemma AcceptableKeeps(inliers: seq<Point>, band: real)
    requires 2 <= |inliers| && Increasing(inliers) && Measured(inliers)
    ensures Acceptable(inliers, band) <==> Keeps(Refit(inliers), inliers, band)
  {
    var line := Refit(inliers);
    AllNear(line, inliers, band);
    LineAtIs(line, inliers[0].index);
    LineAtIs(line, inliers[|inliers| - 1].index);
  }

  lemma LineAtIs(line: Line, i: int)
    ensures LineAt(line, i) == ValueAt(line, i as real)
  {
  }

  lemma AllNear(line: Line, inliers: seq<Point>, band: real)
    requires Measured(inliers)
    ensures (forall k :: 0 <= k < |inliers| ==> InBand(line, inliers[k], band)) <==> forall p :: p in inliers ==> Near(line, p, band)
  {
    forall k | 0 <= k < |inliers| ensures InBand(line, inliers[k], band) <==> Near(line, inliers[k], band) {
      BandIsNear(line, inliers[k], band);
    }
    if forall p :: p in inliers ==> Near(line, p, band) {
      forall k | 0 <= k < |inliers| ensures InBand(line, inliers[k], band) { assert inliers[k] in inliers; }
    }
  }

  /** Between the two contacts some body lies inside the line by more than the separation. */
  predicate LeavesBetween(e: Evidence, line: Line, previous: int, current: int) {
    exists k :: previous < k < current && 0 <= k < |e.bars| && LeavesAt(e, line, k)
  }

  predicate LeavesAt(e: Evidence, line: Line, k: int)
    requires 0 <= k < |e.bars|
  {
    e.bars[k].atr.Some? &&
    e.separation * e.bars[k].atr.value <
      (if e.side.Upper? then LineAt(line, k) - e.bars[k].bodyEdge else e.bars[k].bodyEdge - LineAt(line, k))
  }

  lemma SeparatedLeaves(e: Evidence, line: Line, previous: int, current: int)
    ensures Separated(e, line, previous, current) <==> LeavesBetween(e, line, previous, current)
  {
    forall k | 0 <= k < |e.bars|
      ensures LeavesAt(e, line, k) <==>
              e.bars[k].atr.Some?
              && e.separation * e.bars[k].atr.value < SideSigned(e.side, ValueAt(line, k as real) - e.bars[k].bodyEdge)
    {
    }
    if k :| previous + 1 <= k < current && 0 <= k < |e.bars| && e.bars[k].atr.Some?
            && e.separation * e.bars[k].atr.value < SideSigned(e.side, ValueAt(line, k as real) - e.bars[k].bodyEdge) {
      assert LeavesAt(e, line, k);
    }
  }

  /** Pivots of the support interval beyond the band on the outer side. */
  function StickingOut(e: Evidence, line: Line, first: int, last: int, n: int): set<int>
    requires n <= |e.points|
  {
    set k | 0 <= k < n && SticksOut(e, line, first, last, k)
  }

  predicate SticksOut(e: Evidence, line: Line, first: int, last: int, k: int) {
    && 0 <= k < |e.points| && first <= e.points[k].index <= last
    && e.band * e.points[k].atr < (if e.side.Upper? then Above(line, e.points[k]) else -Above(line, e.points[k]))
  }

  lemma {:induction false} ExcursionsStickOut(e: Evidence, line: Line, first: int, last: int, n: nat)
    requires e.Valid() && n <= |e.points|
    ensures Excursions(e, line, e.points[..n], first, last) == |StickingOut(e, line, first, last, n)|
  {
    if n == 0 {
      assert StickingOut(e, line, first, last, 0) == {};
    } else {
      var ps, k := e.points[..n], n - 1;
      ExcursionsStickOut(e, line, first, last, k);
      assert ps[..k] == e.points[..k] && ps[k] == e.points[k];
      OutIsStickingOut(e, line, first, last, k);
      OneMore(StickingOut(e, line, first, last, k), StickingOut(e, line, first, last, n), k, SticksOut(e, line, first, last, k));
    }
  }

  lemma OneMore(before: set<int>, now: set<int>, k: int, holds: bool)
    requires k !in before && forall i {:trigger i in now} {:trigger i in before} :: i in now <==> i in before || (i == k && holds)
    ensures |now| == |before| + if holds then 1 else 0
  {
    var more := before + if holds then {k} else {};
    forall i ensures i in now <==> i in more {}
    assert now == more;
  }

  lemma OutIsStickingOut(e: Evidence, line: Line, first: int, last: int, k: int)
    requires e.Valid() && 0 <= k < |e.points|
    ensures SticksOut(e, line, first, last, k) <==>
            && first <= e.points[k].index <= last
            && e.points[k].atr != 0.0 && e.band < SideSigned(e.side, Residual(line, e.points[k])) / e.points[k].atr
  {
    var p := e.points[k];
    assert Residual(line, p) == Above(line, p);
    A.QuotientOrder(SideSigned(e.side, Residual(line, p)), p.atr, e.band);
  }

  /** A boundary is reported for an inlier set exactly when some seed has it and its refit keeps it. */
  lemma ReportedWhenKept(e: Evidence, found: map<seq<int>, Boundary>, s: seq<int>)
    requires e.Valid() && BySupport(SeedTable(e), found)
    ensures s in found <==> exists i, j :: Supports(e, s, i, j)
  {
    if s in found {
      var i, j :| SeedTable(e)(i, j) == Some(found[s]);
      SupportsIffAssessed(e, s, i, j);
    }
    if i, j :| Supports(e, s, i, j) {
      SupportsIffAssessed(e, s, i, j);
      assert Holds(found, SeedTable(e)(i, j).value);
    }
  }

  /** The seed's inliers are this set, and the line refitted to them keeps them. */
  predicate Supports(e: Evidence, s: seq<int>, i: int, j: int)
    requires e.Valid()
  {
    && 0 <= i < j < |e.points| && Indices(SeedInliers(e, i, j)) == s && 2 <= |s|
    && Keeps(Refit(SeedInliers(e, i, j)), SeedInliers(e, i, j), e.band)
  }

  lemma SupportsIffAssessed(e: Evidence, s: seq<int>, i: int, j: int)
    requires e.Valid()
    ensures Supports(e, s, i, j) <==> SeedTable(e)(i, j).Some? && SeedTable(e)(i, j).value.support == s
  {
    if 0 <= i < j < |e.points| { AssessedWhenKept(e, i, j); }
  }

  lemma AssessedWhenKept(e: Evidence, i: int, j: int)
    requires e.Valid() && 0 <= i < j < |e.points|
    ensures Assess(e, i, j).Some? <==>
            2 <= |SeedInliers(e, i, j)| && Keeps(Refit(SeedInliers(e, i, j)), SeedInliers(e, i, j), e.band)
    ensures Assess(e, i, j).Some? ==> Assess(e, i, j).value.support == Indices(SeedInliers(e, i, j))
  {
    if 2 <= |SeedInliers(e, i, j)| { AcceptableKeeps(SeedInliers(e, i, j), e.band); }
  }

  /** And it carries the earliest of those seeds. */
  lemma EarliestSeedIsKept(e: Evidence, found: map<seq<int>, Boundary>, s: seq<int>, i: int, j: int)
    requires e.Valid() && BySupport(SeedTable(e), found) && Supports(e, s, i, j)
    ensures s in found
    ensures var kept := found[s].seed;
            kept.first < e.points[i].index || (kept.first == e.points[i].index && kept.second <= e.points[j].index)
  {
    SupportsIffAssessed(e, s, i, j);
    HeldSeedIsEarlier(e, found, i, j);
  }

  lemma HeldSeedIsEarlier(e: Evidence, found: map<seq<int>, Boundary>, i: int, j: int)
    requires e.Valid() && BySupport(SeedTable(e), found) && 0 <= i < j < |e.points| && SeedTable(e)(i, j).Some?
    ensures var b := SeedTable(e)(i, j).value;
            && b.seed == SeedOf(e, i, j) && b.support in found && !Before(b.seed, found[b.support].seed)
  {
    assert Holds(found, SeedTable(e)(i, j).value);
  }

  /** What a reported boundary measures: contacts are cut where a body leaves the line in between, excursions are the pivots
      that stick out, and the residuals are distances in ATR. */
  lemma BoundaryMeasures(e: Evidence, found: map<seq<int>, Boundary>, s: seq<int>) returns (inliers: seq<Point>)
    requires e.Valid() && BySupport(SeedTable(e), found) && s in found
    ensures inliers != [] && Measured(inliers) && Indices(inliers) == s
    ensures var b := found[s];
            && b.side == e.side && b.clusters == TouchClusters(Separation(e, b.line), s)
            && b.fit.excursions == |StickingOut(e, b.line, b.first, b.last, |e.points|)|
            && b.fit.bodyHolds == e.bodyHolds(b.line, b.first, b.last)
            && MeanOf(b.fit.meanResidual, b.line, inliers)
            && (forall k :: 0 <= k < |inliers| ==> Near(b.line, inliers[k], b.fit.maxResidual))
            && exists k :: 0 <= k < |inliers| && AtDistance(b.line, inliers[k], b.fit.maxResidual)
  {
    var i, j :| SeedTable(e)(i, j) == Some(found[s]);
    inliers := SeedInliers(e, i, j);
    FitMeasures(e, found[s], SeedOf(e, i, j), inliers);
  }

  lemma FitMeasures(e: Evidence, b: Boundary, seed: Seed, inliers: seq<Point>)
    requires e.Valid() && 2 <= |inliers| && Increasing(inliers) && Measured(inliers) && b == Fitted(e, seed, inliers)
    ensures b.fit.excursions == |StickingOut(e, b.line, b.first, b.last, |e.points|)|
    ensures MeanOf(b.fit.meanResidual, b.line, inliers)
    ensures forall k :: 0 <= k < |inliers| ==> Near(b.line, inliers[k], b.fit.maxResidual)
    ensures exists k :: 0 <= k < |inliers| && AtDistance(b.line, inliers[k], b.fit.maxResidual)
  {
    assert e.points[..|e.points|] == e.points;
    ExcursionsStickOut(e, b.line, b.first, b.last, |e.points|);
    MeanIs(b.line, inliers);
    LargestIs(b.line, inliers);
  }

  lemma MeanIs(line: Line, ps: seq<Point>)
    requires ps != []
    ensures MeanOf(Sum(ps, p => Distance(line, p)) / |ps| as real, line, ps)
  {
    A.DivideBack(Sum(ps, p => Distance(line, p)), |ps| as real);
  }

  lemma LargestIs(line: Line, ps: seq<Point>)
    requires ps != [] && Measured(ps)
    ensures forall k :: 0 <= k < |ps| ==> Near(line, ps[k], Largest(ps, line))
    ensures exists k :: 0 <= k < |ps| && AtDistance(line, ps[k], Largest(ps, line))
  {
    forall k | 0 <= k < |ps| ensures Near(line, ps[k], Largest(ps, line)) {
      DistanceIs(line, ps[k]);
      BandIsNear(line, ps[k], Largest(ps, line));
    }
    var k :| 0 <= k < |ps| && Distance(line, ps[k]) == Largest(ps, line);
    DistanceIs(line, ps[k]);
  }

  predicate AtDistance(line: Line, p: Point, r: real) {
    r * p.atr == Above(line, p) || r * p.atr == -Above(line, p)
  }

  ghost predicate MeanOf(mean: real, line: Line, ps: seq<Point>)
    requires ps != []
  {
    mean * |ps| as real == Sum(ps, p => Distance(line, p))
  }

  lemma DistanceIs(line: Line, p: Point)
    requires 0.0 < p.atr
    ensures AtDistance(line, p, Distance(line, p)) && 0.0 <= Distance(line, p)
    ensures forall r :: Distance(line, p) <= r <==> InBand(line, p, r)
  {
    assert Residual(line, p) == Above(line, p);
    A.DivideBack(Abs(Residual(line, p)), p.atr);
    A.QuotientOrder(Abs(Residual(line, p)), p.atr, 0.0);
  }
}
