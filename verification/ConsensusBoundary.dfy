/**
  One-sided consensus boundaries: every pair of pivots seeds a line, the pivots near that
  line are refitted once, and equal inlier sets share one result.
 */
module ConsensusBoundary {
  import opened Market
  import opened Wrappers
  import opened ConsensusFit
  import A = Arithmetic

  datatype Side = Upper | Lower

  /** The pivots a boundary was seeded from. */
  datatype Seed = Seed(first: int, second: int)

  /** How well the refitted line holds its evidence. */
  datatype Fit = Fit(meanResidual: real, maxResidual: real, excursions: nat, bodyHolds: bool)

  /** `first` and `last` are the ends of the support. */
  datatype Boundary = Boundary(
    side: Side, seed: Seed, line: Line, support: seq<int>, clusters: seq<seq<int>>, first: int, last: int, fit: Fit)

  /** What a touch cluster looks at between two contacts: the body edge on the boundary's side, and the ATR. */
  datatype Bar = Bar(bodyEdge: real, atr: Option<real>)

  /** One side's evidence: pivots in index order with a positive ATR, inside the frame. Whether bodies
      respect a line between two candles of the frame is decided elsewhere. */
  datatype Evidence = Evidence(
    side: Side, points: seq<Point>, bars: seq<Bar>, band: real, separation: real, bodyHolds: (Line, int, int) -> bool)
  {
    predicate Valid() {
      && Increasing(points)
      && (forall k :: 0 <= k < |points| ==> 0.0 < points[k].atr && 0 <= points[k].index < |bars|)
      && 0.0 < band < separation
    }
  }

  predicate Before(a: Seed, b: Seed) {
    a.first < b.first || (a.first == b.first && a.second < b.second)
  }

  // ----- inliers of a seed -----

  function SeedLine(p: Point, q: Point): Line
    requires p.index < q.index
  {
    var slope := (q.price - p.price) / (q.index - p.index) as real;
    Line(slope, p.price - slope * p.index as real)
  }

  predicate InBand(line: Line, p: Point, band: real)
    requires p.atr != 0.0
  {
    Abs(Residual(line, p)) / p.atr <= band
  }

  predicate Measured(ps: seq<Point>) {
    forall k :: 0 <= k < |ps| ==> 0.0 < ps[k].atr
  }

  function Inliers(ps: seq<Point>, line: Line, band: real): (r: seq<Point>)
    requires Measured(ps)
    ensures Measured(r)
    ensures forall p :: p in r <==> p in ps && 0.0 < p.atr && InBand(line, p, band)
    ensures Increasing(ps) ==> Increasing(r)
  {
    if ps == [] then []
    else
      var rest := Inliers(ps[1..], line, band);
      if InBand(line, ps[0], band) then [ps[0]] + rest else rest
  }

  function Indices(ps: seq<Point>): (r: seq<int>)
    ensures |r| == |ps|
    ensures forall k :: 0 <= k < |ps| ==> r[k] == ps[k].index
  {
    seq(|ps|, k requires 0 <= k < |ps| => ps[k].index)
  }

  lemma SeedLinePassesThrough(p: Point, q: Point)
    requires p.index < q.index
    ensures Residual(SeedLine(p, q), p) == 0.0 && Residual(SeedLine(p, q), q) == 0.0
  {
  }

  /** Both anchors are inliers of their own seed, so no seed has fewer than two. */
  lemma AnchorsAreInliers(e: Evidence, i: int, j: int)
    requires e.Valid() && 0 <= i < j < |e.points|
    ensures var inliers := Inliers(e.points, SeedLine(e.points[i], e.points[j]), e.band);
            e.points[i] in inliers && e.points[j] in inliers && 2 <= |inliers|
  {
    var p, q := e.points[i], e.points[j];
    var line := SeedLine(p, q);
    SeedLinePassesThrough(p, q);
    OnLineIsInBand(line, p, e.band);
    OnLineIsInBand(line, q, e.band);
    TwoMembers(Inliers(e.points, line, e.band), p, q);
  }

  lemma OnLineIsInBand(line: Line, p: Point, band: real)
    requires p.atr != 0.0 && Residual(line, p) == 0.0 && 0.0 <= band
    ensures InBand(line, p, band)
  {
    A.DivideBack(0.0, p.atr);
  }

  lemma TwoMembers(ps: seq<Point>, p: Point, q: Point)
    requires p in ps && q in ps && p != q
    ensures 2 <= |ps|
  {
  }

  /** Pivots have distinct candles, so the indices name the points. */
  lemma IndicesNamePoints(ps: seq<Point>, a: seq<Point>, b: seq<Point>)
    requires Increasing(ps) && (forall p :: p in a ==> p in ps) && (forall p :: p in b ==> p in ps)
    requires Indices(a) == Indices(b)
    ensures a == b
  {
    forall k | 0 <= k < |a| ensures a[k] == b[k] {
      assert a[k] in ps && b[k] in ps;
      assert Indices(a)[k] == Indices(b)[k];
    }
  }

  // ----- touch clusters -----

  /** The amount as seen by the side: unchanged for upper, negated for lower. */
  function SideSigned(side: Side, x: real): real {
    if side.Upper? then x else -x
  }

  /** Between two contacts some whole body retreats inward by more than the separation band. */
  predicate Separated(e: Evidence, line: Line, previous: int, current: int) {
    exists k :: previous + 1 <= k < current && 0 <= k < |e.bars| && e.bars[k].atr.Some?
      && e.separation * e.bars[k].atr.value < SideSigned(e.side, ValueAt(line, k as real) - e.bars[k].bodyEdge)
  }

  function Separation(e: Evidence, line: Line): (int, int) -> bool {
    (previous, current) => Separated(e, line, previous, current)
  }

  /** Adjacent contacts share a cluster unless they are cut apart. */
  function TouchClusters(cut: (int, int) -> bool, indices: seq<int>): (r: seq<seq<int>>)
    requires indices != []
    ensures r != [] && forall k :: 0 <= k < |r| ==> r[k] != []
  {
    var n := |indices| - 1;
    if n == 0 then [[indices[0]]]
    else
      var before := TouchClusters(cut, indices[..n]);
      if cut(indices[n - 1], indices[n]) then before + [[indices[n]]]
      else before[|before| - 1 := before[|before| - 1] + [indices[n]]]
  }

  /** The source's pass over adjacent contacts. */
  method BuildTouchClusters(cut: (int, int) -> bool, indices: seq<int>) returns (clusters: seq<seq<int>>)
    requires indices != []
    ensures clusters == TouchClusters(cut, indices)
  {
    clusters := [[indices[0]]];
    for n := 1 to |indices|
      invariant clusters == TouchClusters(cut, indices[..n])
    {
      assert indices[..n + 1][..n] == indices[..n];
      ghost var before := clusters;
      if cut(indices[n - 1], indices[n]) {
        clusters := clusters + [[]];
      }
      var last := |clusters| - 1;
      clusters := clusters[last := clusters[last] + [indices[n]]];
      assert [] + [indices[n]] == [indices[n]];
      assert cut(indices[n - 1], indices[n]) ==> clusters == before + [[indices[n]]];
    }
    assert indices[..|indices|] == indices;
  }

  function Flatten(clusters: seq<seq<int>>): seq<int> {
    if clusters == [] then [] else Flatten(clusters[..|clusters| - 1]) + clusters[|clusters| - 1]
  }

  /** The cluster that holds the k-th contact. */
  function ClusterOf(clusters: seq<seq<int>>, k: nat): nat
    requires k < |Flatten(clusters)|
  {
    var n := |clusters| - 1;
    if k < |Flatten(clusters[..n])| then ClusterOf(clusters[..n], k) else n
  }

  lemma ExtendLast(before: seq<seq<int>>, x: int)
    requires before != []
    ensures var m := |before| - 1;
            Flatten(before[m := before[m] + [x]]) == Flatten(before) + [x]
  {
    var m := |before| - 1;
    assert before[m := before[m] + [x]][..m] == before[..m];
    assert Flatten(before[..m]) + (before[m] + [x]) == (Flatten(before[..m]) + before[m]) + [x];
  }

  lemma ClustersAppended(before: seq<seq<int>>, x: int)
    requires before != []
    ensures var clusters := before + [[x]];
            && Flatten(clusters) == Flatten(before) + [x] && ClusterOf(clusters, |Flatten(before)|) == |before|
            && forall k :: 0 <= k < |Flatten(before)| ==> ClusterOf(clusters, k) == ClusterOf(before, k)
  {
    assert (before + [[x]])[..|before|] == before;
  }

  lemma ClusterExtended(before: seq<seq<int>>, x: int)
    requires before != []
    ensures var m := |before| - 1;
            var clusters := before[m := before[m] + [x]];
            && Flatten(clusters) == Flatten(before) + [x] && ClusterOf(clusters, |Flatten(before)|) == m
            && forall k :: 0 <= k < |Flatten(before)| ==> ClusterOf(clusters, k) == ClusterOf(before, k)
  {
    ExtendLast(before, x);
    var m := |before| - 1;
    assert before[m := before[m] + [x]][..m] == before[..m];
  }

  /** The k-th contact is in the cluster of the one before it, or opens the next if the two are cut apart. */
  predicate OpensWhenCut(cut: (int, int) -> bool, indices: seq<int>, clusters: seq<seq<int>>, k: int)
    requires Flatten(clusters) == indices && 1 <= k < |indices|
  {
    ClusterOf(clusters, k) == ClusterOf(clusters, k - 1) + if cut(indices[k - 1], indices[k]) then 1 else 0
  }

  lemma StillOpens(cut: (int, int) -> bool, indices: seq<int>, before: seq<seq<int>>, clusters: seq<seq<int>>)
    requires var n := |indices| - 1;
             && 0 < n && Flatten(before) == indices[..n] && Flatten(clusters) == indices
             && (forall k :: 0 <= k < n ==> ClusterOf(clusters, k) == ClusterOf(before, k))
             && (forall k :: 1 <= k < n ==> OpensWhenCut(cut, indices[..n], before, k))
             && OpensWhenCut(cut, indices, clusters, n)
    ensures forall k :: 1 <= k < |indices| ==> OpensWhenCut(cut, indices, clusters, k)
  {
    forall k | 1 <= k < |indices| ensures OpensWhenCut(cut, indices, clusters, k) {
      if k < |indices| - 1 { assert OpensWhenCut(cut, indices[..|indices| - 1], before, k); }
    }
  }

  /** The clusters are the contacts in order, and a contact opens a new cluster exactly when it is cut
      from the one before it. */
  lemma {:induction false} ClustersCutAtSeparations(cut: (int, int) -> bool, indices: seq<int>)
    requires indices != []
    ensures Flatten(TouchClusters(cut, indices)) == indices
    ensures ClusterOf(TouchClusters(cut, indices), 0) == 0
    ensures ClusterOf(TouchClusters(cut, indices), |indices| - 1) == |TouchClusters(cut, indices)| - 1
    ensures forall k :: 1 <= k < |indices| ==> OpensWhenCut(cut, indices, TouchClusters(cut, indices), k)
  {
    var n, clusters := |indices| - 1, TouchClusters(cut, indices);
    if n == 0 {
      assert [[indices[0]]][..0] == [];
    } else {
      var init := indices[..n];
      var before := TouchClusters(cut, init);
      ClustersCutAtSeparations(cut, init);
      assert indices == init + [indices[n]];
      if cut(indices[n - 1], indices[n]) { ClustersAppended(before, indices[n]); } else { ClusterExtended(before, indices[n]); }
      StillOpens(cut, indices, before, clusters);
    }
  }

  // ----- one boundary per inlier set -----

  /** The refitted line keeps every inlier in the band and stays positive over its support. */
  predicate Acceptable(inliers: seq<Point>, band: real)
    requires 2 <= |inliers| && Increasing(inliers) && Measured(inliers)
  {
    var line := Refit(inliers);
    && (forall k :: 0 <= k < |inliers| ==> InBand(line, inliers[k], band))
    && 0.0 < ValueAt(line, inliers[0].index as real)
    && 0.0 < ValueAt(line, inliers[|inliers| - 1].index as real)
  }

  function SeedInliers(e: Evidence, i: int, j: int): (r: seq<Point>)
    requires e.Valid() && 0 <= i < j < |e.points|
    ensures Increasing(r) && Measured(r) && forall p :: p in r ==> p in e.points
  {
    Inliers(e.points, SeedLine(e.points[i], e.points[j]), e.band)
  }

  function SeedOf(e: Evidence, i: int, j: int): Seed
    requires 0 <= i < j < |e.points|
  {
    Seed(e.points[i].index, e.points[j].index)
  }

  /** The residual in units of the ATR at the pivot. */
  function Distance(line: Line, p: Point): real {
    if p.atr == 0.0 then 0.0 else Abs(Residual(line, p)) / p.atr
  }

  function Largest(ps: seq<Point>, line: Line): (r: real)
    requires ps != []
    ensures forall k :: 0 <= k < |ps| ==> Distance(line, ps[k]) <= r
    ensures exists k :: 0 <= k < |ps| && Distance(line, ps[k]) == r
  {
    var n := |ps| - 1;
    if n == 0 then Distance(line, ps[0]) else Max(Largest(ps[..n], line), Distance(line, ps[n]))
  }

  /** Pivots of the support interval that stick out of the band. */
  function Excursions(e: Evidence, line: Line, ps: seq<Point>, first: int, last: int): nat {
    if ps == [] then 0
    else
      var n := |ps| - 1;
      Excursions(e, line, ps[..n], first, last)
      + if && first <= ps[n].index <= last && ps[n].atr != 0.0
           && e.band < SideSigned(e.side, Residual(line, ps[n])) / ps[n].atr then 1 else 0
  }

  function FitOf(e: Evidence, line: Line, inliers: seq<Point>): Fit
    requires inliers != []
  {
    var first, last := inliers[0].index, inliers[|inliers| - 1].index;
    Fit(Sum(inliers, p => Distance(line, p)) / |inliers| as real, Largest(inliers, line),
        Excursions(e, line, e.points, first, last), e.bodyHolds(line, first, last))
  }

  function Fitted(e: Evidence, seed: Seed, inliers: seq<Point>): Boundary
    requires 2 <= |inliers| && Increasing(inliers)
  {
    FittedOn(e, seed, inliers, Refit(inliers))
  }

  function FittedOn(e: Evidence, seed: Seed, inliers: seq<Point>, line: Line): Boundary
    requires inliers != []
  {
    var indices := Indices(inliers);
    Boundary(e.side, seed, line, indices, TouchClusters(Separation(e, line), indices), indices[0], indices[|indices| - 1],
             FitOf(e, line, inliers))
  }

  /** The boundary a seed leads to, if its refit is acceptable. */
  function Assess(e: Evidence, i: int, j: int): Option<Boundary>
    requires e.Valid() && 0 <= i < j < |e.points|
  {
    var inliers := SeedInliers(e, i, j);
    if |inliers| < 2 || !Acceptable(inliers, e.band) then None else Some(Fitted(e, SeedOf(e, i, j), inliers))
  }

  /** Seeds with the same inliers lead to the same boundary, or both to none. */
  lemma SupportDeterminesBoundary(e: Evidence, i: int, j: int, k: int, l: int)
    requires e.Valid() && 0 <= i < j < |e.points| && 0 <= k < l < |e.points|
    requires Indices(SeedInliers(e, i, j)) == Indices(SeedInliers(e, k, l))
    ensures Assess(e, i, j).Some? <==> Assess(e, k, l).Some?
    ensures Assess(e, i, j).Some? ==> Assess(e, k, l).value == Assess(e, i, j).value.(seed := SeedOf(e, k, l))
  {
    IndicesNamePoints(e.points, SeedInliers(e, i, j), SeedInliers(e, k, l));
  }

  // The seed table: what each pair of pivots leads to.

  type Table = (int, int) -> Option<Boundary>

  function SeedTable(e: Evidence): Table
    requires e.Valid()
  {
    (i: int, j: int) => if 0 <= i < j < |e.points| then Assess(e, i, j) else None
  }

  ghost predicate ComesFrom(table: Table, b: Boundary) {
    exists i, j :: table(i, j) == Some(b)
  }

  predicate Holds(found: map<seq<int>, Boundary>, b: Boundary) {
    b.support in found && !Before(b.seed, found[b.support].seed)
  }

  ghost predicate Keyed(table: Table, found: map<seq<int>, Boundary>) {
    forall s :: s in found ==> found[s].support == s && ComesFrom(table, found[s])
  }

  /** One boundary per inlier set, with the lexicographically earliest seed; no enumeration order in sight. */
  ghost predicate BySupport(table: Table, found: map<seq<int>, Boundary>) {
    && Keyed(table, found)
    && forall i, j :: table(i, j).Some? ==> Holds(found, table(i, j).value)
  }

  ghost predicate SeenUpTo(table: Table, found: map<seq<int>, Boundary>, i: int, j: int) {
    forall k, l :: (k < i || (k == i && l < j)) && table(k, l).Some? ==> Holds(found, table(k, l).value)
  }

  method BuildBoundaries(e: Evidence) returns (found: map<seq<int>, Boundary>)
    requires e.Valid()
    ensures BySupport(SeedTable(e), found)
  {
    found := map[];
    ghost var table := SeedTable(e);
    var n := |e.points|;
    for i := 0 to n
      invariant Keyed(table, found)
      invariant SeenUpTo(table, found, i, 0)
    {
      assert forall l :: l <= i ==> table(i, l) == None;
      for j := i + 1 to n
        invariant Keyed(table, found)
        invariant SeenUpTo(table, found, i, j)
      {
        found := Consider(e, table, found, i, j);
      }
      assert forall l :: n <= l ==> table(i, l) == None;
    }
    assert forall k, l :: n <= k ==> table(k, l) == None;
  }

  /** One turn of the source's seed loop. */
  method Consider(e: Evidence, ghost table: Table, found: map<seq<int>, Boundary>, i: int, j: int)
    returns (next: map<seq<int>, Boundary>)
    requires e.Valid() && 0 <= i < j < |e.points|
    requires table(i, j) == Assess(e, i, j)
    requires Keyed(table, found) && SeenUpTo(table, found, i, j)
    ensures Keyed(table, next) && SeenUpTo(table, next, i, j + 1)
  {
    next := found;
    var inliers := SeedInliers(e, i, j);
    if |inliers| < 2 {
      Skipped(table, found, i, j);
      return;
    }
    var seed, indices := SeedOf(e, i, j), Indices(inliers);
    if indices in found && !Before(seed, found[indices].seed) {
      Skipped(table, found, i, j);
      return;
    }
    if !Acceptable(inliers, e.band) {
      Skipped(table, found, i, j);
      return;
    }
    var b := Build(e, seed, inliers);
    Recorded(table, found, b, i, j);
    next := found[indices := b];
  }

  lemma Skipped(table: Table, found: map<seq<int>, Boundary>, i: int, j: int)
    requires SeenUpTo(table, found, i, j) && (table(i, j).Some? ==> Holds(found, table(i, j).value))
    ensures SeenUpTo(table, found, i, j + 1)
  {
  }

  lemma Recorded(table: Table, found: map<seq<int>, Boundary>, b: Boundary, i: int, j: int)
    requires Keyed(table, found) && SeenUpTo(table, found, i, j) && table(i, j) == Some(b)
    requires b.support in found ==> Before(b.seed, found[b.support].seed)
    ensures Keyed(table, found[b.support := b]) && SeenUpTo(table, found[b.support := b], i, j + 1)
  {
  }

  method Build(e: Evidence, seed: Seed, inliers: seq<Point>) returns (b: Boundary)
    requires 2 <= |inliers| && Increasing(inliers)
    ensures b == Fitted(e, seed, inliers)
  {
    b := BuildOn(e, seed, inliers, Refit(inliers));
  }

  method BuildOn(e: Evidence, seed: Seed, inliers: seq<Point>, line: Line) returns (b: Boundary)
    requires inliers != []
    ensures b == FittedOn(e, seed, inliers, line)
  {
    var indices := Indices(inliers);
    var clusters := BuildTouchClusters(Separation(e, line), indices);
    b := Boundary(e.side, seed, line, indices, clusters, indices[0], indices[|indices| - 1], FitOf(e, line, inliers));
  }

  /** The table's entries carry their own seeds, and pivots have distinct candles. */
  ghost predicate Seeded(points: seq<Point>, table: Table) {
    && Increasing(points)
    && forall i, j :: table(i, j).Some? ==>
         0 <= i < j < |points| && table(i, j).value.seed == Seed(points[i].index, points[j].index)
  }

  lemma SameEntry(points: seq<Point>, table: Table,
                  a: map<seq<int>, Boundary>, b: map<seq<int>, Boundary>, s: seq<int>)
    requires Seeded(points, table) && BySupport(table, a) && BySupport(table, b) && s in a
    ensures s in b && a[s] == b[s]
  {
    var i, j :| table(i, j) == Some(a[s]);
    assert Holds(b, a[s]);
    var k, l :| table(k, l) == Some(b[s]);
    assert Holds(a, b[s]);
    assert points[i].index == points[k].index && points[j].index == points[l].index;
    assert i == k && j == l;
  }

  lemma TableIsSeeded(e: Evidence)
    requires e.Valid()
    ensures Seeded(e.points, SeedTable(e))
  {
  }

  /** The result does not depend on the order in which seeds are enumerated. */
  lemma BySupportIsUnique(e: Evidence, a: map<seq<int>, Boundary>, b: map<seq<int>, Boundary>)
    requires e.Valid() && BySupport(SeedTable(e), a) && BySupport(SeedTable(e), b)
    ensures a == b
  {
    var table := SeedTable(e);
    TableIsSeeded(e);
    forall s | s in a ensures s in b && a[s] == b[s] { SameEntry(e.points, table, a, b, s); }
    forall s | s in b ensures s in a && a[s] == b[s] { SameEntry(e.points, table, b, a, s); }
  }

  lemma {:induction false} SumIsBetween(ps: seq<Point>, f: Point -> real, top: real)
    requires forall k :: 0 <= k < |ps| ==> 0.0 <= f(ps[k]) <= top
    ensures 0.0 <= Sum(ps, f) <= |ps| as real * top
  {
    if ps != [] {
      forall k | 0 <= k < |ps[1..]| ensures 0.0 <= f(ps[1..][k]) <= top {
        assert ps[1..][k] == ps[k + 1];
      }
      SumIsBetween(ps[1..], f, top);
    }
  }

  lemma MeanIsBetween(ps: seq<Point>, f: Point -> real, top: real)
    requires ps != [] && forall k :: 0 <= k < |ps| ==> 0.0 <= f(ps[k]) <= top
    ensures 0.0 <= Sum(ps, f) / |ps| as real <= top
  {
    SumIsBetween(ps, f, top);
    var n := |ps| as real;
    A.QuotientOrder(Sum(ps, f), n, 0.0);
    A.QuotientOrder(Sum(ps, f), n, top);
    A.Commutes(n, top);
  }

  lemma FittedHolds(e: Evidence, seed: Seed, inliers: seq<Point>)
    requires 2 <= |inliers| && Increasing(inliers) && Measured(inliers) && Acceptable(inliers, e.band)
    ensures var b := Fitted(e, seed, inliers);
            && b.support == Indices(inliers) && Flatten(b.clusters) == b.support
            && b.first == b.support[0] && b.last == b.support[|b.support| - 1]
            && 0.0 <= b.fit.meanResidual <= b.fit.maxResidual <= e.band
  {
    var line, indices := Refit(inliers), Indices(inliers);
    ClustersCutAtSeparations(Separation(e, line), indices);
    DistancesAreBounded(line, inliers, e.band);
  }

  lemma DistancesAreBounded(line: Line, inliers: seq<Point>, band: real)
    requires inliers != [] && Measured(inliers)
    requires forall k :: 0 <= k < |inliers| ==> InBand(line, inliers[k], band)
    ensures 0.0 <= Sum(inliers, p => Distance(line, p)) / |inliers| as real <= Largest(inliers, line) <= band
  {
    forall k | 0 <= k < |inliers| ensures 0.0 <= Distance(line, inliers[k]) <= band {
      assert InBand(line, inliers[k], band);
      NotNegative(Abs(Residual(line, inliers[k])), inliers[k].atr);
    }
    MeanIsBetween(inliers, p => Distance(line, p), Largest(inliers, line));
  }

  lemma NotNegative(x: real, y: real)
    requires 0.0 <= x && 0.0 < y
    ensures 0.0 <= x / y
  {
  }

  /** What a reader may rely on in every boundary found: its line is the least-squares fit of its
      inliers, each of which is still in the band, and its clusters cut the support in order. */
  lemma BoundaryIsSupported(e: Evidence, found: map<seq<int>, Boundary>, s: seq<int>)
      returns (inliers: seq<Point>)
    requires e.Valid() && BySupport(SeedTable(e), found) && s in found
    ensures 2 <= |inliers| && Increasing(inliers) && Measured(inliers) && Indices(inliers) == s
    ensures forall p :: p in inliers ==> p in e.points
    ensures Acceptable(inliers, e.band) && found[s].line == Refit(inliers)
    ensures Flatten(found[s].clusters) == s && found[s].first == s[0] && found[s].last == s[|s| - 1]
    ensures 0.0 <= found[s].fit.meanResidual <= found[s].fit.maxResidual <= e.band
  {
    var i, j :| SeedTable(e)(i, j) == Some(found[s]);
    inliers := SeedInliers(e, i, j);
    FittedHolds(e, SeedOf(e, i, j), inliers);
  }
}
