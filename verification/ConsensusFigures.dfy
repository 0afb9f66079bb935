/**
  The figures of an envelope pair and its terminal width evidence, counted from the candles and the two lines.
 */
module ConsensusFigures {
  import opened Market
  import opened Wrappers
  import opened Ranking
  import opened ConsensusBoundary
  import opened ConsensusPair
  import P = ConsensusPair
  import T = ConsensusTerminal
  import A = Arithmetic

  // ----- contacts -----

  predicate InEpisode(index: int, start: int, end: int) {
    start <= index <= end
  }

  /** Clusters with a contact inside the episode. */
  function Touched(clusters: seq<seq<int>>, start: int, end: int): set<int> {
    set n | 0 <= n < |clusters| && exists k :: 0 <= k < |clusters[n]| && InEpisode(clusters[n][k], start, end)
  }

  lemma {:induction false} ClipKeeps(cluster: seq<int>, start: int, end: int)
    ensures Clip(cluster, start, end) != [] <==> exists k :: 0 <= k < |cluster| && InEpisode(cluster[k], start, end)
    ensures forall x :: x in Clip(cluster, start, end) <==> x in cluster && InEpisode(x, start, end)
    ensures forall k :: 0 <= k < |cluster| && InEpisode(cluster[k], start, end)
                        && (forall j :: 0 <= j < k ==> !InEpisode(cluster[j], start, end)) ==>
              Clip(cluster, start, end) != [] && Clip(cluster, start, end)[0] == cluster[k]
  {
    if cluster != [] {
      var rest := cluster[1..];
      ClipKeeps(rest, start, end);
      assert cluster == [cluster[0]] + rest;
      if !InEpisode(cluster[0], start, end) {
        if k :| 0 <= k < |cluster| && InEpisode(cluster[k], start, end) { assert rest[k - 1] == cluster[k]; }
        if k :| 0 <= k < |rest| && InEpisode(rest[k], start, end) { assert cluster[k + 1] == rest[k]; }
        forall k | 0 <= k < |cluster| && InEpisode(cluster[k], start, end)
                   && (forall j :: 0 <= j < k ==> !InEpisode(cluster[j], start, end))
          ensures Clip(cluster, start, end) != [] && Clip(cluster, start, end)[0] == cluster[k]
        {
          assert rest[k - 1] == cluster[k];
          forall j | 0 <= j < k - 1 ensures !InEpisode(rest[j], start, end) { assert cluster[j + 1] == rest[j]; }
        }
      }
    }
  }

  /** The event of one cluster: its first contact inside the episode, with all of them. */
  predicate IsEventOf(e: Event, b: Boundary, start: int, end: int) {
    exists n :: 0 <= n < |b.clusters| && e.side == b.side && e.cluster == Clip(b.clusters[n], start, end)
                && e.cluster != [] && e.index == e.cluster[0]
  }

  lemma {:induction false} SideEventsAre(side: Side, clusters: seq<seq<int>>, start: int, end: int)
    ensures |SideEvents(side, clusters, start, end)| == |Touched(clusters, start, end)|
    ensures forall e :: e in SideEvents(side, clusters, start, end) ==> e.side == side
  {
    if clusters != [] {
      var m := |clusters| - 1;
      var init, last := clusters[..m], clusters[m];
      SideEventsAre(side, init, start, end);
      ClipKeeps(last, start, end);
      TouchedGrows(clusters, start, end);
    }
  }

  lemma TouchedGrows(clusters: seq<seq<int>>, start: int, end: int)
    requires clusters != []
    ensures var m := |clusters| - 1;
            |Touched(clusters, start, end)| == |Touched(clusters[..m], start, end)|
              + if exists k :: 0 <= k < |clusters[m]| && InEpisode(clusters[m][k], start, end) then 1 else 0
  {
    var m := |clusters| - 1;
    var before, now := Touched(clusters[..m], start, end), Touched(clusters, start, end);
    forall n ensures n in now <==> n in before || (n == m && m in now) {
      if 0 <= n < m { assert clusters[..m][n] == clusters[n]; }
    }
    OneMoreStep(before, now, m, m in now);
  }

  lemma {:induction false} CountOfSide(events: seq<Event>, more: seq<Event>, side: Side)
    requires forall e :: e in events ==> e.side == side
    ensures Count(events, side) == |events|
    ensures forall other :: other != side ==> Count(events, other) == 0
  {
    if events != [] {
      CountOfSide(events[..|events| - 1], more, side);
      assert events == events[..|events| - 1] + [events[|events| - 1]];
    }
  }

  lemma {:induction false} CountOfSum(a: seq<Event>, b: seq<Event>, side: Side)
    ensures Count(a + b, side) == Count(a, side) + Count(b, side)
  {
    if b == [] {
      assert a + b == a;
    } else {
      CountOfSum(a, b[..|b| - 1], side);
      assert (a + b)[..|a + b| - 1] == a + b[..|b| - 1];
    }
  }

  lemma {:induction false} CountInserted(rows: seq<Event>, x: Event, side: Side)
    ensures Count(Insert(ByTime(), rows, x), side) == Count(rows, side) + if x.side == side then 1 else 0
  {
    if rows != [] {
      var init, last := rows[..|rows| - 1], rows[|rows| - 1];
      if ByTime()(last, x) {
        assert (rows + [x])[..|rows|] == rows;
      } else {
        CountInserted(init, x, side);
        var inserted := Insert(ByTime(), init, x);
        assert (inserted + [last])[..|inserted|] == inserted;
      }
    }
  }

  lemma {:induction false} CountSorted(rows: seq<Event>, side: Side)
    ensures Count(Sorted(ByTime(), rows), side) == Count(rows, side)
  {
    if rows != [] {
      CountSorted(rows[..|rows| - 1], side);
      CountInserted(Sorted(ByTime(), rows[..|rows| - 1]), rows[|rows| - 1], side);
    }
  }

  function TouchedOn(side: Side, b: Boundary, start: int, end: int): nat {
    if b.side == side then |Touched(b.clusters, start, end)| else 0
  }

  /** Contacts of a side are the clusters of its boundary that touch inside the episode. */
  lemma ContactsAreClusters(upper: Boundary, lower: Boundary, start: int, end: int, side: Side)
    ensures Count(EventsOf(upper, lower, start, end), side) == TouchedOn(side, upper, start, end) + TouchedOn(side, lower, start, end)
  {
    var u, l := SideEvents(upper.side, upper.clusters, start, end), SideEvents(lower.side, lower.clusters, start, end);
    SideEventsAre(upper.side, upper.clusters, start, end);
    SideEventsAre(lower.side, lower.clusters, start, end);
    CountOfSide(u, [], upper.side);
    CountOfSide(l, [], lower.side);
    CountOfSum(u, l, side);
    CountSorted(u + l, side);
  }

  /** Contacts are listed by candle, upper before lower on one candle, and each is the first contact of a cluster inside the
      episode with the others of that cluster inside it. */
  lemma ContactsInTime(upper: Boundary, lower: Boundary, start: int, end: int, i: int, j: int)
    requires 0 <= i < j < |EventsOf(upper, lower, start, end)|
    ensures var (a, b) := (EventsOf(upper, lower, start, end)[i], EventsOf(upper, lower, start, end)[j]);
            a.index <= b.index && (a.index == b.index && b.side.Upper? ==> a.side.Upper?)
            && (a.index == b.index && a.side == b.side ==> TupleNotAfter(a.cluster, b.cluster))
  {
    ByTimeIsTotal();
    SortedIsRanked(ByTime(), SideEvents(upper.side, upper.clusters, start, end) + SideEvents(lower.side, lower.clusters, start, end));
  }

  lemma ContactsAreFirst(upper: Boundary, lower: Boundary, start: int, end: int, e: Event)
    requires e in EventsOf(upper, lower, start, end)
    ensures IsEventOf(e, upper, start, end) || IsEventOf(e, lower, start, end)
  {
    var u, l := SideEvents(upper.side, upper.clusters, start, end), SideEvents(lower.side, lower.clusters, start, end);
    ByTimeIsTotal();
    SortedIsRanked(ByTime(), u + l);
    SameMembers(EventsOf(upper, lower, start, end), u + l);
    if e in u { EventHasCluster(upper, upper.clusters, start, end, e); } else { EventHasCluster(lower, lower.clusters, start, end, e); }
  }

  lemma {:induction false} EventHasCluster(b: Boundary, clusters: seq<seq<int>>, start: int, end: int, e: Event)
    requires e in SideEvents(b.side, clusters, start, end)
    ensures IsEventOf(e, b.(clusters := clusters), start, end)
  {
    var m := |clusters| - 1;
    if e in SideEvents(b.side, clusters[..m], start, end) {
      EventHasCluster(b, clusters[..m], start, end, e);
      var n :| 0 <= n < m && e.cluster == Clip(clusters[..m][n], start, end);
      assert clusters[n] == clusters[..m][n];
    } else {
      assert clusters[m] == clusters[m];
    }
  }

  // ----- swings and traversals -----

  function LineAt(line: Line, i: int): real {
    line.slope * i as real + line.intercept
  }

  /** A close inside the channel, away from this side by both minima. */
  predicate Away(p: Swing, side: Side, upper: real, lower: real, close: real, atr: Option<real>) {
    && atr.Some? && lower < upper
    && var away := if side.Upper? then upper - close else close - lower;
       p.minWidthFraction * (upper - lower) <= away && p.minAtr * atr.value <= away
  }

  /** A candle within the touch band of this side. */
  predicate Close(p: Swing, side: Side, upper: real, lower: real, high: real, low: real, atr: Option<real>) {
    && atr.Some? && lower < upper
    && if side.Upper? then upper - p.touchBand * atr.value <= high else low <= lower + p.touchBand * atr.value
  }

  predicate MovesAway(h: History, upper: Line, lower: Line, p: Swing, side: Side, i: int)
    requires |h.atr| == |h.rows|
  {
    0 <= i < |h.rows| && Away(p, side, LineAt(upper, i), LineAt(lower, i), h.rows[i].close, h.atr[i])
  }

  predicate ComesNear(h: History, upper: Line, lower: Line, p: Swing, side: Side, i: int)
    requires |h.atr| == |h.rows|
  {
    0 <= i < |h.rows| && Close(p, side, LineAt(upper, i), LineAt(lower, i), h.rows[i].high, h.rows[i].low, h.atr[i])
  }

  /** From one contact to the next, price moved away from the first side. */
  predicate Swung(h: History, upper: Line, lower: Line, p: Swing, a: Event, b: Event)
    requires |h.atr| == |h.rows|
  {
    a.index < b.index && exists i :: a.index <= i <= b.index && MovesAway(h, upper, lower, p, a.side, i)
  }

  /** It also started near the first side and came near the other one. */
  predicate Crossed(h: History, upper: Line, lower: Line, p: Swing, a: Event, b: Event)
    requires |h.atr| == |h.rows|
  {
    && Swung(h, upper, lower, p, a, b) && a.side != b.side
    && (exists k :: 0 <= k < |a.cluster| && a.cluster[k] < b.index && ComesNear(h, upper, lower, p, a.side, a.cluster[k]))
    && exists i :: a.index <= i <= b.index && ComesNear(h, upper, lower, p, b.side, i)
  }

  lemma BarIs(b: P.Bar, p: Swing, side: Side)
    ensures Departs(b, side, p) <==> Away(p, side, b.upper, b.lower, b.close, b.atr)
    ensures InZone(b, side, p) <==> Close(p, side, b.upper, b.lower, b.high, b.low, b.atr)
  {
  }

  lemma BarsShow(h: History, upper: Line, lower: Line, p: Swing, side: Side, i: int)
    requires |h.atr| == |h.rows| && 0 <= i < |h.rows|
    ensures Departs(BarsOf(h, upper, lower)[i], side, p) <==> MovesAway(h, upper, lower, p, side, i)
    ensures InZone(BarsOf(h, upper, lower)[i], side, p) <==> ComesNear(h, upper, lower, p, side, i)
  {
    BarIs(BarsOf(h, upper, lower)[i], p, side);
    assert BarsOf(h, upper, lower)[i]
        == P.Bar.Bar(h.rows[i].high, h.rows[i].low, h.rows[i].close, h.atr[i], LineAt(upper, i), LineAt(lower, i));
  }

  lemma StepsAre(h: History, upper: Line, lower: Line, p: Swing, a: Event, b: Event)
    requires |h.atr| == |h.rows| && InBars(BarsOf(h, upper, lower), a) && InBars(BarsOf(h, upper, lower), b)
    ensures IsSwing(BarsOf(h, upper, lower), p, a, b) <==> Swung(h, upper, lower, p, a, b)
    ensures IsSwing(BarsOf(h, upper, lower), p, a, b) && Reaches(BarsOf(h, upper, lower), p, a, b) <==> Crossed(h, upper, lower, p, a, b)
  {
    var bars := BarsOf(h, upper, lower);
    forall i, side | 0 <= i < |bars|
      ensures Departs(bars[i], side, p) <==> MovesAway(h, upper, lower, p, side, i)
      ensures InZone(bars[i], side, p) <==> ComesNear(h, upper, lower, p, side, i)
    {
      BarsShow(h, upper, lower, p, side, i);
    }
  }

  predicate SwungNext(h: History, upper: Line, lower: Line, p: Swing, events: seq<Event>, k: int)
    requires |h.atr| == |h.rows|
  {
    0 <= k < |events| - 1 && Swung(h, upper, lower, p, events[k], events[k + 1])
  }

  predicate CrossedNext(h: History, upper: Line, lower: Line, p: Swing, events: seq<Event>, k: int)
    requires |h.atr| == |h.rows|
  {
    0 <= k < |events| - 1 && Crossed(h, upper, lower, p, events[k], events[k + 1])
  }

  /** Positions k < n - 1 whose event and the next make such a step. */
  function SwungAt(h: History, upper: Line, lower: Line, p: Swing, events: seq<Event>, n: int): set<int>
    requires |h.atr| == |h.rows| && n <= |events|
  {
    set k | 0 <= k < n - 1 && SwungNext(h, upper, lower, p, events, k)
  }

  function CrossedAt(h: History, upper: Line, lower: Line, p: Swing, events: seq<Event>, n: int): set<int>
    requires |h.atr| == |h.rows| && n <= |events|
  {
    set k | 0 <= k < n - 1 && CrossedNext(h, upper, lower, p, events, k)
  }

  lemma {:induction false} StepsAreCounted(h: History, upper: Line, lower: Line, p: Swing, events: seq<Event>, n: nat)
    requires |h.atr| == |h.rows| && n <= |events| && AllInBars(BarsOf(h, upper, lower), events)
    ensures Swings(BarsOf(h, upper, lower), p, events, n) == |SwungAt(h, upper, lower, p, events, n)|
    ensures Traversals(BarsOf(h, upper, lower), p, events, n) == |CrossedAt(h, upper, lower, p, events, n)|
  {
    if n < 2 {
      assert SwungAt(h, upper, lower, p, events, n) == {} && CrossedAt(h, upper, lower, p, events, n) == {};
    } else {
      var k := n - 2;
      StepsAreCounted(h, upper, lower, p, events, n - 1);
      StepsAre(h, upper, lower, p, events[k], events[k + 1]);
      OneMoreStep(SwungAt(h, upper, lower, p, events, n - 1), SwungAt(h, upper, lower, p, events, n), k,
                  Swung(h, upper, lower, p, events[k], events[k + 1]));
      OneMoreStep(CrossedAt(h, upper, lower, p, events, n - 1), CrossedAt(h, upper, lower, p, events, n), k,
                  Crossed(h, upper, lower, p, events[k], events[k + 1]));
    }
  }

  lemma OneMoreStep(before: set<int>, now: set<int>, k: int, holds: bool)
    requires k !in before && forall i :: i in now <==> i in before || (i == k && holds)
    ensures |now| == |before| + if holds then 1 else 0
  {
    var more := before + if holds then {k} else {};
    forall i ensures i in now <==> i in more { assert i in now <==> i in before || (i == k && holds); }
    assert now == more;
  }

  // ----- the published figures -----

  /** Candles of the episode inside the support of both boundaries. */
  predicate Supported(upper: Boundary, lower: Boundary, start: int, end: int, i: int) {
    start <= i <= end && upper.first <= i <= upper.last && lower.first <= i <= lower.last
  }

  lemma SupportIs(upper: Boundary, lower: Boundary, start: int, end: int)
    ensures SharesSupport(upper, lower, start, end) <==> exists i :: Supported(upper, lower, start, end, i)
    ensures SharesSupport(upper, lower, start, end) ==>
              forall i :: Supported(upper, lower, start, end, i) <==> SharedStart(upper, lower, start) <= i <= SharedEnd(upper, lower, end)
  {
    if SharesSupport(upper, lower, start, end) {
      assert Supported(upper, lower, start, end, SharedStart(upper, lower, start));
    }
  }

  /** Why a pair is invalid, each reason by what it reports. */
  lemma ReasonsAre(upper: Boundary, lower: Boundary, start: int, end: int)
    ensures var r := InvalidReasons(upper, lower, start, end);
            && (SideMismatch in r <==> upper.side.Lower? || lower.side.Upper?)
            && (OrderInvalidAtStart in r <==> LineAt(upper.line, start) <= LineAt(lower.line, start))
            && (OrderInvalidAtEnd in r <==> LineAt(upper.line, end) <= LineAt(lower.line, end))
            && (NoSharedSupport in r <==> !SharesSupport(upper, lower, start, end))
  {
    assert Width(upper.line, lower.line, start as real) == LineAt(upper.line, start) - LineAt(lower.line, start);
    assert Width(upper.line, lower.line, end as real) == LineAt(upper.line, end) - LineAt(lower.line, end);
  }

  /** The lines of a pair reported as crossing meet in one point inside the episode. */
  lemma CrossingIsTheMeeting(upper: Boundary, lower: Boundary, start: int, end: int)
    ensures CrossInside in InvalidReasons(upper, lower, start, end) <==>
              upper.line.slope != lower.line.slope
              && exists x: real :: start as real <= x <= end as real && ValueAt(upper.line, x) == ValueAt(lower.line, x)
  {
    var turn := upper.line.slope - lower.line.slope;
    if turn != 0.0 {
      var at := Intersection(upper.line, lower.line).value;
      WidthVanishesAt(upper.line, lower.line, at);
      WidthIsLinear(upper.line, lower.line, at);
      forall x: real | ValueAt(upper.line, x) == ValueAt(lower.line, x) ensures x == at {
        WidthIsLinear(upper.line, lower.line, x);
        OneZero(turn, upper.line.intercept - lower.line.intercept, x, at);
      }
    }
  }

  lemma OneZero(turn: real, base: real, x: real, y: real)
    requires turn != 0.0 && turn * x + base == 0.0 && turn * y + base == 0.0
    ensures x == y
  {
    if x < y { A.StrictlyMonotone(turn, x, y); }
    if y < x { A.StrictlyMonotone(turn, y, x); }
  }

  /** Every figure of a pair, counted: contacts by clusters, swings and traversals by the candles between contacts, fractions
      by what they divide, support by the candles both boundaries cover, fit by the two boundaries. */
  lemma FiguresAre(h: History, upper: Boundary, lower: Boundary, start: int, end: int, p: PairParams)
    requires Episode(h, start, end)
    ensures var m, events := Measure(h, upper, lower, start, end, p), EventsOf(upper, lower, start, end);
            && m.upperCount == TouchedOn(Upper, upper, start, end) + TouchedOn(Upper, lower, start, end)
            && m.lowerCount == TouchedOn(Lower, upper, start, end) + TouchedOn(Lower, lower, start, end)
            && (m.bothUsed <==> p.minClusters <= m.upperCount && p.minClusters <= m.lowerCount)
            && m.alternating == |Alternating(events)|
            && m.swings == |SwungAt(h, upper.line, lower.line, p.swing, events, |events|)|
            && m.traversals == |CrossedAt(h, upper.line, lower.line, p.swing, events, |events|)|
            && m.invalid == InvalidReasons(upper, lower, start, end)
  {
    var bars, events := BarsOf(h, upper.line, lower.line), EventsOf(upper, lower, start, end);
    EventsAreInBars(bars, upper, lower, start, end);
    ContactsAreClusters(upper, lower, start, end, Upper);
    ContactsAreClusters(upper, lower, start, end, Lower);
    StepsAreCounted(h, upper.line, lower.line, p.swing, events, |events|);
  }

  /** Balance is the smaller count over the larger, reach the traversals over the swings, coverage the shared span over the
      episode, each nothing where there is nothing to divide by. */
  predicate Divide(m: Metrics, episode: int) {
    BalanceDivides(m.balance, m.upperCount, m.lowerCount) && ReachDivides(m.reach, m.traversals, m.swings)
    && CoverageDivides(m.coverage, m.sharedSpan, episode)
  }

  predicate BalanceDivides(balance: real, u: nat, l: nat) {
    && balance * (if u < l then l else u) as real == (if u < l then u else l) as real
    && (u == 0 && l == 0 ==> balance == 0.0)
  }

  predicate ReachDivides(reach: real, traversals: nat, swings: nat) {
    if swings == 0 then reach == 0.0 else reach * swings as real == traversals as real
  }

  predicate CoverageDivides(coverage: real, span: int, episode: int) {
    coverage * episode as real == span as real
  }

  lemma FractionsAre(h: History, upper: Boundary, lower: Boundary, start: int, end: int, p: PairParams)
    requires Episode(h, start, end)
    ensures Divide(Measure(h, upper, lower, start, end, p), end - start)
  {
    var bars, events := BarsOf(h, upper.line, lower.line), EventsOf(upper, lower, start, end);
    EventsAreInBars(bars, upper, lower, start, end);
    ReportedFractions(CountsOf(bars, p.swing, events), upper, lower, start, end, p.minClusters);
  }

  lemma ReportedFractions(c: Counts, upper: Boundary, lower: Boundary, start: int, end: int, minClusters: int)
    requires start < end
    ensures Divide(Reported(c, upper, lower, start, end, minClusters), end - start)
  {
    BalanceIs(c.upper, c.lower);
    ReachIs(c.traversals, c.swings);
    CoverageIs(Reported(c, upper, lower, start, end, minClusters).sharedSpan, end - start);
  }

  lemma BalanceIs(u: nat, l: nat)
    ensures BalanceDivides(Balance(u, l), u, l)
  {
    var most, least := if u >= l then u else l, if u >= l then l else u;
    if most != 0 { A.DivideBack(least as real, most as real); }
  }

  lemma ReachIs(traversals: nat, swings: nat)
    ensures ReachDivides(if swings == 0 then 0.0 else traversals as real / swings as real, traversals, swings)
  {
    if swings != 0 { A.DivideBack(traversals as real, swings as real); }
  }

  lemma CoverageIs(span: int, episode: int)
    requires 0 < episode
    ensures CoverageDivides(span as real / episode as real, span, episode)
  {
    A.DivideBack(span as real, episode as real);
  }

  lemma SupportAndFitAre(h: History, upper: Boundary, lower: Boundary, start: int, end: int, p: PairParams)
    requires Episode(h, start, end)
    ensures var m := Measure(h, upper, lower, start, end, p);
            && (m.sharedEnd.None? <==> forall i :: !Supported(upper, lower, start, end, i))
            && (m.sharedEnd.None? ==> m.sharedSpan == 0)
            && (m.sharedEnd.Some? ==> forall i :: Supported(upper, lower, start, end, i) <==>
                                                  m.sharedEnd.value - m.sharedSpan <= i <= m.sharedEnd.value)
            && m.bodySides == (if upper.fit.bodyHolds && lower.fit.bodyHolds then 2
                               else if upper.fit.bodyHolds || lower.fit.bodyHolds then 1 else 0)
            && m.meanResidual == upper.fit.meanResidual + lower.fit.meanResidual
            && upper.fit.maxResidual <= m.maxResidual && lower.fit.maxResidual <= m.maxResidual
            && (m.maxResidual == upper.fit.maxResidual || m.maxResidual == lower.fit.maxResidual)
            && m.excursions == upper.fit.excursions + lower.fit.excursions
  {
    SupportIs(upper, lower, start, end);
  }

  // ----- the terminal window -----

  function WidthAt(upper: Line, lower: Line, i: int): real {
    LineAt(upper, i) - LineAt(lower, i)
  }

  /** Highest high less lowest low of the k-th segment of a window. */
  function SegmentRange(rows: seq<Row>, at: int, size: int, k: int): real
    requires 0 <= at + k * size && 0 < size && at + k * size + size <= |rows|
  {
    MaxHigh(rows, at + k * size, at + k * size + size) - MinLow(rows, at + k * size, at + k * size + size)
  }

  predicate SegmentFits(rows: seq<Row>, at: int, size: int, k: int) {
    0 < size && 0 <= at + k * size && at + k * size + size <= |rows|
  }

  /** Shrinking ranges: none larger than the one before by more than the tolerance, and the last at most the permitted part of
      the first. */
  predicate Shrinks(ranges: seq<real>, p: T.Parameters)
    requires ranges != []
  {
    && 0.0 < ranges[0] && ranges[|ranges| - 1] <= p.maxRatio * ranges[0]
    && forall k :: 0 <= k < |ranges| - 1 ==> StepContracts(ranges, p.tolerance, k)
  }

  predicate StepContracts(series: seq<real>, tolerance: real, k: int) {
    0 <= k < |series| - 1 && series[k + 1] <= series[k] * (1.0 + tolerance)
  }

  /** The ranges of the n segments of a window. */
  ghost predicate Measures(rows: seq<Row>, at: int, size: int, n: int, ranges: seq<real>) {
    |ranges| == n && forall k :: 0 <= k < n ==> SegmentFits(rows, at, size, k) && ranges[k] == SegmentRange(rows, at, size, k)
  }

  lemma {:induction false} RangesAre(rows: seq<Row>, at: int, size: int, n: int, k: int)
    requires T.WindowInside(rows, at, size, n) && 0 <= k < n
    ensures SegmentFits(rows, at, size, k)
    ensures T.RealizedRanges(rows, at, size, n)[k] == SegmentRange(rows, at, size, k)
    decreases n
  {
    T.NextSegmentInside(rows, at, size, n);
    if k == 0 {
      assert k * size == 0;
    } else {
      RangesAre(rows, at + size, size, n - 1, k - 1);
      assert (k - 1) * size == k * size - size;
    }
  }

  lemma {:induction false} AllStepsContract(series: seq<real>, tolerance: real)
    requires series != []
    ensures T.Contracting(series, tolerance) <= |series| - 1
    ensures T.Contracting(series, tolerance) == |series| - 1 <==>
            forall k :: 0 <= k < |series| - 1 ==> StepContracts(series, tolerance, k)
  {
    if |series| >= 2 {
      var rest := series[1..];
      AllStepsContract(rest, tolerance);
      assert StepContracts(series, tolerance, 0) <==> series[1] <= series[0] * (1.0 + tolerance);
      if forall k :: 0 <= k < |rest| - 1 ==> StepContracts(rest, tolerance, k) {
        forall k | 0 < k < |series| - 1 ensures StepContracts(series, tolerance, k) {
          assert StepContracts(rest, tolerance, k - 1);
          StepMoves(series, tolerance, k);
        }
      } else {
        var k :| 0 <= k < |rest| - 1 && !StepContracts(rest, tolerance, k);
        StepMoves(series, tolerance, k + 1);
        assert !StepContracts(series, tolerance, k + 1);
      }
    }
  }

  lemma StepMoves(series: seq<real>, tolerance: real, k: int)
    requires 1 <= k && series != []
    ensures StepContracts(series[1..], tolerance, k - 1) <==> StepContracts(series, tolerance, k)
  {
    if k < |series| - 1 { assert series[1..][k] == series[k + 1] && series[1..][k - 1] == series[k]; }
  }

  /** The realized test of a window is that the ranges of its segments shrink. */
  lemma RealizedShrinks(rows: seq<Row>, at: int, p: T.Parameters)
    requires T.ValidParameters(p) && 0 <= at && at + p.windowBars <= |rows|
    ensures RealizedIs(rows, at, p)
  {
    T.SegmentsFill(p);
    var size, n := T.SegmentSize(p), p.segments;
    var ranges := T.RealizedRanges(rows, at, size, n);
    forall k | 0 <= k < n ensures SegmentFits(rows, at, size, k) && ranges[k] == SegmentRange(rows, at, size, k) {
      RangesAre(rows, at, size, n, k);
    }
    RangesShrink(ranges, p);
    assert Measures(rows, at, size, n, ranges);
  }

  /** There are such ranges, and the test holds exactly if they shrink. */
  ghost predicate RealizedIs(rows: seq<Row>, at: int, p: T.Parameters)
    requires T.ValidParameters(p) && 0 <= at && at + p.windowBars <= |rows|
  {
    exists ranges: seq<real> ::
      && ranges != [] && Measures(rows, at, p.windowBars / p.segments, p.segments, ranges)
      && (T.RealizedOk(rows, at, p) <==> Shrinks(ranges, p))
  }

  lemma RangesShrink(ranges: seq<real>, p: T.Parameters)
    requires ranges != []
    ensures T.RealizedContracts(ranges, p) <==> Shrinks(ranges, p)
  {
    AllStepsContract(ranges, p.tolerance);
    if 0.0 < ranges[0] { A.QuotientOrder(ranges[|ranges| - 1], ranges[0], p.maxRatio); }
  }

  /** The terminal evidence in widths and segments: too short a window, a width that is not positive, or the ratio of the last
      width to the first, the opening of the lines, and a trend. Persistent compression is the permitted ratio one bar earlier
      with both windows shrinking, expansion the ratio reached. */
  lemma TerminalIs(rows: seq<Row>, upper: Line, lower: Line, start: int, end: int, p: T.Parameters)
    requires T.ValidParameters(p) && T.InsideFrame(rows, start, end)
    ensures var e, first := T.TerminalEvidence(rows, upper, lower, start, end, p), end - p.windowBars + 1;
            && (e == T.InsufficientWindow <==> first <= start)
            && (e == T.NonPositiveWidth <==> start < first && exists i :: first - 1 <= i <= end && WidthAt(upper, lower, i) <= 0.0)
            && (e.Measured? ==> 0 <= first - 1 && MeasuredIs(rows, upper, lower, first, end, p, e)
                                && RealizedIs(rows, first, p) && RealizedIs(rows, first - 1, p))
  {
    var e, first := T.TerminalEvidence(rows, upper, lower, start, end, p), end - p.windowBars + 1;
    var w := T.Widths(upper, lower);
    forall i: int ensures w(i) == WidthAt(upper, lower, i) {}
    if e.Measured? {
      MeasuredMeans(rows, upper, lower, start, end, p);
      RealizedShrinks(rows, first, p);
      RealizedShrinks(rows, first - 1, p);
    }
  }

  ghost predicate MeasuredIs(rows: seq<Row>, upper: Line, lower: Line, first: int, end: int, p: T.Parameters, e: T.Evidence)
    requires T.ValidParameters(p) && e.Measured? && 0 <= first - 1 && first + p.windowBars <= |rows|
  {
    && e.ratio * WidthAt(upper, lower, first) == WidthAt(upper, lower, end)
    && e.slope == upper.slope - lower.slope
    && (e.trend == T.PersistentCompression <==>
          && WidthAt(upper, lower, end - 1) <= p.maxRatio * WidthAt(upper, lower, first - 1)
          && T.RealizedOk(rows, first, p) && T.RealizedOk(rows, first - 1, p))
    && (e.fullOk <==> WidthAt(upper, lower, end) <= p.maxRatio * WidthAt(upper, lower, first) && T.RealizedOk(rows, first, p))
    && (e.shiftedOk <==>
          WidthAt(upper, lower, end - 1) <= p.maxRatio * WidthAt(upper, lower, first - 1) && T.RealizedOk(rows, first - 1, p))
    && (e.trend == T.Expansion <==> p.minRatio * WidthAt(upper, lower, first) <= WidthAt(upper, lower, end))
  }

  lemma MeasuredMeans(rows: seq<Row>, upper: Line, lower: Line, start: int, end: int, p: T.Parameters)
    requires T.ValidParameters(p) && T.InsideFrame(rows, start, end)
    requires T.TerminalEvidence(rows, upper, lower, start, end, p).Measured?
    ensures 0 <= end - p.windowBars
    ensures MeasuredIs(rows, upper, lower, end - p.windowBars + 1, end, p, T.TerminalEvidence(rows, upper, lower, start, end, p))
  {
    MeasuredRatio(rows, upper, lower, start, end, p);
    MeasuredTests(rows, upper, lower, start, end, p);
    T.TrendFollowsBoundaries(rows, upper, lower, start, end, p);
    T.ExpansionIsTheRatio(rows, upper, lower, start, end, p);
    T.PersistenceIsShiftedRatio(rows, upper, lower, start, end, p);
  }

  lemma MeasuredTests(rows: seq<Row>, upper: Line, lower: Line, start: int, end: int, p: T.Parameters)
    requires T.ValidParameters(p) && T.InsideFrame(rows, start, end)
    requires T.TerminalEvidence(rows, upper, lower, start, end, p).Measured?
    ensures var e, first, w := T.TerminalEvidence(rows, upper, lower, start, end, p), end - p.windowBars + 1, T.Widths(upper, lower);
            && 0 <= first - 1 && first + p.windowBars <= |rows| && w(first) != 0.0 && w(first - 1) != 0.0
            && (e.fullOk <==> w(end) / w(first) <= p.maxRatio && T.RealizedOk(rows, first, p))
            && (e.shiftedOk <==> w(end - 1) / w(first - 1) <= p.maxRatio && T.RealizedOk(rows, first - 1, p))
  {
    T.MeasuredWindow(rows, upper, lower, start, end, p);
    T.RatioImpliesSteps(rows, upper, lower, end - p.windowBars + 1, p);
    T.RatioImpliesSteps(rows, upper, lower, end - p.windowBars, p);
  }

  lemma MeasuredRatio(rows: seq<Row>, upper: Line, lower: Line, start: int, end: int, p: T.Parameters)
    requires T.ValidParameters(p) && T.InsideFrame(rows, start, end)
    requires T.TerminalEvidence(rows, upper, lower, start, end, p).Measured?
    ensures RatiosAre(upper, lower, end - p.windowBars + 1, end, T.TerminalEvidence(rows, upper, lower, start, end, p).ratio, p)
  {
    T.MeasuredWindow(rows, upper, lower, start, end, p);
    WidthRatios(upper, lower, end - p.windowBars + 1, end, p);
  }

  predicate RatiosAre(upper: Line, lower: Line, first: int, end: int, ratio: real, p: T.Parameters) {
    var w := T.Widths(upper, lower);
    && w(first) != 0.0 && w(first - 1) != 0.0
    && ratio * WidthAt(upper, lower, first) == WidthAt(upper, lower, end)
    && (p.minRatio <= ratio <==> p.minRatio * WidthAt(upper, lower, first) <= WidthAt(upper, lower, end))
    && (w(end) / w(first) <= p.maxRatio <==> WidthAt(upper, lower, end) <= p.maxRatio * WidthAt(upper, lower, first))
    && (w(end - 1) / w(first - 1) <= p.maxRatio <==>
        WidthAt(upper, lower, end - 1) <= p.maxRatio * WidthAt(upper, lower, first - 1))
  }

  /** The quotient of two widths, and on which side of a limit it lies, without the division. */
  predicate IsQuotient(upper: Line, lower: Line, i: int, j: int, ratio: real, limit: real) {
    && ratio * WidthAt(upper, lower, j) == WidthAt(upper, lower, i)
    && (limit <= ratio <==> limit * WidthAt(upper, lower, j) <= WidthAt(upper, lower, i))
    && (ratio <= limit <==> WidthAt(upper, lower, i) <= limit * WidthAt(upper, lower, j))
  }

  lemma WidthRatios(upper: Line, lower: Line, first: int, end: int, p: T.Parameters)
    requires 0.0 < T.Widths(upper, lower)(first) && 0.0 < T.Widths(upper, lower)(first - 1)
    ensures RatiosAre(upper, lower, first, end, T.Widths(upper, lower)(end) / T.Widths(upper, lower)(first), p)
  {
    QuotientOf(upper, lower, end, first, p.minRatio);
    QuotientOf(upper, lower, end, first, p.maxRatio);
    QuotientOf(upper, lower, end - 1, first - 1, p.maxRatio);
  }

  lemma QuotientOf(upper: Line, lower: Line, i: int, j: int, limit: real)
    requires 0.0 < T.Widths(upper, lower)(j)
    ensures IsQuotient(upper, lower, i, j, T.Widths(upper, lower)(i) / T.Widths(upper, lower)(j), limit)
  {
    WidthIs(upper, lower, i);
    WidthIs(upper, lower, j);
    RatioFrom(T.Widths(upper, lower)(i), T.Widths(upper, lower)(j), WidthAt(upper, lower, i), WidthAt(upper, lower, j), limit);
  }

  lemma RatioFrom(x: real, y: real, u: real, v: real, limit: real)
    requires 0.0 < y && x == u && y == v
    ensures x / y * v == u
    ensures limit <= x / y <==> limit * v <= u
    ensures x / y <= limit <==> u <= limit * v
  {
    RatioOf(u, v, limit);
  }

  lemma WidthIs(upper: Line, lower: Line, i: int)
    ensures T.Widths(upper, lower)(i) == WidthAt(upper, lower, i)
  {
  }

  lemma RatioOf(x: real, y: real, limit: real)
    requires 0.0 < y
    ensures x / y * y == x
    ensures limit <= x / y <==> limit * y <= x
    ensures x / y <= limit <==> x <= limit * y
  {
    A.DivideBack(x, y);
    A.QuotientOrder(x, y, limit);
  }
}
