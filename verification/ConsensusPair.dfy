/**
  Upper/lower pairings of consensus boundaries: the order of their contacts, the swings
  between consecutive contacts, and when a pairing is valid.
 */
module ConsensusPair {
  import opened Market
  import opened Wrappers
  import opened Ranking
  import opened ConsensusBoundary
  import A = Arithmetic

  /** First contact of one touch cluster inside the episode, with the contacts of that cluster. */
  datatype Event = Event(side: Side, index: int, cluster: seq<int>)

  datatype Contact = Contact(side: Side, index: int)

  // ----- contacts in time order -----

  function Clip(cluster: seq<int>, start: int, end: int): seq<int> {
    if cluster == [] then []
    else (if start <= cluster[0] <= end then [cluster[0]] else []) + Clip(cluster[1..], start, end)
  }

  /** One event per cluster that has a contact inside the episode. */
  function SideEvents(side: Side, clusters: seq<seq<int>>, start: int, end: int): seq<Event> {
    if clusters == [] then []
    else
      var n := |clusters| - 1;
      var inside := Clip(clusters[n], start, end);
      SideEvents(side, clusters[..n], start, end) + if inside == [] then [] else [Event(side, inside[0], inside)]
  }

  /** By first contact, then upper before lower, then the whole cluster. */
  predicate NotAfter(a: Event, b: Event) {
    || a.index < b.index
    || (a.index == b.index && a.side.Upper? && b.side.Lower?)
    || (a.index == b.index && a.side == b.side && TupleNotAfter(a.cluster, b.cluster))
  }

  function ByTime(): Order<Event> {
    (a: Event, b: Event) => NotAfter(a, b)
  }

  lemma ByTimeIsTotal()
    ensures Total(ByTime())
  {
    forall a: Event, b: Event ensures NotAfter(a, b) || NotAfter(b, a) {
      TupleOrder(a.cluster, b.cluster);
    }
    forall a: Event, b: Event, c: Event | NotAfter(a, b) && NotAfter(b, c) ensures NotAfter(a, c) {
      if TupleNotAfter(a.cluster, b.cluster) && TupleNotAfter(b.cluster, c.cluster) {
        TupleOrderChains(a.cluster, b.cluster, c.cluster);
      }
    }
  }

  /** Each cluster counts once, at its first contact inside the episode, in time order. */
  function EventsOf(upper: Boundary, lower: Boundary, start: int, end: int): seq<Event> {
    Sorted(ByTime(), SideEvents(upper.side, upper.clusters, start, end) + SideEvents(lower.side, lower.clusters, start, end))
  }

  method TouchEvents(upper: Boundary, lower: Boundary, start: int, end: int) returns (events: seq<Event>)
    ensures events == EventsOf(upper, lower, start, end)
    ensures Ranked(ByTime(), events)
    ensures multiset(events) == multiset(SideEvents(upper.side, upper.clusters, start, end))
                              + multiset(SideEvents(lower.side, lower.clusters, start, end))
  {
    events := AddSide([], upper, start, end);
    events := AddSide(events, lower, start, end);
    assert [] + SideEvents(upper.side, upper.clusters, start, end) == SideEvents(upper.side, upper.clusters, start, end);
    ByTimeIsTotal();
    SortedIsRanked(ByTime(), events);
    events := Sorted(ByTime(), events);
  }

  method AddSide(before: seq<Event>, b: Boundary, start: int, end: int) returns (events: seq<Event>)
    ensures events == before + SideEvents(b.side, b.clusters, start, end)
  {
    events := before;
    for n := 0 to |b.clusters|
      invariant events == before + SideEvents(b.side, b.clusters[..n], start, end)
    {
      assert b.clusters[..n + 1][..n] == b.clusters[..n];
      var inside := Clip(b.clusters[n], start, end);
      if inside != [] {
        events := events + [Event(b.side, inside[0], inside)];
      }
    }
    assert b.clusters[..|b.clusters|] == b.clusters;
  }

  // ----- alternation -----

  /** Collapses each consecutive same-side run to its last contact. */
  function Alternating(events: seq<Event>): (r: seq<Contact>)
    ensures (events == []) == (r == [])
    ensures events != [] ==>
      r[|r| - 1] == Contact(events[|events| - 1].side, events[|events| - 1].index)
  {
    if events == [] then []
    else
      var n := |events| - 1;
      var before, here := Alternating(events[..n]), Contact(events[n].side, events[n].index);
      if n > 0 && events[n - 1].side == events[n].side then before[..|before| - 1] + [here] else before + [here]
  }

  /** The source's pass, which replaces the last element while the side repeats. */
  method AlternatingEvents(events: seq<Event>) returns (alternating: seq<Contact>)
    ensures alternating == Alternating(events)
  {
    alternating := [];
    for n := 0 to |events|
      invariant alternating == Alternating(events[..n])
    {
      var here := Contact(events[n].side, events[n].index);
      assert events[..n + 1][..n] == events[..n];
      if alternating != [] && alternating[|alternating| - 1].side == here.side {
        alternating := alternating[|alternating| - 1 := here];
      } else {
        alternating := alternating + [here];
      }
    }
    assert events[..|events|] == events;
  }

  /** Positions of a side-alternating subsequence of the events. */
  ghost predicate Alternates(events: seq<Event>, picks: seq<int>) {
    && (forall k :: 0 <= k < |picks| ==> 0 <= picks[k] < |events|)
    && (forall j, k :: 0 <= j < k < |picks| ==> picks[j] < picks[k])
    && (forall j, k :: 0 <= j < k < |picks| && k == j + 1 ==> events[picks[j]].side != events[picks[k]].side)
  }

  function Runs(events: seq<Event>, n: nat): nat
    requires n <= |events|
  {
    |Alternating(events[..n])|
  }

  lemma RunsStep(events: seq<Event>, n: nat)
    requires n < |events|
    ensures Runs(events, n + 1) ==
            Runs(events, n) + if n > 0 && events[n - 1].side == events[n].side then 0 else 1
  {
    assert events[..n + 1][..n] == events[..n];
  }

  lemma {:induction false} RunsGrow(events: seq<Event>, m: nat, n: nat)
    requires m <= n <= |events|
    ensures Runs(events, m) <= Runs(events, n)
  {
    if m < n {
      RunsGrow(events, m, n - 1);
      RunsStep(events, n - 1);
    }
  }

  lemma {:induction false} OtherSideStartsRun(events: seq<Event>, q: nat, n: nat)
    requires q < n < |events| && events[q].side != events[n].side
    ensures Runs(events, q + 1) + 1 <= Runs(events, n + 1)
  {
    RunsStep(events, n);
    if events[n - 1].side == events[n].side {
      OtherSideStartsRun(events, q, n - 1);
    } else {
      RunsGrow(events, q + 1, n);
    }
  }

  lemma {:induction false} PicksWithinRuns(events: seq<Event>, picks: seq<int>)
    requires picks != [] && Alternates(events, picks)
    ensures |picks| <= Runs(events, picks[|picks| - 1] + 1)
  {
    var m := |picks| - 1;
    if m == 0 {
      RunsStep(events, picks[0]);
      RunsGrow(events, 0, picks[0]);
      if picks[0] > 0 { RunsStep(events, 0); RunsGrow(events, 1, picks[0]); }
    } else {
      var before := picks[..m];
      assert Alternates(events, before);
      PicksWithinRuns(events, before);
      assert picks[m - 1] < picks[m];
      OtherSideStartsRun(events, picks[m - 1], picks[m]);
    }
  }

  /** The collapsed contacts are themselves an alternating subsequence, and no alternating
      subsequence is longer. */
  lemma AlternatingIsLongest(events: seq<Event>) returns (picks: seq<int>)
    ensures Alternates(events, picks) && Spells(events, picks, Alternating(events))
    ensures forall other :: Alternates(events, other) ==> |other| <= |Alternating(events)|
  {
    picks := LastOfRuns(events);
    forall other | Alternates(events, other) ensures |other| <= |Alternating(events)| {
      if other != [] {
        PicksWithinRuns(events, other);
        RunsGrow(events, other[|other| - 1] + 1, |events|);
        assert events[..|events|] == events;
      }
    }
  }

  /** The picked events carry these contacts. */
  predicate Spells(events: seq<Event>, picks: seq<int>, contacts: seq<Contact>) {
    |picks| == |contacts| &&
    forall k :: 0 <= k < |picks| ==>
      0 <= picks[k] < |events| && contacts[k] == Contact(events[picks[k]].side, events[picks[k]].index)
  }

  lemma PrefixPicks(events: seq<Event>, n: nat, picks: seq<int>, m: nat, contacts: seq<Contact>)
    requires n <= |events| && m <= |picks|
    requires Alternates(events[..n], picks) && Spells(events[..n], picks, contacts)
    ensures Alternates(events, picks[..m]) && Spells(events, picks[..m], contacts[..m])
    ensures forall k :: 0 <= k < m ==> picks[k] < n
  {
  }

  lemma {:induction false} LastOfRuns(events: seq<Event>) returns (picks: seq<int>)
    ensures Alternates(events, picks) && Spells(events, picks, Alternating(events))
    ensures events != [] ==> picks != [] && picks[|picks| - 1] == |events| - 1
  {
    if events == [] {
      picks := [];
    } else {
      var n := |events| - 1;
      var before := LastOfRuns(events[..n]);
      picks := NextPicks(events, before, Alternating(events[..n]));
    }
  }

  lemma NextPicks(events: seq<Event>, before: seq<int>, contacts: seq<Contact>) returns (picks: seq<int>)
    requires events != [] && contacts == Alternating(events[..|events| - 1])
    requires Alternates(events[..|events| - 1], before) && Spells(events[..|events| - 1], before, contacts)
    requires |events| > 1 ==> before != [] && before[|before| - 1] == |events| - 2
    ensures Alternates(events, picks) && Spells(events, picks, Alternating(events))
    ensures picks != [] && picks[|picks| - 1] == |events| - 1
  {
    var n := |events| - 1;
    var repeats := n > 0 && events[n - 1].side == events[n].side;
    var m := if repeats then |before| - 1 else |before|;
    PrefixPicks(events, n, before, m, contacts);
    if m > 0 { LastPickDiffers(events, before, m, repeats); }
    ExtendPicks(events, before[..m], n, contacts[..m]);
    AlternatingStep(events, contacts, repeats);
    picks := before[..m] + [n];
  }

  lemma AlternatingStep(events: seq<Event>, contacts: seq<Contact>, repeats: bool)
    requires events != [] && contacts == Alternating(events[..|events| - 1])
    requires repeats <==> |events| > 1 && events[|events| - 2].side == events[|events| - 1].side
    ensures repeats ==> contacts != []
    ensures var here := Contact(events[|events| - 1].side, events[|events| - 1].index);
            Alternating(events) == contacts[..if repeats then |contacts| - 1 else |contacts|] + [here]
  {
    assert contacts[..|contacts|] == contacts;
  }

  /** The last pick kept is on the other side than the new event. */
  lemma LastPickDiffers(events: seq<Event>, before: seq<int>, m: nat, repeats: bool)
    requires events != [] && Alternates(events[..|events| - 1], before) && 0 < m
    requires before != [] && before[|before| - 1] == |events| - 2
    requires repeats <==> events[|events| - 2].side == events[|events| - 1].side
    requires m == if repeats then |before| - 1 else |before|
    ensures 0 <= before[m - 1] < |events| - 1 && events[before[m - 1]].side != events[|events| - 1].side
  {
    var init := events[..|events| - 1];
    if repeats {
      assert init[before[m - 1]].side != init[before[m]].side;
    }
  }

  lemma ExtendPicks(events: seq<Event>, kept: seq<int>, n: int, contacts: seq<Contact>)
    requires Alternates(events, kept) && 0 <= n < |events| && (forall k :: 0 <= k < |kept| ==> kept[k] < n)
    requires kept != [] ==> events[kept[|kept| - 1]].side != events[n].side
    requires Spells(events, kept, contacts)
    ensures Alternates(events, kept + [n])
    ensures Spells(events, kept + [n], contacts + [Contact(events[n].side, events[n].index)])
  {
  }

  // ----- swings between consecutive contacts -----

  /** One candle of the episode with the two line values there. */
  datatype Bar = Bar(high: real, low: real, close: real, atr: Option<real>, upper: real, lower: real)

  datatype Swing = Swing(touchBand: real, minWidthFraction: real, minAtr: real)

  /** Neither a crossed channel nor a candle without ATR gives evidence. */
  predicate Readable(b: Bar) {
    0.0 < b.upper - b.lower && b.atr.Some?
  }

  predicate InZone(b: Bar, side: Side, p: Swing) {
    Readable(b) &&
    if side.Upper? then b.high >= b.upper - p.touchBand * b.atr.value
    else b.low <= b.lower + p.touchBand * b.atr.value
  }

  predicate Departs(b: Bar, side: Side, p: Swing) {
    Readable(b) &&
    var inward := if side.Upper? then b.upper - b.close else b.close - b.lower;
    inward >= Max(p.minWidthFraction * (b.upper - b.lower), p.minAtr * b.atr.value)
  }

  predicate InBars(bars: seq<Bar>, e: Event) {
    0 <= e.index < |bars| && forall k :: 0 <= k < |e.cluster| ==> 0 <= e.cluster[k] < |bars|
  }

  /** Between two contacts the price leaves the first boundary by a real swing. */
  predicate IsSwing(bars: seq<Bar>, p: Swing, a: Event, b: Event)
    requires InBars(bars, a) && InBars(bars, b)
  {
    a.index < b.index && exists i :: a.index <= i <= b.index && Departs(bars[i], a.side, p)
  }

  /** It also starts in the first boundary's zone and reaches the opposite one. */
  predicate Reaches(bars: seq<Bar>, p: Swing, a: Event, b: Event)
    requires InBars(bars, a) && InBars(bars, b)
  {
    && a.index < b.index && a.side != b.side
    && (exists k :: 0 <= k < |a.cluster| && a.cluster[k] < b.index && InZone(bars[a.cluster[k]], a.side, p))
    && exists i :: a.index <= i <= b.index && InZone(bars[i], b.side, p)
  }

  method SegmentEvidence(bars: seq<Bar>, p: Swing, a: Event, b: Event) returns (departed: bool, reached: bool)
    requires InBars(bars, a) && InBars(bars, b)
    ensures departed <==> IsSwing(bars, p, a, b)
    ensures reached <==> Reaches(bars, p, a, b)
  {
    if b.index <= a.index {
      return false, false;
    }
    var sourceInZone := false;
    for k := 0 to |a.cluster|
      invariant sourceInZone <==> exists j :: 0 <= j < k && a.cluster[j] < b.index && InZone(bars[a.cluster[j]], a.side, p)
    {
      if a.cluster[k] < b.index && InZone(bars[a.cluster[k]], a.side, p) {
        sourceInZone := true;
      }
    }
    departed := false;
    var opposite := false;
    for index := a.index to b.index + 1
      invariant departed <==> exists i :: a.index <= i < index && Departs(bars[i], a.side, p)
      invariant opposite <==> a.side != b.side && exists i :: a.index <= i < index && InZone(bars[i], b.side, p)
    {
      if Readable(bars[index]) {
        if Departs(bars[index], a.side, p) {
          departed := true;
        }
        if a.side != b.side {
          opposite := opposite || InZone(bars[index], b.side, p);
        }
      }
    }
    reached := sourceInZone && opposite;
  }

  predicate AllInBars(bars: seq<Bar>, events: seq<Event>) {
    forall k :: 0 <= k < |events| ==> InBars(bars, events[k])
  }

  function Swings(bars: seq<Bar>, p: Swing, events: seq<Event>, n: nat): nat
    requires AllInBars(bars, events) && n <= |events|
  {
    if n < 2 then 0
    else Swings(bars, p, events, n - 1) + if IsSwing(bars, p, events[n - 2], events[n - 1]) then 1 else 0
  }

  function Traversals(bars: seq<Bar>, p: Swing, events: seq<Event>, n: nat): nat
    requires AllInBars(bars, events) && n <= |events|
  {
    if n < 2 then 0
    else
      Traversals(bars, p, events, n - 1)
      + if IsSwing(bars, p, events[n - 2], events[n - 1]) && Reaches(bars, p, events[n - 2], events[n - 1]) then 1 else 0
  }

  method CountSwings(bars: seq<Bar>, p: Swing, events: seq<Event>) returns (swings: nat, traversals: nat)
    requires AllInBars(bars, events)
    ensures swings == Swings(bars, p, events, |events|)
    ensures traversals == Traversals(bars, p, events, |events|)
  {
    if events == [] {
      return 0, 0;
    }
    swings, traversals := 0, 0;
    for n := 1 to |events|
      invariant swings == Swings(bars, p, events, n)
      invariant traversals == Traversals(bars, p, events, n)
    {
      var departed, reached := SegmentEvidence(bars, p, events[n - 1], events[n]);
      if departed {
        swings := swings + 1;
      }
      if departed && reached && events[n - 1].side != events[n].side {
        traversals := traversals + 1;
      }
    }
  }

  /** Each traversal is a swing and a change of side, so neither count can be exceeded. */
  lemma {:induction false} TraversalsAreBounded(bars: seq<Bar>, p: Swing, events: seq<Event>, n: nat)
    requires AllInBars(bars, events) && n <= |events|
    ensures Traversals(bars, p, events, n) <= Swings(bars, p, events, n)
    ensures n > 0 ==> Traversals(bars, p, events, n) <= Runs(events, n) - 1
  {
    if n == 1 {
      RunsStep(events, 0);
    } else if n > 1 {
      TraversalsAreBounded(bars, p, events, n - 1);
      RunsStep(events, n - 1);
    }
  }

  /** The published counts: traversals within the swings and the alternations, reach inside [0, 1]. */
  lemma ReachIsAFraction(bars: seq<Bar>, p: Swing, events: seq<Event>)
    requires AllInBars(bars, events)
    ensures var swings, traversals := Swings(bars, p, events, |events|), Traversals(bars, p, events, |events|);
            && traversals <= swings
            && (events != [] ==> traversals <= |Alternating(events)| - 1)
            && (swings > 0 ==> 0.0 <= traversals as real / swings as real <= 1.0)
  {
    TraversalsAreBounded(bars, p, events, |events|);
    assert events[..|events|] == events;
    var swings, traversals := Swings(bars, p, events, |events|), Traversals(bars, p, events, |events|);
    if swings > 0 {
      Fraction(traversals as real, swings as real);
    }
  }

  lemma Fraction(a: real, b: real)
    requires 0.0 <= a <= b && 0.0 < b
    ensures 0.0 <= a / b <= 1.0
  {
    A.QuotientOrder(a, b, 0.0);
    A.QuotientOrder(a, b, 1.0);
  }

  // ----- validity of a pairing -----

  /** The channel's width as a line of its own. */
  function WidthLine(upper: Line, lower: Line): Line {
    Line(upper.slope - lower.slope, upper.intercept - lower.intercept)
  }

  function Width(upper: Line, lower: Line, x: real): real {
    ValueAt(upper, x) - ValueAt(lower, x)
  }

  datatype Reason = SideMismatch | OrderInvalidAtStart | OrderInvalidAtEnd | CrossInside | NoSharedSupport

  function Intersection(upper: Line, lower: Line): Option<real> {
    var turn := upper.slope - lower.slope;
    if turn == 0.0 then None else Some((lower.intercept - upper.intercept) / turn)
  }

  predicate CrossesInside(upper: Line, lower: Line, start: int, end: int) {
    var x := Intersection(upper, lower);
    x.Some? && start as real <= x.value <= end as real
  }

  /** The candles of the episode that both boundaries support. */
  function SharedStart(upper: Boundary, lower: Boundary, start: int): int {
    var first := if upper.first >= lower.first then upper.first else lower.first;
    if start >= first then start else first
  }

  function SharedEnd(upper: Boundary, lower: Boundary, end: int): int {
    var last := if upper.last <= lower.last then upper.last else lower.last;
    if end <= last then end else last
  }

  predicate SharesSupport(upper: Boundary, lower: Boundary, start: int, end: int) {
    SharedStart(upper, lower, start) <= SharedEnd(upper, lower, end)
  }

  function InvalidReasons(upper: Boundary, lower: Boundary, start: int, end: int): set<Reason> {
    (if upper.side.Upper? && lower.side.Lower? then {} else {SideMismatch})
    + (if Width(upper.line, lower.line, start as real) <= 0.0 then {OrderInvalidAtStart} else {})
    + (if Width(upper.line, lower.line, end as real) <= 0.0 then {OrderInvalidAtEnd} else {})
    + (if CrossesInside(upper.line, lower.line, start, end) then {CrossInside} else {})
    + (if SharesSupport(upper, lower, start, end) then {} else {NoSharedSupport})
  }

  lemma WidthIsLinear(upper: Line, lower: Line, x: real)
    ensures Width(upper, lower, x) == ValueAt(WidthLine(upper, lower), x)
  {
    A.Distributes(x, upper.slope, lower.slope);
  }

  /** A line positive at both ends of an interval is positive everywhere inside. */
  lemma PositiveBetween(line: Line, a: real, b: real, x: real)
    requires a <= x <= b && 0.0 < ValueAt(line, a) && 0.0 < ValueAt(line, b)
    ensures 0.0 < ValueAt(line, x)
  {
    if 0.0 <= line.slope { A.Monotone(line.slope, a, x); } else { A.Monotone(line.slope, x, b); }
  }

  lemma WidthVanishesAt(upper: Line, lower: Line, at: real)
    requires Intersection(upper, lower) == Some(at)
    ensures ValueAt(WidthLine(upper, lower), at) == 0.0
  {
    var turn := upper.slope - lower.slope;
    A.DivideBack(lower.intercept - upper.intercept, turn);
    A.Commutes(at, turn);
  }

  /** A pairing ordered at both ends of the episode is ordered throughout it and does not cross inside,
      so the crossing reason never appears without one of the two order reasons. */
  lemma OrderedEndsNeverCross(upper: Line, lower: Line, start: int, end: int, x: real)
    requires start as real <= x <= end as real
    requires 0.0 < Width(upper, lower, start as real) && 0.0 < Width(upper, lower, end as real)
    ensures 0.0 < Width(upper, lower, x)
    ensures !CrossesInside(upper, lower, start, end)
  {
    var line := WidthLine(upper, lower);
    WidthIsLinear(upper, lower, start as real);
    WidthIsLinear(upper, lower, end as real);
    WidthIsLinear(upper, lower, x);
    PositiveBetween(line, start as real, end as real, x);
    if CrossesInside(upper, lower, start, end) {
      var at := Intersection(upper, lower).value;
      WidthVanishesAt(upper, lower, at);
      PositiveBetween(line, start as real, end as real, at);
    }
  }

  /** A valid pairing has positive width at every candle of its episode. */
  lemma ValidPairIsOrdered(upper: Boundary, lower: Boundary, start: int, end: int, index: int)
    requires start <= index <= end
    requires InvalidReasons(upper, lower, start, end) == {}
    ensures 0.0 < Width(upper.line, lower.line, index as real)
  {
    var reasons := InvalidReasons(upper, lower, start, end);
    assert OrderInvalidAtStart !in reasons && OrderInvalidAtEnd !in reasons;
    OrderedEndsNeverCross(upper.line, lower.line, start, end, index as real);
  }

  lemma ValidPairFacesItsSides(upper: Boundary, lower: Boundary, start: int, end: int)
    requires InvalidReasons(upper, lower, start, end) == {}
    ensures upper.side.Upper? && lower.side.Lower? && SharesSupport(upper, lower, start, end)
  {
    var reasons := InvalidReasons(upper, lower, start, end);
    assert SideMismatch !in reasons && NoSharedSupport !in reasons;
  }

  lemma CrossingIsNeverTheOnlyReason(upper: Boundary, lower: Boundary, start: int, end: int)
    requires start <= end
    requires CrossInside in InvalidReasons(upper, lower, start, end)
    ensures OrderInvalidAtStart in InvalidReasons(upper, lower, start, end)
         || OrderInvalidAtEnd in InvalidReasons(upper, lower, start, end)
  {
    if 0.0 < Width(upper.line, lower.line, start as real) && 0.0 < Width(upper.line, lower.line, end as real) {
      OrderedEndsNeverCross(upper.line, lower.line, start, end, start as real);
    }
  }

  // ----- one pairing -----

  /** The price history a pairing is measured on; without ATR a candle gives no evidence. */
  datatype History = History(rows: seq<Row>, atr: seq<Option<real>>)

  predicate Episode(h: History, start: int, end: int) {
    |h.atr| == |h.rows| && 0 <= start < end < |h.rows|
  }

  datatype PairParams = PairParams(swing: Swing, minClusters: int)

  datatype Metrics = Metrics(
    invalid: set<Reason>, upperCount: nat, lowerCount: nat, bothUsed: bool, traversals: nat, alternating: nat,
    balance: real, reach: real, swings: nat, coverage: real, sharedSpan: int, sharedEnd: Option<int>,
    bodySides: nat, meanResidual: real, maxResidual: real, excursions: nat)

  datatype Pair = Pair(upper: Boundary, lower: Boundary, start: int, end: int, metrics: Metrics)

  function BarsOf(h: History, upper: Line, lower: Line): (bars: seq<Bar>)
    requires |h.atr| == |h.rows|
    ensures |bars| == |h.rows|
  {
    seq(|h.rows|, i requires 0 <= i < |h.rows| =>
      Bar.Bar(h.rows[i].high, h.rows[i].low, h.rows[i].close, h.atr[i], ValueAt(upper, i as real), ValueAt(lower, i as real)))
  }

  function Count(events: seq<Event>, side: Side): nat {
    if events == [] then 0
    else Count(events[..|events| - 1], side) + if events[|events| - 1].side == side then 1 else 0
  }

  function Balance(u: nat, l: nat): real {
    var most, least := if u >= l then u else l, if u >= l then l else u;
    if most == 0 then 0.0 else least as real / most as real
  }

  function Flag(b: bool): nat {
    if b then 1 else 0
  }

  /** The counts over the contacts of a pairing. */
  datatype Counts = Counts(upper: nat, lower: nat, alternating: nat, swings: nat, traversals: nat)

  function CountsOf(bars: seq<Bar>, p: Swing, events: seq<Event>): Counts
    requires AllInBars(bars, events)
  {
    Counts(Count(events, Upper), Count(events, Lower), |Alternating(events)|,
           Swings(bars, p, events, |events|), Traversals(bars, p, events, |events|))
  }

  function Reported(c: Counts, upper: Boundary, lower: Boundary, start: int, end: int, minClusters: int): Metrics
    requires start < end
  {
    var shared, last := SharesSupport(upper, lower, start, end), SharedEnd(upper, lower, end);
    var span := if shared then last - SharedStart(upper, lower, start) else 0;
    Metrics(
      InvalidReasons(upper, lower, start, end), c.upper, c.lower, c.upper >= minClusters && c.lower >= minClusters,
      c.traversals, c.alternating, Balance(c.upper, c.lower),
      if c.swings == 0 then 0.0 else c.traversals as real / c.swings as real,
      c.swings, span as real / (end - start) as real, span, if shared then Some(last) else None,
      Flag(upper.fit.bodyHolds) + Flag(lower.fit.bodyHolds), upper.fit.meanResidual + lower.fit.meanResidual,
      Max(upper.fit.maxResidual, lower.fit.maxResidual), upper.fit.excursions + lower.fit.excursions)
  }

  /** What the pair stage reports of two boundaries over an episode. */
  function Measure(h: History, upper: Boundary, lower: Boundary, start: int, end: int, p: PairParams): Metrics
    requires Episode(h, start, end)
  {
    var bars, events := BarsOf(h, upper.line, lower.line), EventsOf(upper, lower, start, end);
    EventsAreInBars(bars, upper, lower, start, end);
    Reported(CountsOf(bars, p.swing, events), upper, lower, start, end, p.minClusters)
  }

  lemma {:induction false} ClipIsInside(cluster: seq<int>, start: int, end: int)
    ensures forall k :: 0 <= k < |Clip(cluster, start, end)| ==> start <= Clip(cluster, start, end)[k] <= end
  {
    if cluster != [] { ClipIsInside(cluster[1..], start, end); }
  }

  predicate Inside(e: Event, start: int, end: int) {
    start <= e.index <= end && forall k :: 0 <= k < |e.cluster| ==> start <= e.cluster[k] <= end
  }

  lemma {:induction false} SideEventsAreInside(side: Side, clusters: seq<seq<int>>, start: int, end: int)
    ensures forall e :: e in SideEvents(side, clusters, start, end) ==> Inside(e, start, end)
  {
    if clusters != [] {
      var n := |clusters| - 1;
      SideEventsAreInside(side, clusters[..n], start, end);
      ClipIsInside(clusters[n], start, end);
    }
  }

  lemma EventsAreInBars(bars: seq<Bar>, upper: Boundary, lower: Boundary, start: int, end: int)
    requires 0 <= start && end < |bars|
    ensures AllInBars(bars, EventsOf(upper, lower, start, end))
  {
    var u, l := SideEvents(upper.side, upper.clusters, start, end), SideEvents(lower.side, lower.clusters, start, end);
    var events := EventsOf(upper, lower, start, end);
    SideEventsAreInside(upper.side, upper.clusters, start, end);
    SideEventsAreInside(lower.side, lower.clusters, start, end);
    ByTimeIsTotal();
    SortedIsRanked(ByTime(), u + l);
    SameMembers(events, u + l);
    forall k | 0 <= k < |events| ensures InBars(bars, events[k]) {
      assert events[k] in events && Inside(events[k], start, end);
    }
  }

  /** The source's pass over one pairing. */
  method BuildPair(h: History, upper: Boundary, lower: Boundary, start: int, end: int, p: PairParams) returns (pair: Pair)
    requires Episode(h, start, end)
    ensures pair == Pair(upper, lower, start, end, Measure(h, upper, lower, start, end, p))
  {
    var bars := BarsOf(h, upper.line, lower.line);
    var events := TouchEvents(upper, lower, start, end);
    EventsAreInBars(bars, upper, lower, start, end);
    var counts := CountAll(bars, p.swing, events);
    pair := Pair(upper, lower, start, end, Reported(counts, upper, lower, start, end, p.minClusters));
  }

  method CountAll(bars: seq<Bar>, p: Swing, events: seq<Event>) returns (c: Counts)
    requires AllInBars(bars, events)
    ensures c == CountsOf(bars, p, events)
  {
    var alternating := AlternatingEvents(events);
    var swings, traversals := CountSwings(bars, p, events);
    var u, l := CountSides(events);
    c := Counts(u, l, |alternating|, swings, traversals);
  }

  method CountSides(events: seq<Event>) returns (u: nat, l: nat)
    ensures u == Count(events, Upper) && l == Count(events, Lower)
  {
    u, l := 0, 0;
    for n := 0 to |events|
      invariant u == Count(events[..n], Upper) && l == Count(events[..n], Lower)
    {
      assert events[..n + 1][..n] == events[..n];
      if events[n].side.Upper? { u := u + 1; } else { l := l + 1; }
    }
    assert events[..|events|] == events;
  }

  // ----- what the reported figures owe each other -----

  /** A contact on the other side is needed between any two runs of one side. */
  lemma {:induction false} AlternationNeedsBothSides(events: seq<Event>, side: Side)
    ensures |Alternating(events)| <= 2 * Count(events, side) + 1
    ensures events != [] && events[|events| - 1].side == side ==> |Alternating(events)| <= 2 * Count(events, side)
  {
    if events != [] { AlternationNeedsBothSides(events[..|events| - 1], side); }
  }

  /** The figures of a pairing bound each other: traversals are swings and changes of side, changes of side
      need contacts on both sides, and every fraction lies in [0, 1]. */
  lemma MetricsAreConsistent(h: History, upper: Boundary, lower: Boundary, start: int, end: int, p: PairParams)
    requires Episode(h, start, end)
    ensures var m := Measure(h, upper, lower, start, end, p);
            && m.traversals <= m.swings && (m.traversals == 0 || m.traversals < m.alternating)
            && m.alternating <= 2 * m.upperCount + 1 && m.alternating <= 2 * m.lowerCount + 1
            && 0.0 <= m.balance <= 1.0 && 0.0 <= m.reach <= 1.0 && 0.0 <= m.coverage <= 1.0
            && (m.sharedEnd.Some? <==> NoSharedSupport !in m.invalid)
            && (m.sharedEnd.Some? ==> start <= m.sharedEnd.value <= end)
  {
    var bars, events := BarsOf(h, upper.line, lower.line), EventsOf(upper, lower, start, end);
    EventsAreInBars(bars, upper, lower, start, end);
    ReachIsAFraction(bars, p.swing, events);
    AlternationNeedsBothSides(events, Upper);
    AlternationNeedsBothSides(events, Lower);
    var m := Measure(h, upper, lower, start, end, p);
    var u, l := m.upperCount, m.lowerCount;
    if u + l > 0 {
      Fraction(if u >= l then l as real else u as real, if u >= l then u as real else l as real);
    }
    Fraction(m.sharedSpan as real, (end - start) as real);
  }
}
