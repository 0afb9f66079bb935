/**
  WATCH discovery. Each closed candle reruns four nested searches over the frame
  and feeds the detector its own previous output, which it validates, freezes on
  the first breakout and drops once the F(1.618) zone was touched.
 */
module IkigaiWatch {
  import opened Market
  import opened Wrappers
  import opened Ranking
  import opened IkigaiBox

  datatype Phase = BoxReady | BoxBreakObserved

  datatype Identity = Identity(direction: Direction, start: int, end: int)

  datatype Watch = Watch(
    direction: Direction,
    phase: Phase,
    asOf: int,
    anchorStart: int,
    anchorEnd: int,
    anchorStartPrice: real,
    anchorEndPrice: real,
    boxStart: int,
    boxEnd: int,
    boxLow: real,
    boxHigh: real,
    firstExit: Option<int>,
    fibonacci1: real,
    fibonacci1618: real,
    fibonacci2618: real)
  {
    function Id(): Identity {
      Identity(direction, anchorStart, anchorEnd)
    }
  }

  // ----- one fresh candidate -----

  /** Some bar of rows[lo..hi) reached the zone. */
  predicate Touched(rows: seq<Row>, d: Direction, level: real, lo: int, hi: int)
    requires 0 <= lo && hi <= |rows|
  {
    exists i :: lo <= i < hi && Reaches(rows[i], d, level)
  }

  /** Anchor and shelf lengths the nested loops enumerate for this identity and shelf end. */
  predicate InSearchRange(p: Parameters, id: Identity, boxEnd: int) {
    && p.boxMinBars <= boxEnd - id.end <= p.boxMaxBars
    && p.firstMinBars <= id.end - id.start + 1 <= p.firstMaxBars
    && ATR_BARS <= id.start < id.end
  }

  /** The last candle closes beyond the shelf formed by the bars before it. */
  predicate LastBarBreaksShelf(rows: seq<Row>, d: Direction, boxStart: int)
    requires 0 <= boxStart < |rows|
  {
    var end := |rows| - 1;
    boxStart < end && ClosesBeyond(rows[end], d, MinLow(rows, boxStart, end), MaxHigh(rows, boxStart, end))
  }

  /** What the innermost loop body produces for one (A, B, shelf end). */
  function Candidate(rows: seq<Row>, p: Parameters, id: Identity, boxEnd: int): (w: Option<Watch>) {
    var end := |rows| - 1;
    if !(InSearchRange(p, id, boxEnd) && id.end < boxEnd <= end) then None
    else
      var boxStart := id.end + 1;
      if boxEnd == end && LastBarBreaksShelf(rows, id.direction, boxStart) then None
      else
        var boxLow := MinLow(rows, boxStart, boxEnd + 1);
        var boxHigh := MaxHigh(rows, boxStart, boxEnd + 1);
        var exit := FirstExit(rows, id.direction, boxLow, boxHigh, boxEnd + 1, end + 1);
        if boxEnd != end && exit.None? then None
        else
          match QualifiedImpulseAndBox(rows, id.start, id.end, boxLow, boxHigh, id.direction, p)
          case None => None
          case Some(q) =>
            var zone := Fibonacci(q.a, q.b, 1.618);
            if Touched(rows, id.direction, zone, boxEnd + 1, end + 1) then None
            else Some(Watch(id.direction, if exit.Some? then BoxBreakObserved else BoxReady, end,
                            id.start, id.end, q.a, q.b, boxStart, boxEnd, boxLow, boxHigh, exit,
                            q.b, zone, Fibonacci(q.a, q.b, 2.618)))
  }

  function OldestShelfEnd(rows: seq<Row>, p: Parameters): int {
    if |rows| - 1 - p.secondMaxBars > 0 then |rows| - 1 - p.secondMaxBars else 0
  }

  /** The latest shelf end in [lo, |rows|) that yields a candidate for this identity. */
  function Latest(rows: seq<Row>, p: Parameters, id: Identity, lo: int): (w: Option<Watch>)
    decreases |rows| - lo
  {
    if lo >= |rows| then None
    else
      var later := Latest(rows, p, id, lo + 1);
      if later.Some? then later else Candidate(rows, p, id, lo)
  }

  function Fresh(rows: seq<Row>, p: Parameters, id: Identity): Option<Watch>
  {
    Latest(rows, p, id, OldestShelfEnd(rows, p))
  }

  // ----- well-formed observations -----

  /** A, B and the Fibonacci levels are those of the candles; B is the unique extreme of A..B. */
  ghost predicate Anchored(rows: seq<Row>, w: Watch) {
    && 0 <= w.anchorStart < w.anchorEnd < |rows|
    && w.anchorStartPrice == AnchorStart(rows[w.anchorStart], w.direction)
    && w.anchorEndPrice == AnchorEnd(rows[w.anchorEnd], w.direction)
    && FrozenExtremes(rows, w.anchorStart, w.anchorEnd, w.direction)
    && w.fibonacci1 == w.anchorEndPrice
    && w.fibonacci1618 == Fibonacci(w.anchorStartPrice, w.anchorEndPrice, 1.618)
    && w.fibonacci2618 == Fibonacci(w.anchorStartPrice, w.anchorEndPrice, 2.618)
  }

  /** The shelf bounds are those of its bars, and the phase tells whether, and the exit index
      where, a later close first left the shelf. */
  ghost predicate Boxed(rows: seq<Row>, upto: int, w: Watch) {
    && w.anchorEnd + 1 == w.boxStart <= w.boxEnd <= upto < |rows| && 0 <= w.boxStart
    && w.boxLow == MinLow(rows, w.boxStart, w.boxEnd + 1)
    && w.boxHigh == MaxHigh(rows, w.boxStart, w.boxEnd + 1)
    && w.firstExit == FirstExit(rows, w.direction, w.boxLow, w.boxHigh, w.boxEnd + 1, upto + 1)
    && (w.phase.BoxBreakObserved? <==> w.firstExit.Some?)
  }

  /** Everything a WATCH claims about the frame it was observed on, up to bar `upto`:
      in particular that no bar after B reached the F(1.618) zone. */
  ghost predicate Sound(rows: seq<Row>, upto: int, w: Watch) {
    && w.asOf == upto
    && Anchored(rows, w)
    && Boxed(rows, upto, w)
    && !Touched(rows, w.direction, w.fibonacci1618, w.anchorEnd + 1, upto + 1)
  }

  lemma CandidateIsSound(rows: seq<Row>, p: Parameters, id: Identity, boxEnd: int)
    requires Candidate(rows, p, id, boxEnd).Some?
    ensures var w := Candidate(rows, p, id, boxEnd).value;
            && Sound(rows, |rows| - 1, w) && w.Id() == id && w.boxEnd == boxEnd
  {
    var w := Candidate(rows, p, id, boxEnd).value;
    ShelfIsShortOfZone(rows, p, id, boxEnd);
    assert forall i :: boxEnd < i < |rows| ==> !Reaches(rows[i], id.direction, w.fibonacci1618);
  }

  /** The extension gate keeps the shelf short of the zone, which no explicit test looks at. */
  lemma ShelfIsShortOfZone(rows: seq<Row>, p: Parameters, id: Identity, boxEnd: int)
    requires Candidate(rows, p, id, boxEnd).Some?
    ensures var w := Candidate(rows, p, id, boxEnd).value;
            0 <= id.end < boxEnd < |rows| && forall i :: id.end < i <= boxEnd ==> !Reaches(rows[i], id.direction, w.fibonacci1618)
  {
  }

  /** Every bar of an observed shelf trades strictly between the origin A and the F(1.618) zone. */
  lemma ShelfStaysInsideImpulse(rows: seq<Row>, p: Parameters, id: Identity, boxEnd: int, i: int)
    requires ValidParameters(p) && Candidate(rows, p, id, boxEnd).Some? && id.end < i <= boxEnd < |rows|
    ensures var w := Candidate(rows, p, id, boxEnd).value;
            if id.direction.Short? then w.anchorStartPrice < rows[i].low && rows[i].high < w.fibonacci1618
            else rows[i].high < w.anchorStartPrice && w.fibonacci1618 < rows[i].low
  {
    var w := Candidate(rows, p, id, boxEnd).value;
    var q := QualifiedImpulseAndBox(rows, id.start, id.end, w.boxLow, w.boxHigh, id.direction, p).value;
    assert w.boxLow <= rows[i].low && rows[i].high <= w.boxHigh;
    if RetracesWithin(w.boxLow, w.boxHigh, q.b, q.span, id.direction, p.maxWickBoxRetraceFraction) {
      PartialRetrace(w.boxLow, w.boxHigh, q.b, q.span, id.direction, p.maxWickBoxRetraceFraction);
    } else {
      PartialRetrace(w.boxLow, w.boxHigh, q.b, q.span, id.direction, p.maxBoxRetraceFraction);
    }
  }

  lemma {:induction false} NoLaterCandidate(rows: seq<Row>, p: Parameters, id: Identity, lo: int)
    requires Latest(rows, p, id, lo).None?
    ensures forall e :: lo <= e < |rows| ==> Candidate(rows, p, id, e).None?
    decreases |rows| - lo
  {
    if lo < |rows| {
      NoLaterCandidate(rows, p, id, lo + 1);
    }
  }

  /** The shelf the search keeps for an identity: a candidate, and no later shelf is one. */
  lemma {:induction false} LatestShelf(rows: seq<Row>, p: Parameters, id: Identity, lo: int) returns (e: int)
    requires Latest(rows, p, id, lo).Some?
    ensures lo <= e < |rows|
    ensures Candidate(rows, p, id, e) == Latest(rows, p, id, lo)
    ensures forall e' :: e < e' < |rows| ==> Candidate(rows, p, id, e').None?
    decreases |rows| - lo
  {
    if Latest(rows, p, id, lo + 1).Some? {
      e := LatestShelf(rows, p, id, lo + 1);
    } else {
      e := lo;
      NoLaterCandidate(rows, p, id, lo + 1);
    }
  }

  /** And such a shelf is the one it keeps. */
  lemma {:induction false} LatestIs(rows: seq<Row>, p: Parameters, id: Identity, lo: int, e: int)
    requires lo <= e < |rows| && Candidate(rows, p, id, e).Some?
    requires forall e' :: e < e' < |rows| ==> Candidate(rows, p, id, e').None?
    ensures Latest(rows, p, id, lo) == Candidate(rows, p, id, e)
    decreases |rows| - lo
  {
    if lo < e {
      LatestIs(rows, p, id, lo + 1, e);
    } else if Latest(rows, p, id, lo + 1).Some? {
      var later := LatestShelf(rows, p, id, lo + 1);
    }
  }

  lemma FreshIsSound(rows: seq<Row>, p: Parameters, id: Identity)
    requires Fresh(rows, p, id).Some?
    ensures Sound(rows, |rows| - 1, Fresh(rows, p, id).value) && Fresh(rows, p, id).value.Id() == id
  {
    var e := LatestShelf(rows, p, id, OldestShelfEnd(rows, p));
    CandidateIsSound(rows, p, id, e);
  }

  // ----- the same, bar by bar -----

  /** The bar closes beyond every bar from `lo` to `last` on the impulse side. */
  predicate ClearsAll(rows: seq<Row>, d: Direction, bar: int, lo: int, last: int)
    requires 0 <= lo && last < |rows| && 0 <= bar < |rows|
  {
    forall i :: lo <= i <= last ==> if d.Short? then rows[i].high < rows[bar].close else rows[bar].close < rows[i].low
  }

  lemma ClearsTheShelf(rows: seq<Row>, d: Direction, bar: int, lo: int, last: int)
    requires 0 <= lo <= last < |rows| && 0 <= bar < |rows|
    ensures ClearsAll(rows, d, bar, lo, last)
            <==> ClosesBeyond(rows[bar], d, MinLow(rows, lo, last + 1), MaxHigh(rows, lo, last + 1))
  {
    var low := MinLowIsALow(rows, lo, last + 1);
    var high := MaxHighIsAHigh(rows, lo, last + 1);
  }

  /** The exchange of shelf and breakout: a shelf that ends on the newest bar is not broken by it, an older one was left
      by some later close. */
  predicate InPlay(rows: seq<Row>, d: Direction, boxStart: int, boxEnd: int)
    requires 0 <= boxStart <= boxEnd < |rows|
  {
    if boxEnd == |rows| - 1 then boxStart < boxEnd ==> !ClearsAll(rows, d, boxEnd, boxStart, boxEnd - 1)
    else exists j :: boxEnd < j < |rows| && ClearsAll(rows, d, j, boxStart, boxEnd)
  }

  lemma InPlayIsNotSkipped(rows: seq<Row>, d: Direction, boxStart: int, boxEnd: int)
    requires 0 <= boxStart <= boxEnd < |rows|
    ensures InPlay(rows, d, boxStart, boxEnd) <==> !SkippedShelf(rows, d, boxEnd, boxStart)
  {
    var end := |rows| - 1;
    if boxEnd == end {
      if boxStart < end { ClearsTheShelf(rows, d, end, boxStart, end - 1); }
    } else {
      forall j | boxEnd < j < |rows|
        ensures ClearsAll(rows, d, j, boxStart, boxEnd)
                <==> ClosesBeyond(rows[j], d, MinLow(rows, boxStart, boxEnd + 1), MaxHigh(rows, boxStart, boxEnd + 1))
      {
        ClearsTheShelf(rows, d, j, boxStart, boxEnd);
      }
    }
  }

  /** The lengths the search allows, with fourteen bars before A. */
  predicate Sized(p: Parameters, id: Identity, boxEnd: int) {
    && 14 <= id.start < id.end < boxEnd
    && p.firstMinBars <= id.end - id.start + 1 <= p.firstMaxBars
    && p.boxMinBars <= boxEnd - id.end <= p.boxMaxBars
  }

  /** No bar of rows[lo..] trades at or through A + 1.618 (B - A). */
  predicate ShortOfZone(rows: seq<Row>, id: Identity, lo: int)
    requires 0 <= id.start < id.end < |rows| && 0 <= lo
  {
    forall i :: lo <= i < |rows| ==>
      if id.direction.Short? then rows[i].high < rows[id.start].low + 1.618 * (rows[id.end].high - rows[id.start].low)
      else rows[id.start].high + 1.618 * (rows[id.end].low - rows[id.start].high) < rows[i].low
  }

  /** A shelf yields an observation exactly when the lengths fit, impulse and shelf pass every gate, the shelf is in play
      and no later bar reached the zone. */
  lemma CandidateIff(rows: seq<Row>, p: Parameters, id: Identity, boxEnd: int)
    requires ValidParameters(p)
    ensures Candidate(rows, p, id, boxEnd).Some? <==>
              && Sized(p, id, boxEnd) && boxEnd < |rows|
              && PassesGates(rows, id.start, id.end, MinLow(rows, id.end + 1, boxEnd + 1), MaxHigh(rows, id.end + 1, boxEnd + 1),
                             id.direction, p)
              && InPlay(rows, id.direction, id.end + 1, boxEnd) && ShortOfZone(rows, id, boxEnd + 1)
  {
    if Sized(p, id, boxEnd) && boxEnd < |rows| {
      AcceptedIffPasses(rows, id.start, id.end, MinLow(rows, id.end + 1, boxEnd + 1), MaxHigh(rows, id.end + 1, boxEnd + 1),
                        id.direction, p);
      InPlayIsNotSkipped(rows, id.direction, id.end + 1, boxEnd);
      ZoneInBars(rows, id, boxEnd + 1);
      CandidateByParts(rows, p, id, boxEnd);
    }
  }

  predicate FirstToClear(rows: seq<Row>, d: Direction, bar: int, lo: int, last: int)
    requires 0 <= lo <= last < |rows|
  {
    && last < bar < |rows| && ClearsAll(rows, d, bar, lo, last)
    && forall j :: last < j < bar ==> !ClearsAll(rows, d, j, lo, last)
  }

  /** Its exit is the first later bar that closes beyond every bar of the shelf; a READY shelf ends on the newest bar. */
  lemma CandidateExit(rows: seq<Row>, p: Parameters, id: Identity, boxEnd: int)
    requires ValidParameters(p) && Candidate(rows, p, id, boxEnd).Some?
    ensures 0 <= id.end < boxEnd < |rows|
    ensures var w := Candidate(rows, p, id, boxEnd).value;
            && (w.phase.BoxReady? <==> boxEnd == |rows| - 1) && (w.phase.BoxReady? <==> w.firstExit.None?)
            && (w.firstExit.Some? ==>
                  FirstToClear(rows, id.direction, w.firstExit.value, id.end + 1, boxEnd))
  {
    CandidateByParts(rows, p, id, boxEnd);
    forall j | boxEnd < j < |rows|
      ensures ClearsAll(rows, id.direction, j, id.end + 1, boxEnd)
              <==> ClosesBeyond(rows[j], id.direction, MinLow(rows, id.end + 1, boxEnd + 1), MaxHigh(rows, id.end + 1, boxEnd + 1))
    {
      ClearsTheShelf(rows, id.direction, j, id.end + 1, boxEnd);
    }
  }

  lemma ZoneInBars(rows: seq<Row>, id: Identity, lo: int)
    requires 0 <= id.start < id.end < |rows| && 0 <= lo
    ensures var a, b := AnchorStart(rows[id.start], id.direction), AnchorEnd(rows[id.end], id.direction);
            ShortOfZone(rows, id, lo) <==> !Touched(rows, id.direction, Fibonacci(a, b, 1.618), lo, |rows|)
  {
  }

  lemma CandidateByParts(rows: seq<Row>, p: Parameters, id: Identity, boxEnd: int)
    requires Sized(p, id, boxEnd) && boxEnd < |rows| && ValidParameters(p)
    ensures var low, high := MinLow(rows, id.end + 1, boxEnd + 1), MaxHigh(rows, id.end + 1, boxEnd + 1);
            var q := QualifiedImpulseAndBox(rows, id.start, id.end, low, high, id.direction, p);
            && (Candidate(rows, p, id, boxEnd).Some? <==>
                  && !SkippedShelf(rows, id.direction, boxEnd, id.end + 1) && q.Some?
                  && !Touched(rows, id.direction, Fibonacci(AnchorStart(rows[id.start], id.direction), AnchorEnd(rows[id.end], id.direction), 1.618),
                              boxEnd + 1, |rows|))
            && (Candidate(rows, p, id, boxEnd).Some? ==> var w := Candidate(rows, p, id, boxEnd).value;
                  && w.firstExit == FirstExit(rows, id.direction, low, high, boxEnd + 1, |rows|)
                  && (w.phase.BoxReady? <==> w.firstExit.None?) && (w.firstExit.None? ==> boxEnd == |rows| - 1))
  {
  }

  // ----- the search loops -----

  datatype Rank = Rank(shelfEnd: int, shelfBars: int, broken: int)

  predicate RankLess(x: Rank, y: Rank) {
    || x.shelfEnd < y.shelfEnd
    || (x.shelfEnd == y.shelfEnd && (x.shelfBars < y.shelfBars
                                     || (x.shelfBars == y.shelfBars && x.broken < y.broken)))
  }

  datatype Entry = Entry(rank: Rank, watch: Watch)

  function FreshRank(w: Watch): Rank {
    Rank(w.boxEnd, w.boxEnd - w.boxStart + 1, if w.firstExit.Some? then 1 else 0)
  }

  /** `selected` holds exactly `expected` under this identity, with its search rank. */
  predicate Holds(selected: map<Identity, Entry>, id: Identity, expected: Option<Watch>) {
    if id in selected then expected == Some(selected[id].watch) && selected[id].rank == FreshRank(selected[id].watch)
    else expected.None?
  }

  predicate Same(before: map<Identity, Entry>, after: map<Identity, Entry>, id: Identity) {
    if id in before then id in after && after[id] == before[id] else id !in after
  }

  /** Identities one (shelf end, shelf length) pair can produce. */
  predicate OnShelf(id: Identity, d: Direction, boxEnd: int, boxN: int) {
    id.direction == d && id.end == boxEnd - boxN
  }

  datatype Shelf = Shelf(low: real, high: real, firstExit: Option<int>)

  predicate Measured(rows: seq<Row>, d: Direction, boxEnd: int, boxStart: int, shelf: Shelf) {
    && 0 <= boxStart <= boxEnd < |rows|
    && (boxEnd == |rows| - 1 ==> !LastBarBreaksShelf(rows, d, boxStart))
    && shelf.low == MinLow(rows, boxStart, boxEnd + 1) && shelf.high == MaxHigh(rows, boxStart, boxEnd + 1)
    && shelf.firstExit == FirstExit(rows, d, shelf.low, shelf.high, boxEnd + 1, |rows|)
    && (boxEnd == |rows| - 1 || shelf.firstExit.Some?)
  }

  /** Loop body for one impulse length: gates, stale-zone test, observation. */
  method Examine(rows: seq<Row>, p: Parameters, id: Identity, boxEnd: int, shelf: Shelf,
                 ghost found: Identity -> Option<Watch>)
    returns (w: Option<Watch>)
    requires ValidParameters(p) && InSearchRange(p, id, boxEnd)
    requires Measured(rows, id.direction, boxEnd, id.end + 1, shelf)
    requires forall id: Identity {:trigger Candidate(rows, p, id, boxEnd)} :: found(id) == Candidate(rows, p, id, boxEnd)
    ensures w == found(id)
    ensures w.Some? ==> w.value.boxEnd == boxEnd && w.value.boxStart == id.end + 1 && w.value.firstExit == shelf.firstExit
  {
    ghost var expected := Candidate(rows, p, id, boxEnd);
    var qualified := QualifiedImpulseAndBox(rows, id.start, id.end, shelf.low, shelf.high, id.direction, p);
    if qualified.None? {
      return None;
    }
    var q := qualified.value;
    var zone := Fibonacci(q.a, q.b, 1.618);
    if Touched(rows, id.direction, zone, boxEnd + 1, |rows|) {
      return None;
    }
    var phase := if shelf.firstExit.Some? then BoxBreakObserved else BoxReady;
    return Some(Watch(id.direction, phase, |rows| - 1, id.start, id.end, q.a, q.b, id.end + 1, boxEnd,
                      shelf.low, shelf.high, shelf.firstExit, q.b, zone, Fibonacci(q.a, q.b, 2.618)));
  }

  /** A shelf the search passes over whatever the impulse before it. */
  predicate SkippedShelf(rows: seq<Row>, d: Direction, boxEnd: int, boxStart: int)
    requires 0 <= boxStart <= boxEnd < |rows|
  {
    var end := |rows| - 1;
    || (boxEnd == end && LastBarBreaksShelf(rows, d, boxStart))
    || (boxEnd != end && FirstExit(rows, d, MinLow(rows, boxStart, boxEnd + 1), MaxHigh(rows, boxStart, boxEnd + 1),
                                   boxEnd + 1, end + 1).None?)
  }

  lemma SkippedHasNone(rows: seq<Row>, p: Parameters, d: Direction, boxEnd: int, boxN: int)
    requires 0 <= boxEnd - boxN + 1 <= boxEnd < |rows| && SkippedShelf(rows, d, boxEnd, boxEnd - boxN + 1)
    ensures forall id: Identity :: OnShelf(id, d, boxEnd, boxN) ==> Candidate(rows, p, id, boxEnd).None?
  {
    forall id: Identity | OnShelf(id, d, boxEnd, boxN) ensures Candidate(rows, p, id, boxEnd).None? {
      SkippedIsNone(rows, p, id, boxEnd);
    }
  }

  lemma SkippedIsNone(rows: seq<Row>, p: Parameters, id: Identity, boxEnd: int)
    requires 0 <= id.end + 1 <= boxEnd < |rows| && SkippedShelf(rows, id.direction, boxEnd, id.end + 1)
    ensures Candidate(rows, p, id, boxEnd).None?
  {
  }

  lemma EarlyHasNone(rows: seq<Row>, p: Parameters, d: Direction, boxEnd: int, boxN: int)
    requires boxEnd - boxN + 1 - p.firstMinBars < ATR_BARS
    ensures forall id: Identity :: OnShelf(id, d, boxEnd, boxN) ==> Candidate(rows, p, id, boxEnd).None?
  {
    forall id: Identity | OnShelf(id, d, boxEnd, boxN) ensures Candidate(rows, p, id, boxEnd).None? {
      assert !InSearchRange(p, id, boxEnd);
    }
  }

  /** Gates that depend on the shelf alone; a shelf that fails them yields no candidate. */
  method MeasureShelf(rows: seq<Row>, p: Parameters, d: Direction, boxEnd: int, boxN: int)
    returns (shelf: Option<Shelf>)
    requires ValidParameters(p) && 0 <= boxEnd < |rows| && p.boxMinBars <= boxN <= p.boxMaxBars
    ensures shelf.None? ==> forall id: Identity :: OnShelf(id, d, boxEnd, boxN) ==> Candidate(rows, p, id, boxEnd).None?
    ensures shelf.Some? ==> Measured(rows, d, boxEnd, boxEnd - boxN + 1, shelf.value)
  {
    var end := |rows| - 1;
    var boxStart := boxEnd - boxN + 1;
    if boxStart - p.firstMinBars < ATR_BARS {
      EarlyHasNone(rows, p, d, boxEnd, boxN);
      return None;
    }
    if boxEnd == end && LastBarBreaksShelf(rows, d, boxStart) {
      SkippedHasNone(rows, p, d, boxEnd, boxN);
      return None;
    }
    var boxLow := MinLow(rows, boxStart, boxEnd + 1);
    var boxHigh := MaxHigh(rows, boxStart, boxEnd + 1);
    var firstExit := FirstExit(rows, d, boxLow, boxHigh, boxEnd + 1, end + 1);
    if boxEnd != end && firstExit.None? {
      SkippedHasNone(rows, p, d, boxEnd, boxN);
      return None;
    }
    return Some(Shelf(boxLow, boxHigh, firstExit));
  }

  method SearchImpulses(rows: seq<Row>, p: Parameters, d: Direction, boxEnd: int, boxN: int, shelf: Shelf,
                        selected: map<Identity, Entry>, ghost found: Identity -> Option<Watch>)
    returns (result: map<Identity, Entry>)
    requires ValidParameters(p) && p.boxMinBars <= boxN <= p.boxMaxBars
    requires Measured(rows, d, boxEnd, boxEnd - boxN + 1, shelf)
    requires forall id: Identity {:trigger Candidate(rows, p, id, boxEnd)} :: found(id) == Candidate(rows, p, id, boxEnd)
    requires forall id: Identity :: found(id).Some? ==> InSearchRange(p, id, boxEnd)
    requires forall id: Identity :: id in selected && id.direction == d ==> boxEnd <= selected[id].rank.shelfEnd
    requires forall id: Identity :: id in selected && OnShelf(id, d, boxEnd, boxN) ==> boxEnd < selected[id].rank.shelfEnd
    ensures forall id: Identity :: id in result && id.direction == d ==> boxEnd <= result[id].rank.shelfEnd
    ensures forall id: Identity ::
      if OnShelf(id, d, boxEnd, boxN) && id !in selected
      then Holds(result, id, found(id))
      else Same(selected, result, id)
  {
    result := selected;
    var firstEnd := boxEnd - boxN;
    for firstN := p.firstMinBars to p.firstMaxBars + 1
      invariant forall id: Identity :: id in result && id.direction == d ==> boxEnd <= result[id].rank.shelfEnd
      invariant forall id: Identity :: (id in selected || !OnShelf(id, d, boxEnd, boxN) || id.start <= firstEnd - firstN + 1)
                                       ==> Same(selected, result, id)
      invariant forall a :: firstEnd - firstN + 1 < a ==>
        (var id := Identity(d, a, firstEnd); id !in selected ==> Holds(result, id, found(id)))
    {
      var firstStart := firstEnd - firstN + 1;
      if firstStart >= ATR_BARS {
        var id := Identity(d, firstStart, firstEnd);
        var watch := Examine(rows, p, id, boxEnd, shelf, found);
        if watch.Some? {
          var rank := Rank(boxEnd, boxN, if shelf.firstExit.Some? then 1 else 0);
          if id !in result || RankLess(result[id].rank, rank) {
            result := result[id := Entry(rank, watch.value)];
          }
        }
      }
    }
  }

  method SearchShelves(rows: seq<Row>, p: Parameters, d: Direction, boxEnd: int, selected: map<Identity, Entry>)
    returns (result: map<Identity, Entry>)
    requires ValidParameters(p) && 0 <= boxEnd < |rows|
    requires forall id: Identity :: id in selected && id.direction == d ==> boxEnd < selected[id].rank.shelfEnd
    ensures forall id: Identity :: id in result && id.direction == d ==> boxEnd <= result[id].rank.shelfEnd
    ensures forall id: Identity :: if id.direction == d && id !in selected
                         then Holds(result, id, Candidate(rows, p, id, boxEnd))
                         else Same(selected, result, id)
  {
    result := selected;
    for boxN := p.boxMinBars to p.boxMaxBars + 1
      invariant forall id: Identity :: id in result && id.direction == d ==> boxEnd <= result[id].rank.shelfEnd
      invariant forall id: Identity :: if id.direction == d && id !in selected && p.boxMinBars <= boxEnd - id.end < boxN
                             then Holds(result, id, Candidate(rows, p, id, boxEnd))
                             else Same(selected, result, id)
    {
      var shelf := MeasureShelf(rows, p, d, boxEnd, boxN);
      if shelf.Some? {
        result := SearchImpulses(rows, p, d, boxEnd, boxN, shelf.value, result,
                                 (id: Identity) => Candidate(rows, p, id, boxEnd));
      }
    }
  }

  method SearchDirection(rows: seq<Row>, p: Parameters, d: Direction, selected: map<Identity, Entry>)
    returns (result: map<Identity, Entry>)
    requires ValidParameters(p) && 0 < |rows|
    requires forall id: Identity :: id in selected ==> id.direction != d
    ensures forall id: Identity :: if id.direction == d then Holds(result, id, Fresh(rows, p, id))
                         else Same(selected, result, id)
  {
    result := selected;
    var boxEnd := |rows| - 1;
    while boxEnd >= OldestShelfEnd(rows, p)
      invariant OldestShelfEnd(rows, p) - 1 <= boxEnd < |rows|
      invariant forall id: Identity :: id in result && id.direction == d ==> boxEnd < result[id].rank.shelfEnd
      invariant forall id: Identity :: if id.direction == d then Holds(result, id, Latest(rows, p, id, boxEnd + 1))
                             else Same(selected, result, id)
    {
      result := SearchShelves(rows, p, d, boxEnd, result);
      boxEnd := boxEnd - 1;
    }
  }

  // ----- validation of the previous candle's observations -----

  datatype PriorError =
    | NotPreviousCandle
    | InvalidIndices
    | GeometryMismatch
    | DuplicateIdentity
    | ReadyWithBreakout
    | InvalidBreakoutEvidence

  /** First objection the detector raises to one previous watch, given those accepted before it. */
  function Objection(rows: seq<Row>, accepted: map<Identity, Watch>, w: Watch): Option<PriorError>
    requires 0 < |rows|
  {
    var end := |rows| - 1;
    if w.asOf != end - 1 then Some(NotPreviousCandle)
    else if !(0 <= w.anchorStart < w.anchorEnd < w.boxStart <= w.boxEnd <= end - 1) then Some(InvalidIndices)
    else if !(&& w.anchorStartPrice == AnchorStart(rows[w.anchorStart], w.direction)
              && w.anchorEndPrice == AnchorEnd(rows[w.anchorEnd], w.direction)
              && w.boxLow == MinLow(rows, w.boxStart, w.boxEnd + 1)
              && w.boxHigh == MaxHigh(rows, w.boxStart, w.boxEnd + 1)) then Some(GeometryMismatch)
    else if w.Id() in accepted then Some(DuplicateIdentity)
    else if w.phase.BoxReady? && w.firstExit.Some? then Some(ReadyWithBreakout)
    else if w.phase.BoxBreakObserved? && !(w.firstExit.Some? && w.boxEnd < w.firstExit.value <= end - 1)
    then Some(InvalidBreakoutEvidence)
    else None
  }

  function ById(previous: seq<Watch>): map<Identity, Watch> {
    if previous == [] then map[]
    else
      var last := previous[|previous| - 1];
      ById(previous[..|previous| - 1])[last.Id() := last]
  }

  /** Objection to the earliest faulty watch of the sequence, if any. */
  function FirstObjection(rows: seq<Row>, previous: seq<Watch>): Option<PriorError>
    requires 0 < |rows|
  {
    if previous == [] then None
    else
      var init := previous[..|previous| - 1];
      var earlier := FirstObjection(rows, init);
      if earlier.Some? then earlier else Objection(rows, ById(init), previous[|previous| - 1])
  }

  lemma {:induction false} ObjectionPersists(rows: seq<Row>, previous: seq<Watch>, k: nat)
    requires 0 < |rows| && k <= |previous|
    requires FirstObjection(rows, previous[..k]).Some?
    ensures FirstObjection(rows, previous) == FirstObjection(rows, previous[..k])
    decreases |previous| - k
  {
    if k == |previous| {
      assert previous[..k] == previous;
    } else {
      assert previous[..k + 1][..k] == previous[..k];
      ObjectionPersists(rows, previous, k + 1);
    }
  }

  method ValidatePrevious(rows: seq<Row>, previous: seq<Watch>) returns (r: Result<map<Identity, Watch>, PriorError>)
    requires 0 < |rows|
    ensures r == match FirstObjection(rows, previous)
                 case Some(e) => Failure(e)
                 case None => Success(ById(previous))
  {
    var prior: map<Identity, Watch> := map[];
    for k := 0 to |previous|
      invariant prior == ById(previous[..k])
      invariant FirstObjection(rows, previous[..k]).None?
    {
      var watch := previous[k];
      assert previous[..k + 1][..k] == previous[..k];
      var objection := Objection(rows, prior, watch);
      if objection.Some? {
        ObjectionPersists(rows, previous, k + 1);
        return Failure(objection.value);
      }
      prior := prior[watch.Id() := watch];
    }
    assert previous[..|previous|] == previous;
    return Success(prior);
  }

  // ----- state carry -----

  /** What the next output holds for an identity that was observed on the previous candle. */
  function Carry(rows: seq<Row>, p: Parameters, prev: Watch, now: Option<Watch>): Option<Watch>
    requires 0 < |rows| && 0 <= prev.anchorEnd
  {
    var end := |rows| - 1;
    if end - prev.boxEnd > p.secondMaxBars
       || Touched(rows, prev.direction, prev.fibonacci1618, prev.anchorEnd + 1, end + 1) then None
    else if prev.phase.BoxBreakObserved? then Some(prev.(asOf := end))
    else if ClosesBeyond(rows[end], prev.direction, prev.boxLow, prev.boxHigh) then
      Some(prev.(phase := BoxBreakObserved, asOf := end, firstExit := Some(end)))
    else if now.Some? then now
    else Some(prev.(asOf := end))
  }

  function CarryRank(rows: seq<Row>, prev: Watch, now: Option<Watch>): Rank
    requires 0 < |rows|
  {
    var end := |rows| - 1;
    if prev.phase.BoxBreakObserved? || ClosesBeyond(rows[end], prev.direction, prev.boxLow, prev.boxHigh) then Rank(end, 0, 0)
    else if now.Some? then FreshRank(now.value)
    else Rank(prev.boxEnd, 0, 0)
  }

  lemma CarryIsSound(rows: seq<Row>, p: Parameters, prev: Watch, now: Option<Watch>)
    requires 1 < |rows| && Sound(rows, |rows| - 2, prev)
    requires now.Some? ==> Sound(rows, |rows| - 1, now.value) && now.value.Id() == prev.Id()
    requires Carry(rows, p, prev, now).Some?
    ensures Sound(rows, |rows| - 1, Carry(rows, p, prev, now).value)
    ensures Carry(rows, p, prev, now).value.Id() == prev.Id()
  {
    FirstExitExtends(rows, prev.direction, prev.boxLow, prev.boxHigh, prev.boxEnd + 1, |rows| - 1);
  }

  lemma FirstExitExtends(rows: seq<Row>, d: Direction, boxLow: real, boxHigh: real, lo: int, hi: int)
    requires 0 <= lo <= hi < |rows|
    ensures FirstExit(rows, d, boxLow, boxHigh, lo, hi + 1) ==
            if FirstExit(rows, d, boxLow, boxHigh, lo, hi).Some? then FirstExit(rows, d, boxLow, boxHigh, lo, hi)
            else if ClosesBeyond(rows[hi], d, boxLow, boxHigh) then Some(hi) else None
    decreases hi - lo
  {
  }

  // ----- the detector -----

  /** Enough history and well-formed candles; otherwise the detector reports nothing. */
  predicate Searchable(rows: seq<Row>, p: Parameters) {
    && ATR_BARS + p.firstMinBars + p.boxMinBars <= |rows|
    && forall i :: 0 <= i < |rows| ==> ValidRow(rows[i])
  }

  predicate WellPlaced(prior: map<Identity, Watch>) {
    forall id :: id in prior ==> prior[id].Id() == id && 0 <= prior[id].anchorEnd
  }

  /** The observation reported for an identity, as a function of the frame and the previous output. */
  function Detected(rows: seq<Row>, p: Parameters, prior: map<Identity, Watch>, id: Identity): Option<Watch>
    requires WellPlaced(prior)
  {
    if !Searchable(rows, p) || |rows| == 0 then None
    else if id in prior then Carry(rows, p, prior[id], Fresh(rows, p, id))
    else Fresh(rows, p, id)
  }

  function DetectedRank(rows: seq<Row>, p: Parameters, prior: map<Identity, Watch>, w: Watch): Rank
    requires 0 < |rows|
  {
    if w.Id() in prior then CarryRank(rows, prior[w.Id()], Fresh(rows, p, w.Id())) else FreshRank(w)
  }

  predicate ByRank(rows: seq<Row>, p: Parameters, prior: map<Identity, Watch>, out: seq<Watch>)
    requires 0 < |rows|
  {
    forall i, j :: 0 <= i < j < |out| ==>
      !RankLess(DetectedRank(rows, p, prior, out[i]), DetectedRank(rows, p, prior, out[j]))
  }

  predicate DistinctIdentities(watches: seq<Watch>) {
    forall i, j :: 0 <= i < j < |watches| ==> watches[i].Id() != watches[j].Id()
  }

  /** The watch reported under an identity. */
  function Lookup(out: seq<Watch>, id: Identity): Option<Watch> {
    if out == [] then None
    else if out[|out| - 1].Id() == id then Some(out[|out| - 1])
    else Lookup(out[..|out| - 1], id)
  }

  lemma {:induction false} LookupFinds(out: seq<Watch>, id: Identity, w: Watch)
    requires DistinctIdentities(out) && w.Id() == id
    ensures w in out <==> Lookup(out, id) == Some(w)
  {
    if out != [] {
      var init, last := out[..|out| - 1], out[|out| - 1];
      LookupFinds(init, id, w);
      assert out == init + [last];
      assert forall v :: v in init ==> v.Id() != last.Id();
    }
  }

  lemma {:induction false} LookupHasId(out: seq<Watch>, id: Identity)
    ensures Lookup(out, id).Some? ==> Lookup(out, id).value in out && Lookup(out, id).value.Id() == id
  {
    if out != [] {
      LookupHasId(out[..|out| - 1], id);
    }
  }

  /** `out` lists exactly the detected observations, one per identity. */
  ghost predicate Reports(rows: seq<Row>, p: Parameters, prior: map<Identity, Watch>, out: seq<Watch>)
    requires WellPlaced(prior)
  {
    && DistinctIdentities(out)
    && forall id {:trigger Lookup(out, id)} :: Lookup(out, id) == Detected(rows, p, prior, id)
  }

  lemma {:induction false} AcceptedIsWellPlaced(rows: seq<Row>, previous: seq<Watch>)
    requires 0 < |rows| && FirstObjection(rows, previous).None?
    ensures WellPlaced(ById(previous))
    ensures forall w :: w in previous ==> w.Id() in ById(previous) && ById(previous)[w.Id()] == w
    ensures forall id :: id in ById(previous) ==> ById(previous)[id] in previous
    ensures forall id :: id in ById(previous) ==> 0 <= id.end && ById(previous)[id].boxEnd < |rows|
  {
    if previous != [] {
      AcceptedIsWellPlaced(rows, previous[..|previous| - 1]);
    }
  }

  function At(selected: map<Identity, Entry>, id: Identity): Option<Watch> {
    if id in selected then Some(selected[id].watch) else None
  }

  /** The table holds what is carried of this previous observation. */
  predicate Carried(rows: seq<Row>, p: Parameters, prev: Watch, selected: map<Identity, Entry>, result: map<Identity, Entry>)
    requires 0 < |rows| && 0 <= prev.anchorEnd
  {
    var id := prev.Id();
    && At(result, id) == Carry(rows, p, prev, At(selected, id))
    && (id in result ==> result[id].rank == CarryRank(rows, prev, At(selected, id)))
  }

  /** The state-carry pass over every previous identity, in any order. */
  method CarryState(rows: seq<Row>, p: Parameters, prior: map<Identity, Watch>, selected: map<Identity, Entry>)
    returns (result: map<Identity, Entry>)
    requires 0 < |rows| && WellPlaced(prior)
    requires forall id: Identity :: id in selected ==> selected[id].rank == FreshRank(selected[id].watch)
    ensures forall id: Identity :: id in prior ==> Carried(rows, p, prior[id], selected, result)
    ensures forall id: Identity :: id !in prior ==> Same(selected, result, id)
  {
    result := selected;
    var rest := prior.Keys;
    while rest != {}
      invariant rest <= prior.Keys
      invariant forall id: Identity :: id in rest || id !in prior ==> Same(selected, result, id)
      invariant forall id: Identity :: id in prior && id !in rest ==> Carried(rows, p, prior[id], selected, result)
      decreases |rest|
    {
      var id :| id in rest;
      rest := rest - {id};
      assert Same(selected, result, id) && prior[id].Id() == id;
      ghost var before := result;
      result := CarryOne(rows, p, prior[id], result);
      forall other: Identity | other in rest || other !in prior ensures Same(selected, result, other) {
        assert Same(selected, before, other) && Same(before, result, other);
      }
      forall other: Identity | other in prior && other !in rest ensures Carried(rows, p, prior[other], selected, result) {
        if other != id {
          assert Carried(rows, p, prior[other], selected, before) && Same(before, result, other);
        }
      }
    }
  }

  /** One previous identity: dropped, frozen, broken now, re-observed, or merely kept. */
  method CarryOne(rows: seq<Row>, p: Parameters, prev: Watch, selected: map<Identity, Entry>) returns (result: map<Identity, Entry>)
    requires 0 < |rows| && 0 <= prev.anchorEnd
    requires prev.Id() in selected ==> selected[prev.Id()].rank == FreshRank(selected[prev.Id()].watch)
    ensures At(result, prev.Id()) == Carry(rows, p, prev, At(selected, prev.Id()))
    ensures prev.Id() in result ==> result[prev.Id()].rank == CarryRank(rows, prev, At(selected, prev.Id()))
    ensures forall other: Identity :: other != prev.Id() ==> Same(selected, result, other)
  {
    var id, end := prev.Id(), |rows| - 1;
    result := selected;
    if end - prev.boxEnd > p.secondMaxBars
       || Touched(rows, prev.direction, prev.fibonacci1618, prev.anchorEnd + 1, end + 1) {
      result := result - {id};
    } else if prev.phase.BoxBreakObserved? {
      result := result[id := Entry(Rank(end, 0, 0), prev.(asOf := end))];
    } else if ClosesBeyond(rows[end], prev.direction, prev.boxLow, prev.boxHigh) {
      var frozen := prev.(phase := BoxBreakObserved, asOf := end, firstExit := Some(end));
      result := result[id := Entry(Rank(end, 0, 0), frozen)];
    } else if id !in result {
      result := result[id := Entry(Rank(prev.boxEnd, 0, 0), prev.(asOf := end))];
    }
  }

  /** Strongest rank first; identities outside the table do not matter. */
  function ByStrength(selected: map<Identity, Entry>): Order<Identity> {
    (a: Identity, b: Identity) => !RankLess(RankOf(selected, a), RankOf(selected, b))
  }

  function RankOf(selected: map<Identity, Entry>, id: Identity): Rank {
    if id in selected then selected[id].rank else Rank(0, 0, 0)
  }

  predicate Descending(selected: map<Identity, Entry>, ids: seq<Identity>) {
    (forall id :: id in ids ==> id in selected) && Ranked(ByStrength(selected), ids)
  }

  /** Identities of the table, strongest rank first. */
  method Ordered(selected: map<Identity, Entry>) returns (ids: seq<Identity>)
    ensures multiset(ids) == multiset(selected.Keys)
    ensures Descending(selected, ids)
  {
    var listed: seq<Identity> := [];
    var rest := selected.Keys;
    while rest != {}
      invariant rest <= selected.Keys
      invariant multiset(listed) + multiset(rest) == multiset(selected.Keys)
      decreases |rest|
    {
      var id :| id in rest;
      listed := listed + [id];
      rest := rest - {id};
    }
    SortedIsRanked(ByStrength(selected), listed);
    ids := Sorted(ByStrength(selected), listed);
    forall id | id in ids ensures id in selected {
      assert id in multiset(ids) && multiset(ids) == multiset(selected.Keys);
      assert id in multiset(selected.Keys);
    }
  }

  method CollectFresh(rows: seq<Row>, p: Parameters) returns (selected: map<Identity, Entry>)
    requires ValidParameters(p) && 0 < |rows|
    ensures forall id: Identity :: At(selected, id) == Fresh(rows, p, id)
    ensures forall id: Identity :: id in selected ==> selected[id].rank == FreshRank(selected[id].watch)
  {
    selected := SearchDirection(rows, p, Short, map[]);
    selected := SearchDirection(rows, p, Long, selected);
    forall id: Identity
      ensures At(selected, id) == Fresh(rows, p, id)
      ensures id in selected ==> selected[id].rank == FreshRank(selected[id].watch)
    {
      assert Holds(selected, id, Fresh(rows, p, id));
    }
  }

  /** Table after search and carry: exactly the detected observations, with their ranks. */
  method Select(rows: seq<Row>, p: Parameters, prior: map<Identity, Watch>) returns (selected: map<Identity, Entry>)
    requires ValidParameters(p) && Searchable(rows, p) && WellPlaced(prior)
    ensures forall id: Identity :: At(selected, id) == Detected(rows, p, prior, id)
    ensures forall id: Identity :: id in selected ==>
      selected[id].rank == (if id in prior then CarryRank(rows, prior[id], Fresh(rows, p, id))
                            else FreshRank(selected[id].watch))
  {
    var found := CollectFresh(rows, p);
    selected := CarryState(rows, p, prior, found);
    forall id: Identity ensures At(selected, id) == Detected(rows, p, prior, id) {
      assert At(found, id) == Fresh(rows, p, id);
      if id !in prior { assert Same(found, selected, id); }
    }
    forall id: Identity | id in selected
      ensures selected[id].rank == (if id in prior then CarryRank(rows, prior[id], Fresh(rows, p, id))
                                    else FreshRank(selected[id].watch))
    {
      assert At(found, id) == Fresh(rows, p, id);
      if id !in prior { assert Same(found, selected, id); }
    }
  }

  lemma DetectedHasId(rows: seq<Row>, p: Parameters, prior: map<Identity, Watch>, id: Identity)
    requires WellPlaced(prior) && Detected(rows, p, prior, id).Some?
    ensures Detected(rows, p, prior, id).value.Id() == id
  {
    if Fresh(rows, p, id).Some? { FreshIsSound(rows, p, id); }
  }

  lemma ListedUnderId(selected: map<Identity, Entry>, ids: seq<Identity>, out: seq<Watch>, id: Identity)
    requires forall id :: id in ids <==> id in selected
    requires forall i, j :: 0 <= i < j < |ids| ==> ids[i] != ids[j]
    requires forall id :: id in selected ==> selected[id].watch.Id() == id
    requires |out| == |ids| && forall i :: 0 <= i < |ids| ==> ids[i] in selected && out[i] == selected[ids[i]].watch
    ensures DistinctIdentities(out)
    ensures Lookup(out, id) == At(selected, id)
  {
    if id in selected {
      var i :| 0 <= i < |ids| && ids[i] == id;
      LookupFinds(out, id, out[i]);
    } else {
      LookupHasId(out, id);
    }
  }

  /** The detector on a frame whose last row is the newest closed candle. */
  method DetectWatches(rows: seq<Row>, p: Parameters, previous: seq<Watch>)
    returns (r: Result<seq<Watch>, PriorError>)
    requires ValidParameters(p)
    ensures !Searchable(rows, p) ==> r == Success([])
    ensures Searchable(rows, p) && FirstObjection(rows, previous).Some? ==>
              r == Failure(FirstObjection(rows, previous).value)
    ensures Searchable(rows, p) && FirstObjection(rows, previous).None? ==>
      && r.Success?
      && WellPlaced(ById(previous))
      && Reports(rows, p, ById(previous), r.value)
      && ByRank(rows, p, ById(previous), r.value)
  {
    if !Searchable(rows, p) {
      return Success([]);
    }
    var checked := ValidatePrevious(rows, previous);
    if checked.Failure? {
      return Failure(checked.error);
    }
    var prior := checked.value;
    AcceptedIsWellPlaced(rows, previous);
    var selected := Select(rows, p, prior);
    var ids := Ordered(selected);
    ListsTheSet(ids, selected.Keys);
    forall id: Identity | id in selected ensures selected[id].watch.Id() == id {
      assert At(selected, id) == Detected(rows, p, prior, id);
      DetectedHasId(rows, p, prior, id);
    }
    var out := seq(|ids|, (i: int) requires 0 <= i < |ids| && ids[i] in selected => selected[ids[i]].watch);
    forall id: Identity ensures Lookup(out, id) == Detected(rows, p, prior, id) {
      assert At(selected, id) == Detected(rows, p, prior, id);
      ListedUnderId(selected, ids, out, id);
    }
    return Success(out);
  }
}
