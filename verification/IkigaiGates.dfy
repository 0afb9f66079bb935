/**
  The gates of the first impulse and its shelf, bar by bar and price by price: what an accepted figure means
  without running bests, recursive extremes or signs.
 */
module IkigaiGates {
  import opened Market
  import opened Wrappers
  import opened IkigaiBox
  import opened IkigaiWatch
  import A = Arithmetic

  /** A low strictly below three bars on each side, or a high strictly above them. */
  predicate Turns(rows: seq<Row>, up: bool, i: int) {
    && 3 <= i && i + 3 < |rows|
    && forall j :: i - 3 <= j <= i + 3 && j != i ==> if up then rows[i].low < rows[j].low else rows[j].high < rows[i].high
  }

  lemma ReversalTurns(rows: seq<Row>, i: int, d: Direction)
    requires 0 <= i < |rows|
    ensures IsReversalOrigin(rows, i, d) <==> Turns(rows, d.Short?, i)
  {
  }

  /** The close at k takes back more than the permitted part of what the close at j had gained over A. */
  predicate TakesBack(rows: seq<Row>, d: Direction, p: Parameters, first: int, j: int, k: int)
    requires 0 <= first < |rows| && 0 <= j < |rows| && 0 <= k < |rows|
  {
    if d.Short? then
      rows[first].low < rows[j].close
      && p.maxInternalCounterCloseFraction * (rows[j].close - rows[first].low) < rows[j].close - rows[k].close
    else
      rows[j].close < rows[first].high
      && p.maxInternalCounterCloseFraction * (rows[first].high - rows[j].close) < rows[k].close - rows[j].close
  }

  /** Measured from the best close before it or from any close before it, the test is the same. */
  lemma AnyCloseDecides(rows: seq<Row>, d: Direction, p: Parameters, first: int, k: int)
    requires ValidParameters(p) && 0 <= first < k < |rows|
    ensures GivesBackAt(rows, first, k, d, p) <==> exists j :: first <= j < k && TakesBack(rows, d, p, first, j, k)
  {
    var b := BestCloseIsAClose(rows, d, first, k);
    BestTakesBack(rows, d, p, first, b, k);
    forall j | first <= j < k && TakesBack(rows, d, p, first, j, k) ensures TakesBack(rows, d, p, first, b, k) {
      BetterTakesBack(rows, d, p, first, j, b, k);
    }
  }

  lemma BestTakesBack(rows: seq<Row>, d: Direction, p: Parameters, first: int, b: int, k: int)
    requires 0 <= first < k < |rows| && first <= b < k && rows[b].close == BestClose(rows, d, first, k)
    ensures GivesBackAt(rows, first, k, d, p) <==> TakesBack(rows, d, p, first, b, k)
  {
    if d.Short? {
      A.TimesTo(p.maxInternalCounterCloseFraction, BestClose(rows, d, first, k) - rows[first].low, rows[b].close - rows[first].low);
    } else {
      A.TimesTo(p.maxInternalCounterCloseFraction, rows[first].high - BestClose(rows, d, first, k), rows[first].high - rows[b].close);
    }
  }

  lemma BetterTakesBack(rows: seq<Row>, d: Direction, p: Parameters, first: int, j: int, b: int, k: int)
    requires ValidParameters(p) && 0 <= first < |rows| && 0 <= j < |rows| && 0 <= b < |rows| && 0 <= k < |rows|
    requires TakesBack(rows, d, p, first, j, k)
    requires if d.Short? then rows[j].close <= rows[b].close else rows[b].close <= rows[j].close
    ensures TakesBack(rows, d, p, first, b, k)
  {
    var f := p.maxInternalCounterCloseFraction;
    if d.Short? {
      MoreGainedMoreLost(f, rows[j].close - rows[first].low, rows[b].close - rows[first].low,
                         rows[j].close - rows[k].close, rows[b].close - rows[k].close);
    } else {
      MoreGainedMoreLost(f, rows[first].high - rows[j].close, rows[first].high - rows[b].close,
                         rows[k].close - rows[j].close, rows[k].close - rows[b].close);
    }
  }

  lemma MoreGainedMoreLost(f: real, x: real, y: real, lostX: real, lostY: real)
    requires 0.0 < f < 1.0 && x <= y && lostY - lostX == y - x && f * x < lostX
    ensures f * y < lostY
  {
    A.DistributesTo(f, x, y - x, y);
    A.Monotone(y - x, f, 1.0);
    A.Commutes(f, y - x);
    assert (y - x) * 1.0 == y - x;
  }

  lemma {:induction false} BestCloseIsAClose(rows: seq<Row>, d: Direction, lo: int, hi: int) returns (b: int)
    requires 0 <= lo < hi <= |rows|
    ensures lo <= b < hi && rows[b].close == BestClose(rows, d, lo, hi)
    ensures forall j :: lo <= j < hi ==> if d.Short? then rows[j].close <= rows[b].close else rows[b].close <= rows[j].close
    decreases hi - lo
  {
    if lo + 1 == hi {
      b := lo;
    } else {
      b := BestCloseIsAClose(rows, d, lo, hi - 1);
      if Further(rows[b].close, rows[hi - 1].close, d) != rows[b].close { b := hi - 1; }
    }
  }

  /** High to low, stretched to the close before it. */
  function Reached(rows: seq<Row>, i: int): real
    requires 0 <= i < |rows|
  {
    var before := rows[if i > 0 then i - 1 else i].close;
    (if before > rows[i].high then before else rows[i].high) - (if before < rows[i].low then before else rows[i].low)
  }

  function TotalReach(rows: seq<Row>, lo: int, hi: int): real
    requires 0 <= lo <= hi <= |rows|
  {
    if lo == hi then 0.0 else TotalReach(rows, lo, hi - 1) + Reached(rows, hi - 1)
  }

  lemma {:induction false} SumFromTheEnd(rows: seq<Row>, lo: int, hi: int)
    requires 0 <= lo < hi <= |rows|
    ensures SumTrueRange(rows, lo, hi) == SumTrueRange(rows, lo, hi - 1) + TrueRange(rows, hi - 1)
    decreases hi - lo
  {
    if lo + 1 < hi { SumFromTheEnd(rows, lo + 1, hi); }
  }

  lemma {:induction false} TrueRangeIsReach(rows: seq<Row>, lo: int, hi: int)
    requires 0 <= lo <= hi <= |rows| && forall i :: 0 <= i < |rows| ==> ValidRow(rows[i])
    ensures SumTrueRange(rows, lo, hi) == TotalReach(rows, lo, hi)
    decreases hi - lo
  {
    if lo < hi {
      TrueRangeIsReach(rows, lo, hi - 1);
      SumFromTheEnd(rows, lo, hi);
      assert ValidRow(rows[hi - 1]);
    }
  }

  /** Bars whose body points along the impulse. */
  function Along(rows: seq<Row>, d: Direction, first: int, last: int): set<int>
    requires 0 <= first <= last + 1 <= |rows|
  {
    set i | first <= i <= last && if d.Short? then rows[i].open < rows[i].close else rows[i].close < rows[i].open
  }

  lemma {:induction false} ForwardBarsAreCounted(rows: seq<Row>, d: Direction, lo: int, hi: int)
    requires 0 <= lo <= hi <= |rows|
    ensures ForwardBars(rows, lo, hi, d) == |Along(rows, d, lo, hi - 1)|
    decreases hi - lo
  {
    if lo < hi {
      ForwardBarsAreCounted(rows, d, lo + 1, hi);
      var forward := if d.Short? then rows[lo].open < rows[lo].close else rows[lo].close < rows[lo].open;
      assert Along(rows, d, lo, hi - 1) == (if forward then {lo} else {}) + Along(rows, d, lo + 1, hi - 1);
    }
  }

  /** A turns, no bar strictly inside turns back or takes back too much, no bar goes beyond A, and B lies beyond all others. */
  predicate RunsClean(rows: seq<Row>, d: Direction, p: Parameters, first: int, last: int)
    requires 0 <= first < last < |rows|
  {
    && Turns(rows, d.Short?, first)
    && (forall k :: first < k < last ==> !Turns(rows, d.Long?, k))
    && (forall j, k :: first <= j < k < last ==> !TakesBack(rows, d, p, first, j, k))
    && (forall i :: first <= i <= last ==> if d.Short? then rows[first].low <= rows[i].low else rows[i].high <= rows[first].high)
    && forall i :: first <= i < last ==> if d.Short? then rows[i].high < rows[last].high else rows[last].low < rows[i].low
  }

  lemma CleanRuns(rows: seq<Row>, d: Direction, p: Parameters, first: int, last: int)
    requires ValidParameters(p) && 0 <= first < last < |rows|
    ensures CleanImpulse(rows, first, last, d, p) <==> RunsClean(rows, d, p, first, last)
  {
    ReversalTurns(rows, first, d);
    InsideIsClean(rows, d, p, first, last);
    ExtremesInBars(rows, d, first, last);
  }

  lemma InsideIsClean(rows: seq<Row>, d: Direction, p: Parameters, first: int, last: int)
    requires ValidParameters(p) && 0 <= first < last < |rows|
    ensures (forall k :: first < k < last ==> !IsReversalOrigin(rows, k, Flip(d)) && !GivesBackAt(rows, first, k, d, p)) <==>
            && (forall k :: first < k < last ==> !Turns(rows, d.Long?, k))
            && (forall j, k :: first <= j < k < last ==> !TakesBack(rows, d, p, first, j, k))
  {
    forall k | first < k < last ensures IsReversalOrigin(rows, k, Flip(d)) <==> Turns(rows, d.Long?, k) {
      ReversalTurns(rows, k, Flip(d));
    }
    forall j, k | first <= j < k < last && TakesBack(rows, d, p, first, j, k) ensures GivesBackAt(rows, first, k, d, p) {
      AnyCloseDecides(rows, d, p, first, k);
    }
    forall k | first < k < last && GivesBackAt(rows, first, k, d, p)
      ensures exists j :: first <= j < k && TakesBack(rows, d, p, first, j, k)
    {
      AnyCloseDecides(rows, d, p, first, k);
    }
  }

  lemma ExtremesInBars(rows: seq<Row>, d: Direction, first: int, last: int)
    requires 0 <= first < last < |rows|
    ensures FrozenExtremes(rows, first, last, d) <==>
              && (forall i :: first <= i <= last ==> if d.Short? then rows[first].low <= rows[i].low else rows[i].high <= rows[first].high)
              && forall i :: first <= i < last ==> if d.Short? then rows[i].high < rows[last].high else rows[last].low < rows[i].low
  {
    var a := MinLowIsALow(rows, first, last + 1);
    var b := MaxHighIsAHigh(rows, first, last + 1);
    var c := MinLowIsALow(rows, first, last);
    var e := MaxHighIsAHigh(rows, first, last);
  }

  /** Large against the mean reach of the bars before it and against the price of A. */
  predicate Large(a: real, size: real, mean: real, p: Parameters) {
    0.0 < size && 0.0 < a && mean != 0.0 && p.minImpulseAtr * mean <= size && p.minImpulseFraction * a <= size
  }

  function MeanReach(rows: seq<Row>, first: int): real
    requires 14 <= first <= |rows|
  {
    TotalReach(rows, first - 14, first) / 14.0
  }

  /** From the first open to the last close, along the impulse. */
  function Gain(rows: seq<Row>, d: Direction, first: int, last: int): real
    requires 0 <= first < last < |rows|
  {
    if d.Short? then rows[last].close - rows[first].open else rows[first].open - rows[last].close
  }

  /** Three fifths of the size in closes and of the bars in direction. */
  predicate EndsStrong(rows: seq<Row>, d: Direction, first: int, last: int, size: real)
    requires 0 <= first < last < |rows|
  {
    0.6 * size <= Gain(rows, d, first, last) && 3 * (last - first + 1) <= 5 * |Along(rows, d, first, last)|
  }

  /** The last bar gave back enough of its wick, with enough progress and half of the bars in direction. */
  predicate EndsInWick(rows: seq<Row>, d: Direction, p: Parameters, first: int, last: int, size: real)
    requires 0 <= first < last < |rows|
  {
    && p.minTerminalRejectionFraction * size <= (if d.Short? then rows[last].high - rows[last].close else rows[last].close - rows[last].low)
    && p.minWickCloseProgressFraction * size <= Gain(rows, d, first, last)
    && last - first + 1 <= 2 * |Along(rows, d, first, last)|
  }

  /** The shelf gives back at most the permitted part, sticks out by at most 12%, and if it is too wide sticks out at all
      while it gives back no more than the permitted width. */
  predicate Shelved(d: Direction, b: real, size: real, boxLow: real, boxHigh: real, allowed: real, width: real) {
    var back, out := if d.Short? then b - boxLow else boxHigh - b, if d.Short? then boxHigh - b else b - boxLow;
    && 0.0 <= back <= allowed * size && out <= 0.12 * size
    && (boxHigh - boxLow <= width * size || (back <= width * size && 0.0 < out))
  }

  predicate PassesInBars(rows: seq<Row>, d: Direction, p: Parameters, first: int, last: int, boxLow: real, boxHigh: real)
    requires 14 <= first < last < |rows|
  {
    var a, b := if d.Short? then rows[first].low else rows[first].high, if d.Short? then rows[last].high else rows[last].low;
    InBarsFor(rows, d, p, first, last, boxLow, boxHigh, a, b, if d.Short? then b - a else a - b)
  }

  predicate InBarsFor(rows: seq<Row>, d: Direction, p: Parameters, first: int, last: int, boxLow: real, boxHigh: real,
                      a: real, b: real, size: real)
    requires 14 <= first < last < |rows|
  {
    && RunsClean(rows, d, p, first, last) && Large(a, size, MeanReach(rows, first), p)
    && (EndsStrong(rows, d, first, last, size) || EndsInWick(rows, d, p, first, last, size))
    && Shelved(d, b, size, boxLow, boxHigh,
               if EndsInWick(rows, d, p, first, last, size) then p.maxWickBoxRetraceFraction else p.maxBoxRetraceFraction,
               p.maxBoxWidthFraction)
  }

  lemma GatesInBars(rows: seq<Row>, first: int, last: int, boxLow: real, boxHigh: real, d: Direction, p: Parameters)
    requires ValidParameters(p) && 14 <= first < last < |rows| && forall i :: 0 <= i < |rows| ==> ValidRow(rows[i])
    ensures PassesGates(rows, first, last, boxLow, boxHigh, d, p) <==> PassesInBars(rows, d, p, first, last, boxLow, boxHigh)
  {
    var a, b := AnchorStart(rows[first], d), AnchorEnd(rows[last], d);
    GatesForInBars(rows, first, last, boxLow, boxHigh, d, p, a, b, Span(a, b, d));
  }

  lemma GatesForInBars(rows: seq<Row>, first: int, last: int, boxLow: real, boxHigh: real, d: Direction, p: Parameters,
                       a: real, b: real, size: real)
    requires ValidParameters(p) && 14 <= first < last < |rows| && forall i :: 0 <= i < |rows| ==> ValidRow(rows[i])
    ensures PassesFor(rows, first, last, boxLow, boxHigh, d, p, a, b, size)
            <==> InBarsFor(rows, d, p, first, last, boxLow, boxHigh, a, b, size)
  {
    CleanRuns(rows, d, p, first, last);
    assert Large(a, size, MeanReach(rows, first), p) <==> LargeEnough(a, size, PreImpulseAtr(rows, first), p) by {
      TrueRangeIsReach(rows, first - 14, first);
      LargeIs(a, size, MeanReach(rows, first), p);
    }
    EndingIs(rows, d, p, first, last, size);
    BoxIsShelved(d, b, size, boxLow, boxHigh,
                 if EndsInWick(rows, d, p, first, last, size) then p.maxWickBoxRetraceFraction else p.maxBoxRetraceFraction,
                 p.maxBoxWidthFraction);
  }

  lemma LargeIs(a: real, size: real, mean: real, p: Parameters)
    ensures Large(a, size, mean, p) <==> LargeEnough(a, size, mean, p)
  {
  }

  lemma EndingIs(rows: seq<Row>, d: Direction, p: Parameters, first: int, last: int, size: real)
    requires 0 <= first < last < |rows|
    ensures EndsStrong(rows, d, first, last, size) <==> StrongEnd(rows, first, last, size, d)
    ensures EndsInWick(rows, d, p, first, last, size) <==> WickEnd(rows, first, last, size, d, p)
  {
    ForwardBarsAreCounted(rows, d, first, last + 1);
  }

  lemma BoxIsShelved(d: Direction, b: real, size: real, boxLow: real, boxHigh: real, allowed: real, width: real)
    ensures BoxFits(boxLow, boxHigh, b, size, d, allowed, width) <==> Shelved(d, b, size, boxLow, boxHigh, allowed, width)
  {
  }

  // ----- a WATCH candidate, bar by bar -----

  /** Everything a shelf must show to be observed, with no helper between it and the bars but the extremes of the shelf. */
  lemma CandidateInBars(rows: seq<Row>, p: Parameters, id: Identity, boxEnd: int)
    requires ValidParameters(p) && forall i :: 0 <= i < |rows| ==> ValidRow(rows[i])
    ensures Candidate(rows, p, id, boxEnd).Some? <==>
              && Sized(p, id, boxEnd) && boxEnd < |rows|
              && PassesInBars(rows, id.direction, p, id.start, id.end, MinLow(rows, id.end + 1, boxEnd + 1),
                              MaxHigh(rows, id.end + 1, boxEnd + 1))
              && InPlay(rows, id.direction, id.end + 1, boxEnd) && ShortOfZone(rows, id, boxEnd + 1)
  {
    CandidateIff(rows, p, id, boxEnd);
    if Sized(p, id, boxEnd) && boxEnd < |rows| {
      GatesInBars(rows, id.start, id.end, MinLow(rows, id.end + 1, boxEnd + 1), MaxHigh(rows, id.end + 1, boxEnd + 1),
                  id.direction, p);
    }
  }
}
