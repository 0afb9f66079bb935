/**
  Detection-time geometry of the Ikigai Box: the first impulse A..B, the shelf
  that follows it, and the zone F(1.618) measured from the frozen impulse.
  Prices are exact reals; candle positions are integers.
 */
module IkigaiBox {
  import opened Market
  import opened Wrappers

  /** SHORT follows an UP impulse (sign +1), LONG a DOWN impulse (sign -1). */
  function Flip(d: Direction): Direction {
    if d.Short? then Long else Short
  }

  datatype Parameters = Parameters(
    firstMinBars: int, firstMaxBars: int,
    boxMinBars: int, boxMaxBars: int,
    secondMinBars: int, secondMaxBars: int,
    minImpulseAtr: real,
    minImpulseFraction: real,
    maxBoxWidthFraction: real,
    maxBoxRetraceFraction: real,
    maxWickBoxRetraceFraction: real,
    minTerminalRejectionFraction: real,
    minWickCloseProgressFraction: real,
    minSecondProgress: real,
    maxSecondProgress: real,
    maxInternalCounterCloseFraction: real)

  /** The source's parameter check, and an impulse of at least two bars: with a
      one-bar impulse the source takes the maximum of an empty slice. */
  predicate ValidParameters(p: Parameters) {
    && 2 <= p.firstMinBars <= p.firstMaxBars
    && 1 <= p.boxMinBars <= p.boxMaxBars
    && 1 <= p.secondMinBars <= p.secondMaxBars
    && 0.0 < p.minImpulseAtr
    && 0.0 < p.minImpulseFraction
    && 0.0 < p.maxBoxWidthFraction < 1.0
    && 0.0 < p.maxBoxRetraceFraction <= p.maxWickBoxRetraceFraction < 1.0
    && 0.0 < p.minTerminalRejectionFraction < 1.0
    && 0.0 < p.minWickCloseProgressFraction < 0.60
    && 0.0 < p.minSecondProgress < p.maxSecondProgress
    && 0.0 < p.maxInternalCounterCloseFraction < 1.0
  }

  function Further(x: real, y: real, d: Direction): real {
    if d.Short? then (if y > x then y else x) else (if y < x then y else x)
  }

  /** The most progressed close of rows[lo..hi): highest for SHORT, lowest for LONG. */
  function BestClose(rows: seq<Row>, d: Direction, lo: int, hi: int): (m: real)
    requires 0 <= lo < hi <= |rows|
    ensures forall i :: lo <= i < hi ==> if d.Short? then rows[i].close <= m else m <= rows[i].close
    decreases hi - lo
  {
    if lo + 1 == hi then rows[lo].close
    else
      var prior := BestClose(rows, d, lo, hi - 1);
      Further(prior, rows[hi - 1].close, d)
  }

  // ----- impulse gates -----

  const REVERSAL_BARS := 3

  /** A's low is strictly below (DOWN: high strictly above) three bars on each side. */
  predicate IsReversalOrigin(rows: seq<Row>, index: int, d: Direction)
    requires 0 <= index < |rows|
  {
    && REVERSAL_BARS <= index
    && index + REVERSAL_BARS < |rows|
    && forall j :: index - REVERSAL_BARS <= j <= index + REVERSAL_BARS && j != index ==>
         if d.Short? then rows[index].low < rows[j].low else rows[j].high < rows[index].high
  }

  /** A close that gives back more than the permitted part of the progress made before it. */
  predicate GivesBack(anchor: real, best: real, close: real, d: Direction, p: Parameters) {
    var progress := if d.Short? then best - anchor else anchor - best;
    var counter := if d.Short? then best - close else close - best;
    progress > 0.0 && counter > p.maxInternalCounterCloseFraction * progress
  }

  /** Some close strictly inside A..B gives back against the best close before it. */
  predicate HasMaterialCounterClose(rows: seq<Row>, first: int, last: int, d: Direction, p: Parameters)
    requires 0 <= first < last < |rows|
    decreases last
  {
    && first + 1 < last
    && (|| HasMaterialCounterClose(rows, first, last - 1, d, p)
        || GivesBackAt(rows, first, last - 1, d, p))
  }

  predicate GivesBackAt(rows: seq<Row>, first: int, k: int, d: Direction, p: Parameters)
    requires 0 <= first < k < |rows|
  {
    GivesBack(AnchorStart(rows[first], d), BestClose(rows, d, first, k), rows[k].close, d, p)
  }

  lemma {:induction false} CounterCloseIsSomeClose(rows: seq<Row>, first: int, last: int, d: Direction, p: Parameters)
    requires 0 <= first < last < |rows|
    ensures HasMaterialCounterClose(rows, first, last, d, p) <==>
            exists k :: first < k < last && GivesBackAt(rows, first, k, d, p)
    decreases last
  {
    if first + 1 < last {
      CounterCloseIsSomeClose(rows, first, last - 1, d, p);
      var here := GivesBackAt(rows, first, last - 1, d, p);
      if HasMaterialCounterClose(rows, first, last, d, p) {
        if !here {
          var k :| first < k < last - 1 && GivesBackAt(rows, first, k, d, p);
        }
      } else {
        forall k | first < k < last ensures !GivesBackAt(rows, first, k, d, p) {
          if k == last - 1 { assert !here; }
        }
      }
    }
  }

  lemma {:induction false} CounterCloseStays(rows: seq<Row>, first: int, k: int, last: int, d: Direction, p: Parameters)
    requires 0 <= first < k <= last < |rows|
    requires HasMaterialCounterClose(rows, first, k, d, p)
    ensures HasMaterialCounterClose(rows, first, last, d, p)
    decreases last
  {
    if k < last {
      CounterCloseStays(rows, first, k, last - 1, d, p);
    }
  }

  /** The source's single pass with a running best close. */
  method FindMaterialCounterClose(rows: seq<Row>, first: int, last: int, d: Direction, p: Parameters)
    returns (found: bool)
    requires 0 <= first < last < |rows|
    ensures found <==> HasMaterialCounterClose(rows, first, last, d, p)
  {
    var anchor := AnchorStart(rows[first], d);
    var bestClose := rows[first].close;
    for index := first + 1 to last
      invariant bestClose == BestClose(rows, d, first, index)
      invariant !HasMaterialCounterClose(rows, first, index, d, p)
    {
      var close := rows[index].close;
      if GivesBack(anchor, bestClose, close, d, p) {
        CounterCloseStays(rows, first, index + 1, last, d, p);
        return true;
      }
      bestClose := Further(bestClose, close, d);
    }
    return false;
  }

  function TrueRange(rows: seq<Row>, i: int): real
    requires 0 <= i < |rows|
  {
    var prevClose := if i > 0 then rows[i - 1].close else rows[i].close;
    Max(rows[i].high - rows[i].low, Max(Abs(rows[i].high - prevClose), Abs(rows[i].low - prevClose)))
  }

  function SumTrueRange(rows: seq<Row>, lo: int, hi: int): real
    requires 0 <= lo <= hi <= |rows|
    decreases hi - lo
  {
    if lo == hi then 0.0 else TrueRange(rows, lo) + SumTrueRange(rows, lo + 1, hi)
  }

  const ATR_BARS := 14

  function PreImpulseAtr(rows: seq<Row>, start: int): real
    requires ATR_BARS <= start <= |rows|
  {
    SumTrueRange(rows, start - ATR_BARS, start) / 14.0
  }

  /** Number of bars of rows[lo..hi) whose body points along the impulse. */
  function ForwardBars(rows: seq<Row>, lo: int, hi: int, d: Direction): int
    requires 0 <= lo <= hi <= |rows|
    decreases hi - lo
  {
    if lo == hi then 0
    else
      var forward := if d.Short? then rows[lo].close > rows[lo].open else rows[lo].close < rows[lo].open;
      (if forward then 1 else 0) + ForwardBars(rows, lo + 1, hi, d)
  }

  datatype Impulse = Impulse(a: real, b: real, span: real, atr: real)

  function AnchorStart(row: Row, d: Direction): real {
    if d.Short? then row.low else row.high
  }

  function AnchorEnd(row: Row, d: Direction): real {
    if d.Short? then row.high else row.low
  }

  /** Distance along the impulse, negative if it runs against it. */
  function Span(a: real, b: real, d: Direction): real {
    if d.Short? then b - a else a - b
  }

  /** B is the first unique extreme of A..B and A its origin. */
  predicate FrozenExtremes(rows: seq<Row>, first: int, last: int, d: Direction)
    requires 0 <= first < last < |rows|
  {
    if d.Short? then
      MinLow(rows, first, last + 1) >= rows[first].low && MaxHigh(rows, first, last) < rows[last].high
    else
      MaxHigh(rows, first, last + 1) <= rows[first].high && MinLow(rows, first, last) > rows[last].low
  }

  /** The shelf gives back at most this part of the impulse, measured from the terminal B. */
  predicate RetracesWithin(boxLow: real, boxHigh: real, b: real, span: real, d: Direction, fraction: real) {
    0.0 <= (if d.Short? then b - boxLow else boxHigh - b) <= fraction * span
  }

  lemma PartialRetrace(boxLow: real, boxHigh: real, b: real, span: real, d: Direction, fraction: real)
    requires RetracesWithin(boxLow, boxHigh, b, span, d, fraction) && 0.0 < span && fraction < 1.0
    ensures if d.Short? then b - span < boxLow else boxHigh < b + span
  {
  }

  /** The two shelf gates: a wide shelf must stick out beyond B and stay within the width, and any shelf within the
      permitted retrace and extension. */
  predicate BoxFits(boxLow: real, boxHigh: real, b: real, span: real, d: Direction, allowed: real, width: real) {
    var extension := if d.Short? then boxHigh - b else b - boxLow;
    if boxHigh - boxLow > width * span
       && !(RetracesWithin(boxLow, boxHigh, b, span, d, width) && 0.0 < extension <= 0.12 * span) then false
    else RetracesWithin(boxLow, boxHigh, b, span, d, allowed) && extension <= 0.12 * span
  }

  /** A usable ATR, and a span of at least so many of it and such a part of the price of A. */
  predicate LargeEnough(a: real, span: real, atr: real, p: Parameters) {
    0.0 < span && 0.0 < a && atr != 0.0 && Max(p.minImpulseAtr * atr, p.minImpulseFraction * a) <= span
  }

  /** The ordinary ending: three fifths of the span in closes, three fifths of the bars in direction. */
  predicate StrongEnd(rows: seq<Row>, first: int, last: int, span: real, d: Direction)
    requires 0 <= first < last < |rows|
  {
    Span(rows[first].open, rows[last].close, d) >= 0.60 * span && ForwardBars(rows, first, last + 1, d) * 5 >= (last - first + 1) * 3
  }

  /** The other ending: B rejected by its own close, with enough progress and half of the bars in direction. */
  predicate WickEnd(rows: seq<Row>, first: int, last: int, span: real, d: Direction, p: Parameters)
    requires 0 <= first < last < |rows|
  {
    && Span(rows[last].close, AnchorEnd(rows[last], d), d) >= p.minTerminalRejectionFraction * span
    && Span(rows[first].open, rows[last].close, d) >= p.minWickCloseProgressFraction * span
    && ForwardBars(rows, first, last + 1, d) * 2 >= last - first + 1
  }

  function QualifiedImpulseAndBox(
    rows: seq<Row>, first: int, last: int, boxLow: real, boxHigh: real, d: Direction, p: Parameters
  ): (r: Option<Impulse>)
    requires ATR_BARS <= first < last < |rows|
    ensures r.Some? ==>
              && r.value.a == AnchorStart(rows[first], d)
              && r.value.b == AnchorEnd(rows[last], d)
              && r.value.span == (if d.Short? then r.value.b - r.value.a else r.value.a - r.value.b)
              && 0.0 < r.value.span && r.value.atr != 0.0
              && FrozenExtremes(rows, first, last, d)
              && (if d.Short? then boxHigh - r.value.b else r.value.b - boxLow) <= 0.12 * r.value.span
              && (|| RetracesWithin(boxLow, boxHigh, r.value.b, r.value.span, d, p.maxWickBoxRetraceFraction)
                  || RetracesWithin(boxLow, boxHigh, r.value.b, r.value.span, d, p.maxBoxRetraceFraction))
  {
    var a := AnchorStart(rows[first], d);
    var b := AnchorEnd(rows[last], d);
    var span := Span(a, b, d);
    if span <= 0.0 || a <= 0.0 then None
    else if !IsReversalOrigin(rows, first, d) then None
    else if exists k :: first < k < last && IsReversalOrigin(rows, k, Flip(d)) then None
    else if HasMaterialCounterClose(rows, first, last, d, p) then None
    else
      var atr := PreImpulseAtr(rows, first);
      if !LargeEnough(a, span, atr, p) then None
      else if !FrozenExtremes(rows, first, last, d) then None
      else
        var wick := WickEnd(rows, first, last, span, d, p);
        if !(StrongEnd(rows, first, last, span, d) || wick) then None
        else
          var allowed := if wick then p.maxWickBoxRetraceFraction else p.maxBoxRetraceFraction;
          if !BoxFits(boxLow, boxHigh, b, span, d, allowed, p.maxBoxWidthFraction) then None
          else Some(Impulse(a, b, span, atr))
  }

  /** A..B rises (SHORT) or falls (LONG) cleanly: A is a reversal, no bar inside turns or gives back, and B is its extreme. */
  predicate CleanImpulse(rows: seq<Row>, first: int, last: int, d: Direction, p: Parameters)
    requires 0 <= first < last < |rows|
  {
    && IsReversalOrigin(rows, first, d) && FrozenExtremes(rows, first, last, d)
    && forall k :: first < k < last ==> !IsReversalOrigin(rows, k, Flip(d)) && !GivesBackAt(rows, first, k, d, p)
  }

  lemma CleanMeans(rows: seq<Row>, first: int, last: int, d: Direction, p: Parameters)
    requires 0 <= first < last < |rows|
    ensures CleanImpulse(rows, first, last, d, p) <==>
            && IsReversalOrigin(rows, first, d) && FrozenExtremes(rows, first, last, d)
            && !(exists k :: first < k < last && IsReversalOrigin(rows, k, Flip(d)))
            && !HasMaterialCounterClose(rows, first, last, d, p)
  {
    CounterCloseIsSomeClose(rows, first, last, d, p);
  }

  /** Every gate: the impulse is clean, large against the ATR and the price, ends strongly or in a rejected wick,
      and the shelf sits at B with the retrace that ending permits. */
  predicate PassesGates(rows: seq<Row>, first: int, last: int, boxLow: real, boxHigh: real, d: Direction, p: Parameters)
    requires ATR_BARS <= first < last < |rows|
  {
    var a, b := AnchorStart(rows[first], d), AnchorEnd(rows[last], d);
    PassesFor(rows, first, last, boxLow, boxHigh, d, p, a, b, Span(a, b, d))
  }

  predicate PassesFor(rows: seq<Row>, first: int, last: int, boxLow: real, boxHigh: real, d: Direction, p: Parameters,
                      a: real, b: real, span: real)
    requires ATR_BARS <= first < last < |rows|
  {
    var wick := WickEnd(rows, first, last, span, d, p);
    && CleanImpulse(rows, first, last, d, p) && LargeEnough(a, span, PreImpulseAtr(rows, first), p)
    && (StrongEnd(rows, first, last, span, d) || wick)
    && BoxFits(boxLow, boxHigh, b, span, d, if wick then p.maxWickBoxRetraceFraction else p.maxBoxRetraceFraction,
               p.maxBoxWidthFraction)
  }

  /** An impulse and its shelf are accepted exactly when they pass. */
  lemma AcceptedIffPasses(rows: seq<Row>, first: int, last: int, boxLow: real, boxHigh: real, d: Direction, p: Parameters)
    requires ATR_BARS <= first < last < |rows|
    ensures QualifiedImpulseAndBox(rows, first, last, boxLow, boxHigh, d, p).Some? <==>
            PassesGates(rows, first, last, boxLow, boxHigh, d, p)
  {
    CleanMeans(rows, first, last, d, p);
  }

  /** F(level), measured from the frozen first impulse. */
  function Fibonacci(a: real, b: real, level: real): real {
    a + level * (b - a)
  }

  /** The bar trades at or through a zone on the impulse side. */
  predicate Reaches(row: Row, d: Direction, level: real) {
    if d.Short? then row.high >= level else row.low <= level
  }

  /** The bar closes outside the shelf in the impulse direction. */
  predicate ClosesBeyond(row: Row, d: Direction, boxLow: real, boxHigh: real) {
    if d.Short? then row.close > boxHigh else row.close < boxLow
  }

  /** First bar of rows[lo..hi) that closes beyond the shelf. */
  function FirstExit(rows: seq<Row>, d: Direction, boxLow: real, boxHigh: real, lo: int, hi: int): (r: Option<int>)
    requires 0 <= lo && hi <= |rows|
    ensures r.Some? ==> lo <= r.value < hi && ClosesBeyond(rows[r.value], d, boxLow, boxHigh)
                        && forall i :: lo <= i < r.value ==> !ClosesBeyond(rows[i], d, boxLow, boxHigh)
    ensures r.None? ==> forall i :: lo <= i < hi ==> !ClosesBeyond(rows[i], d, boxLow, boxHigh)
    decreases hi - lo
  {
    if lo >= hi then None
    else if ClosesBeyond(rows[lo], d, boxLow, boxHigh) then Some(lo)
    else FirstExit(rows, d, boxLow, boxHigh, lo + 1, hi)
  }
}
