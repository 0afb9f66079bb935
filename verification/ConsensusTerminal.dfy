/**
  Terminal width evidence of a pairing: whether the channel narrows or widens over the
  last bars of the episode, by the lines and by the realized price ranges.
 */
module ConsensusTerminal {
  import opened Market
  import opened Wrappers
  import opened ConsensusFit
  import opened ConsensusBoundary
  import opened ConsensusPair
  import A = Arithmetic

  datatype Parameters = Parameters(
    windowBars: int, segments: int, maxRatio: real, minRatio: real, tolerance: real)

  predicate ValidParameters(p: Parameters) {
    && 2 <= p.segments && p.windowBars % p.segments == 0 && 3 <= p.windowBars / p.segments
    && 0.0 < p.maxRatio < 1.0 < p.minRatio && 0.0 <= p.tolerance < 1.0
  }

  datatype Trend = PersistentCompression | Expansion | NoPersistentTrend

  datatype Evidence =
    | InsufficientWindow
    | NonPositiveWidth
    | Measured(trend: Trend, ratio: real, slope: real, fullOk: bool, shiftedOk: bool)

  // ----- widths over a window -----

  /** Channel width at each candle. */
  function Widths(upper: Line, lower: Line): int -> real {
    (i: int) => Width(upper, lower, i as real)
  }

  function RangeSum(w: int -> real, lo: int, hi: int): real
    decreases hi - lo
  {
    if hi <= lo then 0.0 else w(lo) + RangeSum(w, lo + 1, hi)
  }

  function Mean(w: int -> real, lo: int, hi: int): real
    requires lo < hi
  {
    RangeSum(w, lo, hi) / (hi - lo) as real
  }

  /** Mean line width of each of n segments. */
  function LineMeans(w: int -> real, first: int, size: int, n: nat): (r: seq<real>)
    requires 0 < size
    ensures |r| == n
    decreases n
  {
    if n == 0 then [] else [Mean(w, first, first + size)] + LineMeans(w, first + size, size, n - 1)
  }

  predicate WindowInside(rows: seq<Row>, first: int, size: int, n: int) {
    0 <= first && 0 < size && 0 <= n && first + n * size <= |rows|
  }

  lemma NextSegmentInside(rows: seq<Row>, first: int, size: int, n: int)
    requires WindowInside(rows, first, size, n) && 0 < n
    ensures first + size <= |rows| && WindowInside(rows, first + size, size, n - 1)
  {
    assert n * size == size + (n - 1) * size;
    assert 0 <= (n - 1) * size;
  }

  /** Highest high minus lowest low of each of n segments. */
  function RealizedRanges(rows: seq<Row>, first: int, size: int, n: int): (r: seq<real>)
    requires WindowInside(rows, first, size, n)
    ensures |r| == n
    decreases n
  {
    if n == 0 then []
    else
      NextSegmentInside(rows, first, size, n);
      [MaxHigh(rows, first, first + size) - MinLow(rows, first, first + size)]
      + RealizedRanges(rows, first + size, size, n - 1)
  }

  /** How many adjacent steps do not expand. */
  function Contracting(series: seq<real>, tolerance: real): int {
    if |series| < 2 then 0
    else (if series[1] <= series[0] * (1.0 + tolerance) then 1 else 0) + Contracting(series[1..], tolerance)
  }

  /** How many adjacent steps do not contract. */
  function Expanding(series: seq<real>, tolerance: real): int {
    if |series| < 2 then 0
    else (if series[1] >= series[0] * (1.0 - tolerance) then 1 else 0) + Expanding(series[1..], tolerance)
  }

  /** The realized ranges contract: first to last by the ratio, and never expanding on the way. */
  predicate RealizedContracts(realized: seq<real>, p: Parameters)
    requires realized != []
  {
    && 0.0 < realized[0]
    && realized[|realized| - 1] / realized[0] <= p.maxRatio
    && Contracting(realized, p.tolerance) == |realized| - 1
  }

  predicate CompressionOk(line: seq<real>, realized: seq<real>, ratio: real, p: Parameters)
    requires line != [] && realized != []
  {
    && ratio <= p.maxRatio
    && Contracting(line, p.tolerance) == |line| - 1
    && RealizedContracts(realized, p)
  }

  /** The widths as points for the shared least-squares formula; the fit reads no ATR. */
  function WidthPoints(w: int -> real, first: int, end: int): (r: seq<Point>)
    requires first <= end + 1
    ensures |r| == end - first + 1
    ensures forall k :: 0 <= k < |r| ==> r[k] == Point(first + k, w(first + k), 1.0)
  {
    seq(end - first + 1, (k: int) => Point(first + k, w(first + k), 1.0))
  }

  /** Window placement: the last bars of the episode, with one earlier bar for the shifted test. */
  function WindowStart(end: int, p: Parameters): int {
    end - p.windowBars + 1
  }

  function SegmentSize(p: Parameters): int
    requires p.segments != 0
  {
    p.windowBars / p.segments
  }

  lemma SegmentsFill(p: Parameters)
    requires ValidParameters(p)
    ensures p.segments * SegmentSize(p) == p.windowBars && 6 <= p.windowBars
  {
    assert p.segments * SegmentSize(p) >= 2 * SegmentSize(p);
  }

  predicate InsideFrame(rows: seq<Row>, start: int, end: int) {
    0 <= start <= end < |rows|
  }

  /** The full-window test and the same test one bar earlier. */
  function WindowOk(rows: seq<Row>, w: int -> real, first: int, p: Parameters): bool
    requires ValidParameters(p) && 0 <= first && first + p.windowBars <= |rows|
    requires w(first) != 0.0
  {
    SegmentsFill(p);
    CompressionOk(LineMeans(w, first, SegmentSize(p), p.segments), RealizedRanges(rows, first, SegmentSize(p), p.segments),
                  w(first + p.windowBars - 1) / w(first), p)
  }

  predicate PositiveWidths(w: int -> real, lo: int, hi: int) {
    forall i :: lo <= i <= hi ==> 0.0 < w(i)
  }

  function TerminalEvidence(rows: seq<Row>, upper: Line, lower: Line, start: int, end: int, p: Parameters): Evidence
    requires ValidParameters(p) && InsideFrame(rows, start, end)
  {
    var first, w := WindowStart(end, p), Widths(upper, lower);
    if first - 1 < start then InsufficientWindow
    else if !PositiveWidths(w, first - 1, end) then NonPositiveWidth
    else
      SegmentsFill(p);
      MeasuredOver(rows, w, first, end, p)
  }

  lemma MeasuredWindow(rows: seq<Row>, upper: Line, lower: Line, start: int, end: int, p: Parameters)
    requires ValidParameters(p) && InsideFrame(rows, start, end)
    requires TerminalEvidence(rows, upper, lower, start, end, p).Measured?
    ensures var first, w := WindowStart(end, p), Widths(upper, lower);
            && start < first <= end && 0.0 < w(first) && 0.0 < w(first - 1)
            && first + p.windowBars <= |rows|
            && var e := TerminalEvidence(rows, upper, lower, start, end, p);
               && e.ratio == w(end) / w(first)
               && e.fullOk == WindowOk(rows, w, first, p) && e.shiftedOk == WindowOk(rows, w, first - 1, p)
  {
    SegmentsFill(p);
    var first, w := WindowStart(end, p), Widths(upper, lower);
    assert PositiveWidths(w, first - 1, end);
  }

  /** The evidence of a window of positive widths, with one more before it. */
  function MeasuredOver(rows: seq<Row>, w: int -> real, first: int, end: int, p: Parameters): Evidence
    requires ValidParameters(p) && 1 <= first <= end < |rows| && end - first + 1 == p.windowBars
    requires w(first) != 0.0 && w(first - 1) != 0.0
  {
    SegmentsFill(p);
    var ratio := w(end) / w(first);
    var fullOk, shiftedOk := WindowOk(rows, w, first, p), WindowOk(rows, w, first - 1, p);
    var persistent := fullOk && shiftedOk;
    var line := LineMeans(w, first, SegmentSize(p), p.segments);
    var expansion := !persistent && ratio >= p.minRatio && Expanding(line, p.tolerance) == p.segments - 1;
    Measured(if persistent then PersistentCompression else if expansion then Expansion else NoPersistentTrend,
             ratio, Refit(WidthPoints(w, first, end)).slope, fullOk, shiftedOk)
  }

  // ----- what the lines alone decide -----

  /** Positive: the channel opens; negative: it converges. */
  function Opening(upper: Line, lower: Line): real {
    upper.slope - lower.slope
  }

  lemma WidthChange(upper: Line, lower: Line, i: int, j: int)
    ensures Widths(upper, lower)(j) - Widths(upper, lower)(i) == Opening(upper, lower) * (j - i) as real
  {
    WidthIsLinear(upper, lower, i as real);
    WidthIsLinear(upper, lower, j as real);
    assert Opening(upper, lower) * (j as real - i as real) == Opening(upper, lower) * j as real - Opening(upper, lower) * i as real;
  }

  /** Widths of a converging channel never grow; those of an opening one never shrink. */
  lemma WidthsAreMonotone(upper: Line, lower: Line)
    ensures Opening(upper, lower) <= 0.0 ==> NonIncreasing(Widths(upper, lower))
    ensures 0.0 <= Opening(upper, lower) ==> NonDecreasing(Widths(upper, lower))
  {
    var w, turn := Widths(upper, lower), Opening(upper, lower);
    forall i: int, j: int | i <= j
      ensures turn <= 0.0 ==> w(j) <= w(i)
      ensures 0.0 <= turn ==> w(i) <= w(j)
    {
      WidthChange(upper, lower, i, j);
      SignOfProduct(turn, (j - i) as real);
    }
  }

  lemma SignOfProduct(a: real, b: real)
    requires 0.0 <= b
    ensures a <= 0.0 ==> a * b <= 0.0
    ensures 0.0 <= a ==> 0.0 <= a * b
  {
  }

  ghost predicate NonIncreasing(w: int -> real) {
    forall i: int, j: int :: i <= j ==> w(j) <= w(i)
  }

  ghost predicate NonDecreasing(w: int -> real) {
    forall i: int, j: int :: i <= j ==> w(i) <= w(j)
  }

  function Ahead(w: int -> real, d: int): int -> real {
    (i: int) => w(i + d)
  }

  lemma {:induction false} SumAhead(w: int -> real, d: int, lo: int, hi: int)
    ensures RangeSum(Ahead(w, d), lo, hi) == RangeSum(w, lo + d, hi + d)
    decreases hi - lo
  {
    if lo < hi {
      SumAhead(w, d, lo + 1, hi);
    }
  }

  lemma {:induction false} SumMonotone(u: int -> real, v: int -> real, lo: int, hi: int)
    requires forall i {:trigger u(i), v(i)} :: lo <= i < hi ==> u(i) <= v(i)
    ensures RangeSum(u, lo, hi) <= RangeSum(v, lo, hi)
    decreases hi - lo
  {
    if lo < hi {
      SumMonotone(u, v, lo + 1, hi);
    }
  }

  lemma {:induction false} SumPositive(w: int -> real, lo: int, hi: int)
    requires lo < hi && forall i :: lo <= i < hi ==> 0.0 < w(i)
    ensures 0.0 < RangeSum(w, lo, hi)
    decreases hi - lo
  {
    if lo + 1 < hi {
      SumPositive(w, lo + 1, hi);
    }
  }

  lemma Divided(a: real, b: real, n: real)
    requires 0.0 < n
    ensures a <= b <==> a / n <= b / n
    ensures 0.0 < a <==> 0.0 < a / n
  {
    A.DivideBack(b, n);
    A.QuotientOrder(a, n, b / n);
    A.QuotientOrder(a, n, 0.0);
  }

  lemma AheadIs(w: int -> real, size: int, i: int)
    requires 0 < size
    ensures NonIncreasing(w) ==> Ahead(w, size)(i) <= w(i)
    ensures NonDecreasing(w) ==> w(i) <= Ahead(w, size)(i)
  {
    assert Ahead(w, size)(i) == w(i + size);
  }

  lemma SumsFall(w: int -> real, first: int, size: int)
    requires 0 < size && NonIncreasing(w)
    ensures RangeSum(w, first + size, first + size + size) <= RangeSum(w, first, first + size)
  {
    SumAhead(w, size, first, first + size);
    forall i | first <= i < first + size ensures Ahead(w, size)(i) <= w(i) {
      AheadIs(w, size, i);
    }
    SumMonotone(Ahead(w, size), w, first, first + size);
  }

  lemma SumsRise(w: int -> real, first: int, size: int)
    requires 0 < size && NonDecreasing(w)
    ensures RangeSum(w, first, first + size) <= RangeSum(w, first + size, first + size + size)
  {
    SumAhead(w, size, first, first + size);
    forall i | first <= i < first + size ensures w(i) <= Ahead(w, size)(i) {
      AheadIs(w, size, i);
    }
    SumMonotone(w, Ahead(w, size), first, first + size);
  }

  lemma MeanOfNext(w: int -> real, first: int, size: int)
    requires 0 < size && (forall i :: first <= i < first + size ==> 0.0 < w(i))
    ensures 0.0 < Mean(w, first, first + size)
    ensures NonIncreasing(w) ==> Mean(w, first + size, first + size + size) <= Mean(w, first, first + size)
    ensures NonDecreasing(w) ==> Mean(w, first, first + size) <= Mean(w, first + size, first + size + size)
  {
    SumPositive(w, first, first + size);
    if NonIncreasing(w) { SumsFall(w, first, size); }
    if NonDecreasing(w) { SumsRise(w, first, size); }
    var here, next := RangeSum(w, first, first + size), RangeSum(w, first + size, first + size + size);
    Divided(here, next, size as real);
    Divided(next, here, size as real);
  }

  lemma OneSegmentLess(n: nat, size: int)
    requires 1 < n && 0 < size
    ensures n * size == size + (n - 1) * size && size <= (n - 1) * size
  {
  }

  /** Segment means follow the lines: every step of a converging channel is non-expanding,
      every step of an opening one non-contracting, whatever the tolerance. */
  lemma {:induction false} StepsFollowLines(w: int -> real, first: int, size: int, n: nat, tolerance: real)
    requires 0 < size && 0 < n && 0.0 <= tolerance < 1.0
    requires forall i :: first <= i < first + n * size ==> 0.0 < w(i)
    ensures NonIncreasing(w) ==> Contracting(LineMeans(w, first, size, n), tolerance) == n - 1
    ensures NonDecreasing(w) ==> Expanding(LineMeans(w, first, size, n), tolerance) == n - 1
    decreases n
  {
    if n > 1 {
      OneSegmentLess(n, size);
      var means := LineMeans(w, first, size, n);
      StepsFollowLines(w, first + size, size, n - 1, tolerance);
      assert means[1..] == LineMeans(w, first + size, size, n - 1);
      MeanOfNext(w, first, size);
      Tolerated(means[0], tolerance);
    }
  }

  lemma Tolerated(a: real, tolerance: real)
    requires 0.0 < a && 0.0 <= tolerance
    ensures a * (1.0 - tolerance) <= a <= a * (1.0 + tolerance)
  {
    assert a * (1.0 + tolerance) == a + a * tolerance && a * (1.0 - tolerance) == a - a * tolerance;
    assert 0.0 <= a * tolerance;
  }

  /** The width ratio over a window decides which way the channel runs. */
  lemma RatioDecidesDirection(upper: Line, lower: Line, a: int, b: int)
    requires a < b && 0.0 < Widths(upper, lower)(a)
    ensures Widths(upper, lower)(b) / Widths(upper, lower)(a) < 1.0 <==> Opening(upper, lower) < 0.0
    ensures 1.0 < Widths(upper, lower)(b) / Widths(upper, lower)(a) <==> 0.0 < Opening(upper, lower)
  {
    var x, y, turn, run := Widths(upper, lower)(a), Widths(upper, lower)(b), Opening(upper, lower), (b - a) as real;
    WidthChange(upper, lower, a, b);
    CompareRatio(x, y);
    StrictSign(turn, run);
  }

  lemma CompareRatio(x: real, y: real)
    requires 0.0 < x
    ensures y / x < 1.0 <==> y < x
    ensures 1.0 < y / x <==> x < y
  {
    var excess := y / x - 1.0;
    assert excess * x == y - x;
    StrictSign(excess, x);
  }

  lemma StrictSign(a: real, b: real)
    requires 0.0 < b
    ensures a * b < 0.0 <==> a < 0.0
    ensures 0.0 < a * b <==> 0.0 < a
  {
  }

  /** A window one bar earlier starts wider on a converging channel, so passing the ratio test
      there implies passing it on the window itself. */
  lemma ShiftedRatioImpliesRatio(upper: Line, lower: Line, a: int, b: int, limit: real)
    requires a < b && 0.0 < limit < 1.0
    requires 0.0 < Widths(upper, lower)(a) && 0.0 < Widths(upper, lower)(a - 1)
    requires Widths(upper, lower)(b - 1) / Widths(upper, lower)(a - 1) <= limit
    ensures Widths(upper, lower)(b) / Widths(upper, lower)(a) <= limit
  {
    var w, turn, run := Widths(upper, lower), Opening(upper, lower), (b - a) as real;
    RatioDecidesDirection(upper, lower, a - 1, b - 1);
    WidthChange(upper, lower, a - 1, b - 1);
    WidthChange(upper, lower, a, b);
    WidthChange(upper, lower, a - 1, a);
    StrictSign(turn, run);
    ShrinkingBase(w(a - 1), w(a), turn * run, limit);
  }

  lemma ShrinkingBase(wide: real, narrow: real, loss: real, limit: real)
    requires 0.0 < narrow <= wide && loss <= 0.0
    requires (wide + loss) / wide <= limit
    ensures (narrow + loss) / narrow <= limit
  {
    var p, q := (wide + loss) / wide, (narrow + loss) / narrow;
    assert p * wide == wide + loss && q * narrow == narrow + loss;
    var u, v := 1.0 - p, 1.0 - q;
    assert u * wide == -loss && v * narrow == -loss;
    SameArea(u, wide, v, narrow);
  }

  lemma SameArea(u: real, wide: real, v: real, narrow: real)
    requires 0.0 < narrow <= wide && u * wide == v * narrow && 0.0 <= u * wide
    ensures u <= v
  {
    StrictSign(u, wide);
    assert u * (wide - narrow) == u * wide - u * narrow;
    assert 0.0 <= u;
    assert 0.0 <= u * (wide - narrow);
    assert (v - u) * narrow == v * narrow - u * narrow;
    StrictSign(v - u, narrow);
  }

  // ----- what the evidence means -----

  /** The reported slope is the difference of the two boundary slopes: the fit through widths that
      lie on a line is that line. */
  lemma SlopeIsTheOpening(upper: Line, lower: Line, first: int, end: int)
    requires first < end
    ensures Refit(WidthPoints(Widths(upper, lower), first, end)).slope == Opening(upper, lower)
  {
    var ps, line := WidthPoints(Widths(upper, lower), first, end), WidthLine(upper, lower);
    forall k | 0 <= k < |ps| ensures Residual(line, ps[k]) == 0.0 {
      WidthIsLinear(upper, lower, (first + k) as real);
    }
    PerfectFit(ps, line);
  }

  lemma PerfectFit(ps: seq<Point>, line: Line)
    requires 2 <= |ps| && Increasing(ps) && forall k :: 0 <= k < |ps| ==> Residual(line, ps[k]) == 0.0
    ensures Refit(ps) == line
  {
    NoError(ps, line);
    RefitIsLeastSquares(ps, line);
    SquaresVanish(ps, Residuals(Refit(ps)));
  }

  lemma {:induction false} NoError(ps: seq<Point>, line: Line)
    requires forall k :: 0 <= k < |ps| ==> Residual(line, ps[k]) == 0.0
    ensures SquaredError(line, ps) == 0.0
  {
    if ps != [] {
      assert Residual(line, ps[0]) == 0.0;
      NoError(ps[1..], line);
    }
  }

  predicate RealizedOk(rows: seq<Row>, first: int, p: Parameters)
    requires ValidParameters(p) && 0 <= first && first + p.windowBars <= |rows|
  {
    SegmentsFill(p);
    RealizedContracts(RealizedRanges(rows, first, SegmentSize(p), p.segments), p)
  }

  /** On a window of positive widths the test of the lines is the ratio alone: the per-segment
      step test adds nothing to it. */
  lemma RatioImpliesSteps(rows: seq<Row>, upper: Line, lower: Line, first: int, p: Parameters)
    requires ValidParameters(p) && 0 <= first && first + p.windowBars <= |rows|
    requires PositiveWidths(Widths(upper, lower), first, first + p.windowBars - 1)
    ensures Widths(upper, lower)(first) != 0.0
    ensures WindowOk(rows, Widths(upper, lower), first, p) <==>
            Widths(upper, lower)(first + p.windowBars - 1) / Widths(upper, lower)(first) <= p.maxRatio && RealizedOk(rows, first, p)
  {
    SegmentsFill(p);
    var w, last := Widths(upper, lower), first + p.windowBars - 1;
    assert 0.0 < w(first);
    if w(last) / w(first) <= p.maxRatio {
      RatioDecidesDirection(upper, lower, first, last);
      WidthsAreMonotone(upper, lower);
      StepsFollowLines(w, first, SegmentSize(p), p.segments, p.tolerance);
    }
  }

  /** Persistent compression is exactly: the shifted window's ratio passes, and the realized ranges
      contract over both windows. */
  lemma PersistenceIsShiftedRatio(rows: seq<Row>, upper: Line, lower: Line, start: int, end: int, p: Parameters)
    requires ValidParameters(p) && InsideFrame(rows, start, end)
    requires TerminalEvidence(rows, upper, lower, start, end, p).Measured?
    ensures var e, first, w := TerminalEvidence(rows, upper, lower, start, end, p), WindowStart(end, p), Widths(upper, lower);
            && w(first - 1) != 0.0
            && (e.trend == PersistentCompression <==>
                w(end - 1) / w(first - 1) <= p.maxRatio && RealizedOk(rows, first, p) && RealizedOk(rows, first - 1, p))
  {
    var first, w := WindowStart(end, p), Widths(upper, lower);
    SegmentsFill(p);
    RatioImpliesSteps(rows, upper, lower, first, p);
    RatioImpliesSteps(rows, upper, lower, first - 1, p);
    assert 0.0 < w(first) && 0.0 < w(first - 1);
    if w(end - 1) / w(first - 1) <= p.maxRatio {
      ShiftedRatioImpliesRatio(upper, lower, first, end, p.maxRatio);
    }
  }

  /** Expansion is exactly the ratio reaching its minimum: the other two conditions follow from it. */
  lemma ExpansionIsTheRatio(rows: seq<Row>, upper: Line, lower: Line, start: int, end: int, p: Parameters)
    requires ValidParameters(p) && InsideFrame(rows, start, end)
    requires TerminalEvidence(rows, upper, lower, start, end, p).Measured?
    ensures var e := TerminalEvidence(rows, upper, lower, start, end, p);
            e.trend == Expansion <==> p.minRatio <= e.ratio
  {
    var first, w := WindowStart(end, p), Widths(upper, lower);
    SegmentsFill(p);
    assert 0.0 < w(first);
    RatioImpliesSteps(rows, upper, lower, first, p);
    if p.minRatio <= w(end) / w(first) {
      RatioDecidesDirection(upper, lower, first, end);
      WidthsAreMonotone(upper, lower);
      StepsFollowLines(w, first, SegmentSize(p), p.segments, p.tolerance);
    }
  }

  /** The reported trend never contradicts the boundaries, and the reported slope is their opening. */
  lemma TrendFollowsBoundaries(rows: seq<Row>, upper: Line, lower: Line, start: int, end: int, p: Parameters)
    requires ValidParameters(p) && InsideFrame(rows, start, end)
    requires TerminalEvidence(rows, upper, lower, start, end, p).Measured?
    ensures var e := TerminalEvidence(rows, upper, lower, start, end, p);
            && e.slope == Opening(upper, lower)
            && (e.trend == PersistentCompression ==> e.slope < 0.0)
            && (e.trend == Expansion ==> 0.0 < e.slope)
  {
    var first, w := WindowStart(end, p), Widths(upper, lower);
    SegmentsFill(p);
    assert 0.0 < w(first);
    SlopeIsTheOpening(upper, lower, first, end);
    RatioDecidesDirection(upper, lower, first, end);
    RatioImpliesSteps(rows, upper, lower, first, p);
    ExpansionIsTheRatio(rows, upper, lower, start, end, p);
  }

  /** A valid pairing is never reported as having no positive width. */
  lemma ValidPairHasPositiveWidth(rows: seq<Row>, upper: Boundary, lower: Boundary, start: int, end: int, p: Parameters)
    requires ValidParameters(p) && InsideFrame(rows, start, end)
    requires InvalidReasons(upper, lower, start, end) == {}
    ensures TerminalEvidence(rows, upper.line, lower.line, start, end, p) != NonPositiveWidth
  {
    forall i | start <= i <= end ensures 0.0 < Widths(upper.line, lower.line)(i) {
      ValidPairIsOrdered(upper, lower, start, end, i);
    }
  }
}
