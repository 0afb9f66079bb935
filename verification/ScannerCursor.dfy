/**
  Coordinates of the Robot lifecycle: the affine change from Scanner candles to
  one-minute candles, the apex of two lines, and the bounded catch-up request that
  feeds a late candidate the minutes it missed.
 */
module ScannerCursor {
  import opened Market
  import opened Wrappers
  import opened Lifecycle
  import A = Arithmetic

  datatype Apex = Apex(index: real, price: real, slopeDifference: real)

  const PARALLEL_LIMIT := 0.000000001

  /** Intersection of two lines; none when they are parallel up to the limit. */
  function CalculateApex(upper: Line, lower: Line): Option<Apex> {
    var d := upper.slope - lower.slope;
    var difference := if d < 0.0 then -d else d;
    if difference < PARALLEL_LIMIT then None
    else
      var x := (lower.intercept - upper.intercept) / d;
      Some(Apex(x, upper.slope * x + upper.intercept, difference))
  }

  /** The apex is on both lines, and it is their only common point. */
  lemma ApexIsTheIntersection(upper: Line, lower: Line, x: real)
    requires CalculateApex(upper, lower).Some?
    ensures var apex := CalculateApex(upper, lower).value;
            && ValueAt(upper, apex.index) == apex.price == ValueAt(lower, apex.index)
            && (ValueAt(upper, x) == ValueAt(lower, x) <==> x == apex.index)
  {
    var d, apex := upper.slope - lower.slope, CalculateApex(upper, lower).value;
    assert d * apex.index == lower.intercept - upper.intercept;
    assert ValueAt(upper, x) - ValueAt(lower, x) == d * x - d * apex.index == d * (x - apex.index);
    assert ValueAt(upper, apex.index) - ValueAt(lower, apex.index) == d * apex.index - d * apex.index;
  }

  /** There is an apex exactly when the slopes differ by at least one billionth. */
  lemma ApexUnlessParallel(upper: Line, lower: Line)
    ensures CalculateApex(upper, lower).None? <==> -0.000000001 < upper.slope - lower.slope < 0.000000001
    ensures CalculateApex(upper, lower).Some? ==>
              var difference := CalculateApex(upper, lower).value.slopeDifference;
              0.0 < difference && (difference == upper.slope - lower.slope || difference == lower.slope - upper.slope)
  {
  }

  // ----- projection into one-minute candles -----

  function ProjectLine(line: Line, current: int, minutes: int): Line
    requires 0 < minutes
  {
    var anchorPrice := line.slope * current as real + line.intercept;
    var slope := line.slope / minutes as real;
    Line(slope, anchorPrice - slope * current as real)
  }

  datatype ProjectionError = InvalidTimeframe | InvalidCurrentIndex

  function ProjectToMinutes(g: Geometry, minutes: int): Result<Geometry, ProjectionError> {
    if minutes <= 0 then Failure(InvalidTimeframe)
    else if g.currentIndex < 0 then Failure(InvalidCurrentIndex)
    else
      Success(g.(upper := ProjectLine(g.upper, g.currentIndex, minutes),
                 lower := ProjectLine(g.lower, g.currentIndex, minutes),
                 apex := g.currentIndex as real + (g.apex - g.currentIndex as real) * minutes as real))
  }

  lemma ProjectionErrors(g: Geometry, minutes: int)
    ensures ProjectToMinutes(g, minutes) == Failure(InvalidTimeframe) <==> minutes <= 0
    ensures ProjectToMinutes(g, minutes) == Failure(InvalidCurrentIndex) <==> 0 < minutes && g.currentIndex < 0
    ensures ProjectToMinutes(g, minutes).Success? ==>
              var h := ProjectToMinutes(g, minutes).value; h.currentIndex == g.currentIndex && h.direction == g.direction
  {
  }

  /** Position of a source position in the one-minute coordinate. */
  function MinutePosition(current: int, minutes: int, x: real): real {
    current as real + (x - current as real) * minutes as real
  }

  /** Prices are unchanged at every position, between candles as well. */
  lemma ProjectionKeepsPrices(line: Line, current: int, minutes: int, x: real)
    requires 0 < minutes
    ensures ValueAt(ProjectLine(line, current, minutes), MinutePosition(current, minutes, x)) == ValueAt(line, x)
  {
    ScaledLine(line.slope, minutes as real, current as real, x);
  }

  lemma ScaledLine(slope: real, m: real, c: real, x: real)
    requires 0.0 < m
    ensures slope / m * (c + (x - c) * m) == slope / m * c + (slope * x - slope * c)
  {
    var s := slope / m;
    A.Distributes(s, c, (x - c) * m);
    A.Commutes(x - c, m);
    A.Associates(s, m, x - c);
    A.DivideBack(slope, m);
    A.Distributes(slope, x, c);
  }

  /** The minute k candles after the anchor is k source candles after it, at the same boundary prices. */
  lemma ProjectionKeepsBoundary(g: Geometry, minutes: int, k: int)
    requires ProjectToMinutes(g, minutes).Success?
    ensures var projected := ProjectToMinutes(g, minutes).value;
            && Boundary(projected, g.currentIndex + k * minutes) == Boundary(g, g.currentIndex + k)
            && (Reached(projected, g.currentIndex + k * minutes) <==> Reached(g, g.currentIndex + k))
  {
    var line := if g.direction.Long? then g.upper else g.lower;
    var x := (g.currentIndex + k) as real;
    ProjectionKeepsPrices(line, g.currentIndex, minutes, x);
    assert MinutePosition(g.currentIndex, minutes, x) == (g.currentIndex + k * minutes) as real;
    ScaleOrder(g.apex - g.currentIndex as real, k as real, minutes);
  }

  lemma ScaleOrder(x: real, y: real, minutes: int)
    requires 0 < minutes
    ensures x * minutes as real <= y * minutes as real <==> x <= y
  {
    A.Distributes(minutes as real, y, x);
    A.ProductSigns(y - x, minutes as real);
  }

  /** The geometry's apex is where its lines meet. */
  predicate Meets(g: Geometry) {
    ValueAt(g.upper, g.apex) == ValueAt(g.lower, g.apex)
  }

  /** Projected lines meet at the projected apex, at the same price. */
  lemma ProjectionKeepsApex(g: Geometry, minutes: int)
    requires ProjectToMinutes(g, minutes).Success? && Meets(g)
    ensures var projected := ProjectToMinutes(g, minutes).value;
            Meets(projected) && ValueAt(projected.upper, projected.apex) == ValueAt(g.upper, g.apex)
  {
    ProjectionKeepsPrices(g.upper, g.currentIndex, minutes, g.apex);
    ProjectionKeepsPrices(g.lower, g.currentIndex, minutes, g.apex);
  }

  /** Lines that are ordered at the anchor and meet at the apex stay ordered up to the apex. */
  lemma OrderedUntilApex(g: Geometry, index: int)
    requires Meets(g) && PriceAt(g.upper, g.currentIndex) > PriceAt(g.lower, g.currentIndex)
    requires g.currentIndex <= index && !Reached(g, index)
    ensures PriceAt(g.upper, index) > PriceAt(g.lower, index)
  {
    LinesOrderedBefore(g.upper, g.lower, g.apex, g.currentIndex as real, index as real);
  }

  lemma LinesOrderedBefore(upper: Line, lower: Line, apex: real, c: real, x: real)
    requires ValueAt(upper, apex) == ValueAt(lower, apex) && c < apex && x < apex
    requires ValueAt(lower, c) < ValueAt(upper, c)
    ensures ValueAt(lower, x) < ValueAt(upper, x)
  {
    LineGap(upper, lower, apex);
    LineGap(upper, lower, c);
    LineGap(upper, lower, x);
    var turn := upper.slope - lower.slope;
    if 0.0 <= turn { A.Monotone(turn, c, apex); } else { A.StrictlyMonotone(turn, x, apex); }
  }

  lemma LineGap(upper: Line, lower: Line, x: real)
    ensures ValueAt(upper, x) - ValueAt(lower, x) == (upper.slope - lower.slope) * x + (upper.intercept - lower.intercept)
  {
    A.Distributes(x, upper.slope, lower.slope);
  }

  /** A breakout the lifecycle acts on closes outside the whole channel, not just beyond one line. */
  lemma BreakoutLeavesChannel(g: Geometry, cs: seq<Candle>, i: int)
    requires Meets(g) && PriceAt(g.upper, g.currentIndex) > PriceAt(g.lower, g.currentIndex)
    requires 0 <= i < |cs| && BreakAt(g, cs, g.currentIndex, i)
    ensures if g.direction.Long?
            then cs[i].close > PriceAt(g.upper, cs[i].index) && cs[i].close > PriceAt(g.lower, cs[i].index)
            else cs[i].close < PriceAt(g.upper, cs[i].index) && cs[i].close < PriceAt(g.lower, cs[i].index)
  {
    OrderedUntilApex(g, cs[i].index);
  }

  // ----- catch-up -----

  const MINUTE_MS := 60_000

  datatype Kline = Kline(time: int, high: real, low: real, close: real)

  /** Frozen relation between the Scanner index and a candle time, with the frozen apex. */
  datatype Anchor = Anchor(index: int, time: int, apex: real)

  predicate ValidAnchor(a: Anchor) {
    0 <= a.index && 0 < a.time
  }

  datatype CatchupError =
    | EvidenceUnavailable
    | InvalidCandle
    | PredatesAnchor
    | Unaligned
    | IncompleteRange

  function ProjectIndex(a: Anchor, time: int): Result<int, CatchupError> {
    if time <= 0 then Failure(InvalidCandle)
    else if time < a.time then Failure(PredatesAnchor)
    else if (time - a.time) % MINUTE_MS != 0 then Failure(Unaligned)
    else Success(a.index + (time - a.time) / MINUTE_MS)
  }

  function StateCandle(a: Anchor, row: Kline): Result<Candle, CatchupError> {
    if row.time <= 0 || row.low > row.high then Failure(InvalidCandle)
    else
      match ProjectIndex(a, row.time)
      case Failure(e) => Failure(e)
      case Success(index) => Success(Candle(index, row.high, row.low, row.close))
  }

  /** Number of candles requested: enough to reach the apex plus the forming one. */
  function RequestLimit(a: Anchor): int {
    var steps := Ceiling(a.apex - a.index as real);
    var needed := (if steps > 0 then steps else 0) + 1;
    if needed > 3 then needed else 3
  }

  /** Rows after the anchor up to `latest`, in frame order. */
  function Selected(rows: seq<Kline>, a: Anchor, latest: int): seq<Kline> {
    if rows == [] then []
    else
      var init, last := Selected(rows[..|rows| - 1], a, latest), rows[|rows| - 1];
      if a.time < last.time <= latest then init + [last] else init
  }

  /** The selected rows are exactly the minutes after the anchor, in order. */
  predicate EveryMinute(rows: seq<Kline>, a: Anchor, latest: int) {
    && |rows| == (if latest > a.time then (latest - a.time) / MINUTE_MS else 0)
    && forall i :: 0 <= i < |rows| ==> rows[i].time == a.time + (i + 1) * MINUTE_MS
  }

  /** Candles of all rows, or the first error among them. */
  function StateCandles(a: Anchor, rows: seq<Kline>): Result<seq<Candle>, CatchupError> {
    if rows == [] then Success([])
    else
      match StateCandles(a, rows[..|rows| - 1])
      case Failure(e) => Failure(e)
      case Success(cs) =>
        match StateCandle(a, rows[|rows| - 1])
        case Failure(e) => Failure(e)
        case Success(c) => Success(cs + [c])
  }

  /** What the loader makes of the frame it received; its last row is still forming. */
  function Catchup(a: Anchor, frame: seq<Kline>): Result<seq<Candle>, CatchupError> {
    if |frame| < 2 then Failure(EvidenceUnavailable)
    else
      var last := frame[|frame| - 2];
      match StateCandle(a, last)
      case Failure(e) => Failure(e)
      case Success(latest) =>
        if a.apex <= latest.index as real then Success([latest])
        else if last.time == a.time then Success([])
        else
          var rows := Selected(frame[..|frame| - 1], a, last.time);
          if !EveryMinute(rows, a, last.time) then Failure(IncompleteRange) else StateCandles(a, rows)
  }

  method LoadCatchup(a: Anchor, frame: seq<Kline>) returns (r: Result<seq<Candle>, CatchupError>)
    requires ValidAnchor(a)
    ensures r == Catchup(a, frame)
  {
    if |frame| < 2 {
      return Failure(EvidenceUnavailable);
    }
    var last := frame[|frame| - 2];
    var latest := StateCandle(a, last);
    if latest.Failure? {
      return Failure(latest.error);
    }
    if a.apex <= latest.value.index as real {
      return Success([latest.value]);
    }
    if last.time == a.time {
      return Success([]);
    }
    var rows: seq<Kline> := [];
    var closed := frame[..|frame| - 1];
    for position := 0 to |closed|
      invariant rows == Selected(closed[..position], a, last.time)
    {
      assert closed[..position + 1][..position] == closed[..position];
      if a.time < closed[position].time <= last.time {
        rows := rows + [closed[position]];
      }
    }
    assert closed[..|closed|] == closed;
    if !EveryMinute(rows, a, last.time) {
      return Failure(IncompleteRange);
    }
    var candles: seq<Candle> := [];
    for k := 0 to |rows|
      invariant StateCandles(a, rows[..k]) == Success(candles)
    {
      assert rows[..k + 1][..k] == rows[..k];
      var candle := StateCandle(a, rows[k]);
      if candle.Failure? {
        FailurePersists(a, rows, k + 1);
        return Failure(candle.error);
      }
      candles := candles + [candle.value];
    }
    assert rows[..|rows|] == rows;
    return Success(candles);
  }

  lemma {:induction false} FailurePersists(a: Anchor, rows: seq<Kline>, k: int)
    requires 0 <= k <= |rows| && StateCandles(a, rows[..k]).Failure?
    ensures StateCandles(a, rows) == StateCandles(a, rows[..k])
    decreases |rows| - k
  {
    if k == |rows| {
      assert rows[..k] == rows;
    } else {
      assert rows[..k + 1][..k] == rows[..k];
      FailurePersists(a, rows, k + 1);
    }
  }

  // ----- what an answer means -----

  lemma {:induction false} StateCandlesAre(a: Anchor, rows: seq<Kline>)
    requires StateCandles(a, rows).Success?
    ensures var cs := StateCandles(a, rows).value;
            |cs| == |rows| && forall i :: 0 <= i < |rows| ==> StateCandle(a, rows[i]) == Success(cs[i])
  {
    if rows != [] { StateCandlesAre(a, rows[..|rows| - 1]); }
  }

  lemma {:induction false} SelectedAreRows(rows: seq<Kline>, a: Anchor, latest: int, k: Kline)
    ensures k in Selected(rows, a, latest) <==> k in rows && a.time < k.time <= latest
  {
    if rows != [] {
      SelectedAreRows(rows[..|rows| - 1], a, latest, k);
      assert rows == rows[..|rows| - 1] + [rows[|rows| - 1]];
    }
  }

  /** A candle of the frame, at a minute counted from the anchor. */
  predicate IsMinute(a: Anchor, frame: seq<Kline>, minute: int, c: Candle) {
    exists j :: 0 <= j < |frame| - 1 && frame[j].time == a.time + minute * 60_000 && frame[j].low <= frame[j].high
                && c == Candle(a.index + minute, frame[j].high, frame[j].low, frame[j].close)
  }

  /** A successful answer is complete: from the apex on the newest closed candle alone, and before it every minute after the
      anchor up to the newest closed one, in order, each read from the frame. */
  lemma CatchupIsComplete(a: Anchor, frame: seq<Kline>)
    requires ValidAnchor(a) && Catchup(a, frame).Success?
    ensures 2 <= |frame|
    ensures var cs, last := Catchup(a, frame).value, frame[|frame| - 2];
            var elapsed := (last.time - a.time) / 60_000;
            && last.time == a.time + elapsed * 60_000 && 0 <= elapsed && last.low <= last.high
            && (if a.apex <= (a.index + elapsed) as real then cs == [Candle(a.index + elapsed, last.high, last.low, last.close)]
                else |cs| == elapsed && forall i :: 0 <= i < elapsed ==> IsMinute(a, frame, i + 1, cs[i]))
  {
    var closed, last := frame[..|frame| - 1], frame[|frame| - 2];
    var elapsed := (last.time - a.time) / MINUTE_MS;
    if !(a.apex <= (a.index + elapsed) as real) && last.time != a.time {
      var rows := Selected(closed, a, last.time);
      StateCandlesAre(a, rows);
      forall i | 0 <= i < elapsed ensures IsMinute(a, frame, i + 1, Catchup(a, frame).value[i]) {
        SelectedAreRows(closed, a, last.time, rows[i]);
        assert rows[i] in closed;
        var j :| 0 <= j < |closed| && closed[j] == rows[i];
        assert frame[j] == rows[i] && (rows[i].time - a.time) / MINUTE_MS == i + 1;
      }
    }
  }

  /** And each error names what is wrong with the frame or its newest closed candle. */
  lemma CatchupErrors(a: Anchor, frame: seq<Kline>)
    requires ValidAnchor(a)
    ensures Catchup(a, frame) == Failure(EvidenceUnavailable) <==> |frame| < 2
    ensures 2 <= |frame| ==>
      var r, last := Catchup(a, frame), frame[|frame| - 2];
      && (r == Failure(PredatesAnchor) <==> 0 < last.time < a.time && last.low <= last.high)
      && (r == Failure(Unaligned) <==> a.time <= last.time && (last.time - a.time) % 60_000 != 0 && last.low <= last.high)
      && (last.time <= 0 || last.high < last.low ==> r == Failure(InvalidCandle))
      && (r == Failure(InvalidCandle) ==> exists j :: 0 <= j < |frame| - 1 && (frame[j].time <= 0 || frame[j].high < frame[j].low))
  {
    if 2 <= |frame| {
      var closed, last := frame[..|frame| - 1], frame[|frame| - 2];
      var rows := Selected(closed, a, last.time);
      if StateCandle(a, last).Success? && EveryMinute(rows, a, last.time) && StateCandles(a, rows).Failure? {
        var i := FirstBadRow(a, rows);
        SelectedAreRows(closed, a, last.time, rows[i]);
        assert rows[i] in closed && (rows[i].time - a.time) % MINUTE_MS == 0;
        var j :| 0 <= j < |closed| && closed[j] == rows[i];
        assert frame[j] == rows[i];
      }
    }
  }

  lemma {:induction false} FirstBadRow(a: Anchor, rows: seq<Kline>) returns (i: int)
    requires StateCandles(a, rows).Failure?
    ensures 0 <= i < |rows| && StateCandle(a, rows[i]) == Failure(StateCandles(a, rows).error)
  {
    var n := |rows| - 1;
    if StateCandles(a, rows[..n]).Failure? { i := FirstBadRow(a, rows[..n]); } else { i := n; }
  }

  /** The request is the smallest of at least three whose last closed candle may stand at the apex. */
  lemma LimitIsTight(a: Anchor)
    ensures var limit := RequestLimit(a);
            && 3 <= limit && a.apex <= (a.index + limit - 1) as real
            && (3 < limit ==> (a.index + limit - 2) as real < a.apex)
  {
  }

  // ----- the request always suffices -----

  /** A healthy answer to the bounded request: `limit` consecutive minutes, well formed and aligned with the anchor,
      the newest closed one not before the anchor. */
  predicate GapFreeAnswer(a: Anchor, frame: seq<Kline>) {
    && |frame| == RequestLimit(a)
    && (forall i :: 0 <= i < |frame| ==> frame[i].time == frame[0].time + i * MINUTE_MS && frame[i].low <= frame[i].high)
    && a.time <= frame[|frame| - 2].time
    && (frame[|frame| - 2].time - a.time) % MINUTE_MS == 0
  }

  lemma {:induction false} SelectedOfMinutes(rows: seq<Kline>, a: Anchor, latest: int, first: int)
    requires forall i :: 0 <= i < |rows| ==> rows[i].time == rows[0].time + i * MINUTE_MS
    requires 0 <= first <= |rows|
    requires forall i :: 0 <= i < |rows| ==> (a.time < rows[i].time <= latest <==> first <= i)
    ensures Selected(rows, a, latest) == rows[first..]
  {
    if rows != [] {
      var init := rows[..|rows| - 1];
      if first == |rows| {
        SelectedOfMinutes(init, a, latest, |init|);
      } else {
        SelectedOfMinutes(init, a, latest, first);
        assert rows[first..] == init[first..] + [rows[|rows| - 1]];
      }
    }
  }

  lemma {:induction false} StateCandlesOfMinutes(a: Anchor, rows: seq<Kline>)
    requires ValidAnchor(a)
    requires forall i :: 0 <= i < |rows| ==> rows[i].time == a.time + (i + 1) * MINUTE_MS && rows[i].low <= rows[i].high
    ensures StateCandles(a, rows).Success?
    ensures var cs := StateCandles(a, rows).value;
            |cs| == |rows| && forall i :: 0 <= i < |cs| ==>
              cs[i] == Candle(a.index + i + 1, rows[i].high, rows[i].low, rows[i].close)
  {
    if rows != [] {
      StateCandlesOfMinutes(a, rows[..|rows| - 1]);
      var n := |rows|;
      assert (rows[n - 1].time - a.time) / MINUTE_MS == n && (rows[n - 1].time - a.time) % MINUTE_MS == 0;
    }
  }

  /** Candles for every minute after the anchor. */
  predicate ConsecutiveAfter(a: Anchor, cs: seq<Candle>) {
    ValidCandles(cs) && forall i :: 0 <= i < |cs| ==> cs[i].index == a.index + i + 1
  }

  /** Before the apex, fewer minutes passed since the anchor than closed bars were requested. */
  lemma LimitCoversElapsed(a: Anchor, elapsed: int)
    requires !(a.apex <= (a.index + elapsed) as real)
    ensures elapsed < RequestLimit(a) - 1 || elapsed <= 0
  {
  }

  lemma ClosedMinutes(a: Anchor, frame: seq<Kline>, elapsed: int)
    requires ValidAnchor(a) && 2 <= |frame| && 0 <= elapsed < |frame| - 1
    requires forall i :: 0 <= i < |frame| ==> frame[i].time == frame[0].time + i * MINUTE_MS && frame[i].low <= frame[i].high
    requires frame[|frame| - 2].time == a.time + elapsed * MINUTE_MS
    ensures var n, latest := |frame| - 1, frame[|frame| - 2].time;
            var rows := frame[n - elapsed..n];
            && Selected(frame[..n], a, latest) == rows
            && forall i :: 0 <= i < elapsed ==> rows[i].time == a.time + (i + 1) * MINUTE_MS
  {
    var n, latest := |frame| - 1, frame[|frame| - 2].time;
    var closed, first := frame[..n], n - elapsed;
    assert latest == frame[0].time + (n - 1) * MINUTE_MS;
    forall i | 0 <= i < n ensures closed[i].time == a.time + (i + 1 - first) * MINUTE_MS {
      assert closed[i] == frame[i];
    }
    SelectedOfMinutes(closed, a, latest, first);
    assert closed[first..] == frame[first..n];
    forall i | 0 <= i < elapsed ensures frame[first..n][i].time == a.time + (i + 1) * MINUTE_MS {
      assert frame[first..n][i] == closed[first + i];
    }
  }

  /** A frame holding every minute after the anchor is read in full before the apex. */
  lemma MinutesAreRead(a: Anchor, frame: seq<Kline>, elapsed: int)
    requires ValidAnchor(a) && 2 <= |frame| && 0 <= elapsed < |frame| - 1
    requires forall i :: 0 <= i < |frame| ==> frame[i].time == frame[0].time + i * MINUTE_MS && frame[i].low <= frame[i].high
    requires frame[|frame| - 2].time == a.time + elapsed * MINUTE_MS
    requires !(a.apex <= (a.index + elapsed) as real)
    ensures Catchup(a, frame).Success?
    ensures ConsecutiveAfter(a, Catchup(a, frame).value) && |Catchup(a, frame).value| == elapsed
  {
    var n, last := |frame| - 1, frame[|frame| - 2];
    var rows := frame[n - elapsed..n];
    MinuteCandle(a, last, elapsed);
    ClosedMinutes(a, frame, elapsed);
    forall i | 0 <= i < |rows| ensures rows[i].low <= rows[i].high {
      assert rows[i] == frame[n - elapsed + i];
    }
    StateCandlesOfMinutes(a, rows);
    MinutesMatch(a, rows, last.time, elapsed);
    CatchupReads(a, frame, rows, elapsed);
  }

  lemma CatchupReads(a: Anchor, frame: seq<Kline>, rows: seq<Kline>, elapsed: int)
    requires 2 <= |frame| && 0 <= elapsed && !(a.apex <= (a.index + elapsed) as real)
    requires var last := frame[|frame| - 2];
             && StateCandle(a, last) == Success(Candle(a.index + elapsed, last.high, last.low, last.close))
             && (last.time == a.time <==> elapsed == 0)
             && Selected(frame[..|frame| - 1], a, last.time) == rows && EveryMinute(rows, a, last.time)
    ensures Catchup(a, frame) == if elapsed == 0 then Success([]) else StateCandles(a, rows)
  {
  }

  lemma MinuteCandle(a: Anchor, row: Kline, elapsed: int)
    requires ValidAnchor(a) && 0 <= elapsed && row.time == a.time + elapsed * MINUTE_MS && row.low <= row.high
    ensures StateCandle(a, row) == Success(Candle(a.index + elapsed, row.high, row.low, row.close))
  {
    assert (row.time - a.time) / MINUTE_MS == elapsed && (row.time - a.time) % MINUTE_MS == 0;
  }

  lemma MinutesMatch(a: Anchor, rows: seq<Kline>, latest: int, elapsed: int)
    requires 0 <= elapsed && latest == a.time + elapsed * MINUTE_MS && |rows| == elapsed
    requires forall i :: 0 <= i < elapsed ==> rows[i].time == a.time + (i + 1) * MINUTE_MS
    ensures EveryMinute(rows, a, latest)
  {
    assert (latest - a.time) / MINUTE_MS == elapsed;
  }

  /** Before the apex a gap-free answer always covers every minute after the anchor. */
  lemma RequestSuffices(a: Anchor, frame: seq<Kline>)
    requires ValidAnchor(a) && GapFreeAnswer(a, frame)
    requires !(a.apex <= (a.index + (frame[|frame| - 2].time - a.time) / MINUTE_MS) as real)
    ensures Catchup(a, frame).Success?
    ensures ConsecutiveAfter(a, Catchup(a, frame).value)
    ensures |Catchup(a, frame).value| == (frame[|frame| - 2].time - a.time) / MINUTE_MS
  {
    var elapsed := (frame[|frame| - 2].time - a.time) / MINUTE_MS;
    LimitCoversElapsed(a, elapsed);
    MinutesAreRead(a, frame, elapsed);
  }

  /** Replaying consecutive candles from a state at the anchor never meets a stale one. */
  lemma {:induction false} ConsecutiveIsNeverStale(g: Geometry, st: State, cs: seq<Candle>)
    requires ValidCandles(cs) && forall i :: 0 <= i < |cs| ==> cs[i].index == st.cursor + i + 1
    ensures Replayed(g, st, cs).Success? && IgnoredStale !in Replayed(g, st, cs).value.1
    decreases |cs|
  {
    if cs != [] {
      var next := ProcessCandle(g, st, cs[0]).value.0;
      if !next.Terminal() {
        ConsecutiveIsNeverStale(g, next, cs[1..]);
      }
    }
  }

  /** A gap-free catch-up replayed from initialization yields no stale event. */
  lemma CatchupIsNeverStale(g: Geometry, a: Anchor, frame: seq<Kline>)
    requires ValidAnchor(a) && GapFreeAnswer(a, frame) && g.currentIndex == a.index && g.apex == a.apex
    requires !(a.apex <= (a.index + (frame[|frame| - 2].time - a.time) / MINUTE_MS) as real)
    ensures Catchup(a, frame).Success?
    ensures ValidCandles(Catchup(a, frame).value)
    ensures Replayed(g, Initialize(g), Catchup(a, frame).value).Success?
    ensures IgnoredStale !in Replayed(g, Initialize(g), Catchup(a, frame).value).value.1
  {
    RequestSuffices(a, frame);
    ConsecutiveIsNeverStale(g, Initialize(g), Catchup(a, frame).value);
  }

  // ----- the shortcut at the apex -----

  /** Returning only the newest candle once it is past the apex gives the phase of the full replay exactly when
      the full range holds no breakout followed by a retest before the apex; otherwise full replay ends in
      a detected retest, and the shortcut reports expiry. */
  lemma ShortcutAgreesUnlessRetested(g: Geometry, full: seq<Candle>)
    requires full != [] && ValidCandles(full)
    requires ApexAt(g, full, g.currentIndex, |full| - 1)
    ensures var last := [full[|full| - 1]];
            && Final(g, Initialize(g), last).phase == ExpiredAtApex
            && Final(g, Initialize(g), full).phase
               == (if HasRetest(g, full, g.currentIndex) then RetestDetected else ExpiredAtApex)
  {
    var st, last := Initialize(g), full[|full| - 1];
    assert [last][1..] == [];
    assert Final(g, st, [last]) == ProcessCandle(g, st, last).value.0;
    if st.Terminal() {
      TerminalAbsorbs(g, st, full);
      assert !HasRetest(g, full, g.currentIndex);
    } else {
      ReplayMeaning(g, st, full);
      assert HasApex(g, full, g.currentIndex);
    }
  }

  /** `history` holds every closed minute after the anchor, the gap-free frame those of them it reaches back to. */
  predicate HoldsMinutes(a: Anchor, history: seq<Kline>, frame: seq<Kline>) {
    var n, elapsed := |frame| - 1, |history|;
    && GapFreeAnswer(a, frame)
    && frame[n - 1].time == a.time + elapsed * MINUTE_MS
    && (forall i :: 0 <= i < elapsed ==> history[i].time == a.time + (i + 1) * MINUTE_MS && history[i].low <= history[i].high)
    && forall i :: 0 <= i < elapsed && 0 <= n - elapsed + i ==> history[i] == frame[n - elapsed + i]
  }

  /** Before the apex the loader returns the whole range. */
  lemma LoadsEverything(a: Anchor, history: seq<Kline>, frame: seq<Kline>)
    requires ValidAnchor(a) && HoldsMinutes(a, history, frame) && !(a.apex <= (a.index + |history|) as real)
    ensures Catchup(a, frame) == StateCandles(a, history)
  {
    var n, elapsed := |frame| - 1, |history|;
    LimitCoversElapsed(a, elapsed);
    MinuteCandle(a, frame[n - 1], elapsed);
    ClosedMinutes(a, frame, elapsed);
    assert frame[n - elapsed..n] == history;
    MinutesMatch(a, history, frame[n - 1].time, elapsed);
    CatchupReads(a, frame, history, elapsed);
  }

  /** At the apex and past it, the newest candle alone. */
  lemma LoadsNewest(a: Anchor, history: seq<Kline>, frame: seq<Kline>)
    requires ValidAnchor(a) && HoldsMinutes(a, history, frame) && a.apex <= (a.index + |history|) as real
    ensures var last := frame[|frame| - 2];
            Catchup(a, frame) == Success([Candle(a.index + |history|, last.high, last.low, last.close)])
    ensures history != [] ==> history[|history| - 1] == frame[|frame| - 2]
  {
    MinuteCandle(a, frame[|frame| - 2], |history|);
  }

  /** On every gap-free frame, whatever lies between the anchor and its newest closed candle, the replay of what the
      loader returns ends in the phase of the replay of every minute, except exactly when the newest candle is at or
      past the apex and a breakout and its retest came before it. */
  lemma {:induction false} CatchupAgreesUnlessRetested(g: Geometry, a: Anchor, history: seq<Kline>, frame: seq<Kline>)
    requires ValidAnchor(a) && HoldsMinutes(a, history, frame) && g.currentIndex == a.index && g.apex == a.apex
    ensures Catchup(a, frame).Success? && StateCandles(a, history).Success?
    ensures ValidCandles(Catchup(a, frame).value) && ValidCandles(StateCandles(a, history).value)
    ensures var full := StateCandles(a, history).value;
            Final(g, Initialize(g), Catchup(a, frame).value).phase == Final(g, Initialize(g), full).phase <==>
            !(Reached(g, a.index + |history|) && HasRetest(g, full, a.index))
  {
    StateCandlesOfMinutes(a, history);
    if !Reached(g, a.index + |history|) {
      LoadsEverything(a, history, frame);
    } else {
      LoadsNewest(a, history, frame);
      var full, loaded := StateCandles(a, history).value, Catchup(a, frame).value;
      if history == [] {
        TerminalAbsorbs(g, Initialize(g), loaded);
      } else {
        assert loaded == [full[|full| - 1]];
        ShortcutAgreesUnlessRetested(g, full);
      }
    }
  }

  /** Three minutes on which the shortcut loses a retest: breakout at 1, touch at 2, apex at 3. */
  lemma ShortcutLosesRetest()
    ensures var g := Geometry(Long, Line(0.0, 100.0), Line(10.0, 70.0), 3.0, 0);
            var full := [Candle(1, 102.0, 101.0, 101.0), Candle(2, 102.0, 99.0, 101.0), Candle(3, 102.0, 99.0, 101.0)];
            && Meets(g)
            && Final(g, Initialize(g), full).phase == RetestDetected
            && Final(g, Initialize(g), full[2..]).phase == ExpiredAtApex
  {
    var g := Geometry(Long, Line(0.0, 100.0), Line(10.0, 70.0), 3.0, 0);
    var full := [Candle(1, 102.0, 101.0, 101.0), Candle(2, 102.0, 99.0, 101.0), Candle(3, 102.0, 99.0, 101.0)];
    assert BreakAt(g, full, 0, 0) && TouchAt(g, full, 0, 1);
    assert ApexAt(g, full, 0, 2);
    ShortcutAgreesUnlessRetested(g, full);
    assert full[2..] == [full[2]];
  }
}
