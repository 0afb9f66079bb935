/**
  L-shape detection: an impulse to a local extreme, a trough that stays inside it,
  and the first candle that clears it; plus the Scanner's reference STOP for the figure.
  Every definition is written once for both directions: LONG looks at highs and lows,
  SHORT at negated lows and negated highs.
 */
module LShape {
  import opened Market
  import opened Wrappers
  import A = Arithmetic

  datatype Parameters = Parameters(
    impulseMinBars: int, impulseMaxBars: int,
    impulseMinAtr: real, impulseMinBarProgressAtr: real,
    pivotLeft: int, pivotRight: int,
    troughMin: int, troughMax: int)

  /** With an empty pivot side or an empty trough the source takes the minimum of nothing. */
  predicate ValidParameters(p: Parameters) {
    1 <= p.pivotLeft && 1 <= p.pivotRight && 1 <= p.troughMin
  }

  /** Candle positions of the figure. */
  datatype Anchors = Anchors(origin: int, extreme: int, trough: int, breakout: int)

  datatype Formation = Formation(
    direction: Direction, at: Anchors, level: real, troughEdge: real, troughExtreme: real, depth: real, target: real,
    originPrice: real, impulseRange: real, atr: real)
  {
    /** Measured from the breakout level, in percent. */
    function Potential(): real
      requires level != 0.0
    {
      100.0 * (target / level - 1.0)
    }
  }

  predicate ValidRows(rows: seq<Row>) {
    forall i :: 0 <= i < |rows| ==> ValidRow(rows[i])
  }

  /** The side of the candle that prints the local extreme, and the opposite side. */
  function Level(d: Direction, r: Row): real {
    if d.Long? then r.high else r.low
  }

  function Inner(d: Direction, r: Row): real {
    if d.Long? then r.low else r.high
  }

  function Reach(d: Direction, r: Row): real {
    Signed(d, Level(d, r))
  }

  function Retreat(d: Direction, r: Row): real {
    Signed(d, Inner(d, r))
  }

  // ----- candidate extremes -----

  function FirstCandidate(breakout: int, p: Parameters): int {
    if 0 <= breakout - p.troughMax - 1 then breakout - p.troughMax - 1 else 0
  }

  /** The breakout clears this candle while every candle in between stays inside it. */
  predicate IsCandidate(rows: seq<Row>, breakout: int, d: Direction, p: Parameters, e: int)
    requires 0 <= breakout < |rows|
  {
    && FirstCandidate(breakout, p) <= e < breakout
    && p.troughMin <= breakout - e - 1
    && Reach(d, rows[e]) < Reach(d, rows[breakout])
    && forall k :: e < k < breakout ==> Reach(d, rows[k]) <= Reach(d, rows[e])
  }

  /** More prominent: further out, the earlier candle on a tie. */
  predicate Outranks(rows: seq<Row>, d: Direction, i: int, j: int)
    requires 0 <= i < |rows| && 0 <= j < |rows|
  {
    || Reach(d, rows[i]) > Reach(d, rows[j])
    || (Reach(d, rows[i]) == Reach(d, rows[j]) && i < j)
  }

  predicate Ranked(rows: seq<Row>, d: Direction, found: seq<int>) {
    && (forall k :: 0 <= k < |found| ==> 0 <= found[k] < |rows|)
    && forall j, k :: 0 <= j < k < |found| ==> Outranks(rows, d, found[j], found[k])
  }

  /** The backward scan with a running maximum finds exactly the candidates, most prominent first.
      Scanning backwards each new candidate outranks those already found, so the source's final
      sort puts it in front of them. */
  method ExtremeCandidates(rows: seq<Row>, breakout: int, d: Direction, p: Parameters) returns (found: seq<int>)
    requires 0 <= breakout < |rows|
    ensures Ranked(rows, d, found)
    ensures forall e :: e in found <==> IsCandidate(rows, breakout, d, p, e)
  {
    var first := FirstCandidate(breakout, p);
    var innerMax := None;
    var extreme := breakout - 1;
    found := [];
    while first <= extreme
      invariant -1 <= extreme < breakout
      invariant innerMax.None? <==> extreme == breakout - 1
      invariant innerMax.Some? ==> exists k :: extreme < k < breakout && Reach(d, rows[k]) == innerMax.value
      invariant innerMax.Some? ==> forall k :: extreme < k < breakout ==> Reach(d, rows[k]) <= innerMax.value
      invariant Ranked(rows, d, found)
      invariant forall e :: e in found <==> extreme < e && IsCandidate(rows, breakout, d, p, e)
      decreases extreme - first
    {
      var level := Reach(d, rows[extreme]);
      if p.troughMin <= breakout - extreme - 1 && level < Reach(d, rows[breakout])
        && (innerMax.None? || innerMax.value <= level)
      {
        assert IsCandidate(rows, breakout, d, p, extreme);
        forall k | 0 <= k < |found| ensures Outranks(rows, d, extreme, found[k]) {
          assert found[k] in found;
        }
        found := [extreme] + found;
      }
      innerMax := if innerMax.None? then Some(level) else Some(Max(innerMax.value, level));
      extreme := extreme - 1;
    }
  }

  // ----- the impulse origin -----

  function OriginFloor(e: int, p: Parameters): int {
    if p.pivotLeft >= e - p.impulseMaxBars + 1 then p.pivotLeft else e - p.impulseMaxBars + 1
  }

  /** A confirmed reversal: strictly beyond the bars on its left and everything up to the extreme. */
  predicate IsOrigin(rows: seq<Row>, d: Direction, e: int, p: Parameters, o: int)
    requires 0 <= e < |rows| && ValidParameters(p)
  {
    && OriginFloor(e, p) <= o <= e - p.pivotRight
    && forall k :: o - p.pivotLeft <= k <= e && k != o ==> Retreat(d, rows[o]) < Retreat(d, rows[k])
  }

  /** The nearest origin at or before `from`. */
  function OriginBelow(rows: seq<Row>, d: Direction, e: int, p: Parameters, from: int): (r: Option<int>)
    requires 0 <= e < |rows| && ValidParameters(p)
    ensures r.Some? ==> IsOrigin(rows, d, e, p, r.value) && r.value <= from
    ensures forall k :: (if r.Some? then r.value < k else true) && k <= from ==> !IsOrigin(rows, d, e, p, k)
    decreases from - OriginFloor(e, p)
  {
    if from < OriginFloor(e, p) then None
    else if IsOrigin(rows, d, e, p, from) then Some(from)
    else OriginBelow(rows, d, e, p, from - 1)
  }

  method ReversalOrigin(rows: seq<Row>, d: Direction, e: int, p: Parameters) returns (r: Option<int>)
    requires 0 <= e < |rows| && ValidParameters(p)
    ensures r == OriginBelow(rows, d, e, p, e - p.pivotRight)
  {
    var origin := e - p.pivotRight;
    while OriginFloor(e, p) <= origin
      invariant OriginBelow(rows, d, e, p, e - p.pivotRight) == OriginBelow(rows, d, e, p, origin)
      decreases origin - OriginFloor(e, p)
    {
      if IsOrigin(rows, d, e, p, origin) {
        return Some(origin);
      }
      origin := origin - 1;
    }
    return None;
  }

  /** Most recent bar printing the outermost level of the window. */
  method LastPeak(rows: seq<Row>, d: Direction, first: int, last: int) returns (best: int)
    requires 0 <= first <= last < |rows|
    ensures first <= best <= last
    ensures forall k :: first <= k <= last ==> Reach(d, rows[k]) <= Reach(d, rows[best])
    ensures forall k :: best < k <= last ==> Reach(d, rows[k]) < Reach(d, rows[best])
  {
    best := first;
    for index := first to last + 1
      invariant first <= best <= last
      invariant forall k :: first <= k < index ==> Reach(d, rows[k]) <= Reach(d, rows[best])
      invariant forall k :: best < k < index ==> Reach(d, rows[k]) < Reach(d, rows[best])
    {
      if Reach(d, rows[best]) <= Reach(d, rows[index]) {
        best := index;
      }
    }
  }

  predicate TopsImpulse(rows: seq<Row>, d: Direction, o: int, e: int)
    requires 0 <= o <= e < |rows|
  {
    forall k :: o <= k <= e ==> Reach(d, rows[k]) <= Reach(d, rows[e])
  }

  /** The trough candle with the most extreme retreat, the earliest on a tie. */
  function TroughCandle(rows: seq<Row>, d: Direction, lo: int, hi: int): (t: int)
    requires 0 <= lo < hi <= |rows|
    ensures lo <= t < hi
    ensures forall k :: lo <= k < hi ==> Retreat(d, rows[t]) <= Retreat(d, rows[k])
    ensures forall k :: lo <= k < t ==> Retreat(d, rows[t]) < Retreat(d, rows[k])
    decreases hi - lo
  {
    if lo + 1 == hi then lo
    else
      var prior := TroughCandle(rows, d, lo, hi - 1);
      if Retreat(d, rows[hi - 1]) < Retreat(d, rows[prior]) then hi - 1 else prior
  }

  // ----- the figure -----

  predicate StrongImpulse(range: real, bars: int, atr: real, p: Parameters)
    requires 0 < bars
  {
    && p.impulseMinBars <= bars
    && 0.0 < range
    && p.impulseMinAtr * atr <= range
    && p.impulseMinBarProgressAtr * atr <= range / bars as real
  }

  /** Measures the trough candle against the extreme and the impulse origin. */
  function Figure(d: Direction, base: Row, top: Row, low: Row, at: Anchors, atr: real): Option<Formation> {
    var level, originPrice := Level(d, top), Inner(d, base);
    if Retreat(d, low) <= Retreat(d, base) then None
    else
      var edge := if d.Long? then Max(low.open, low.close) else Min(low.open, low.close);
      var depth := Signed(d, level - edge);
      var target := level + Signed(d, depth);
      if depth <= 0.0 || target <= 0.0 then None
      else Some(Formation(d, at, level, edge, Inner(d, low), depth, target, originPrice, ImpulseRange(d, base, top), atr))
  }

  function Measure(rows: seq<Row>, atr: real, d: Direction, o: int, e: int, breakout: int): Option<Formation>
    requires 0 <= o < e && e + 1 < breakout < |rows|
  {
    var t := TroughCandle(rows, d, e + 1, breakout);
    Figure(d, rows[o], rows[e], rows[t], Anchors(o, e, t, breakout), atr)
  }

  function ImpulseRange(d: Direction, base: Row, top: Row): real {
    Abs(Level(d, top) - Inner(d, base))
  }

  predicate IsImpulse(rows: seq<Row>, atr: real, p: Parameters, d: Direction, o: int, e: int)
    requires 0 <= o < e < |rows|
  {
    TopsImpulse(rows, d, o, e) && StrongImpulse(ImpulseRange(d, rows[o], rows[e]), e - o + 1, atr, p)
  }

  function Qualify(rows: seq<Row>, atr: real, p: Parameters, d: Direction, e: int, breakout: int): Option<Formation>
    requires ValidParameters(p) && 0 <= e && e + 1 < breakout < |rows|
  {
    match OriginBelow(rows, d, e, p, e - p.pivotRight)
    case None => None
    case Some(o) => QualifyFrom(rows, atr, p, d, o, e, breakout)
  }

  function QualifyFrom(rows: seq<Row>, atr: real, p: Parameters, d: Direction, o: int, e: int, breakout: int): Option<Formation>
    requires 0 <= o < e && e + 1 < breakout < |rows|
  {
    if IsImpulse(rows, atr, p, d, o, e) then Measure(rows, atr, d, o, e, breakout) else None
  }

  method QualifyExtreme(rows: seq<Row>, atr: real, p: Parameters, d: Direction, e: int, breakout: int)
    returns (r: Option<Formation>)
    requires ValidParameters(p) && 0 <= e && e + 1 < breakout < |rows|
    ensures r == Qualify(rows, atr, p, d, e, breakout)
  {
    var origin := ReversalOrigin(rows, d, e, p);
    if origin.None? {
      return None;
    }
    var peak := LastPeak(rows, d, origin.value, e);
    if peak != e {
      return None;
    }
    var range := ImpulseRange(d, rows[origin.value], rows[e]);
    if !StrongImpulse(range, e - origin.value + 1, atr, p) {
      return None;
    }
    return Measure(rows, atr, d, origin.value, e, breakout);
  }

  predicate Qualifies(rows: seq<Row>, atr: real, p: Parameters, breakout: int, d: Direction, e: int)
    requires ValidParameters(p) && 0 <= breakout < |rows|
  {
    IsCandidate(rows, breakout, d, p, e) && Qualify(rows, atr, p, d, e, breakout).Some?
  }

  /** The most prominent qualifying extreme; LONG figures go first. */
  ghost predicate Detected(rows: seq<Row>, atr: Option<real>, p: Parameters, breakout: int, r: Option<Formation>)
    requires ValidParameters(p) && 0 <= breakout < |rows|
  {
    if atr.None? then r.None?
    else match r
      case None => forall d: Direction, e: int :: !Qualifies(rows, atr.value, p, breakout, d, e)
      case Some(f) =>
        && Qualifies(rows, atr.value, p, breakout, f.direction, f.at.extreme)
        && r == Qualify(rows, atr.value, p, f.direction, f.at.extreme, breakout)
        && (f.direction.Short? ==> forall e :: !Qualifies(rows, atr.value, p, breakout, Long, e))
        && forall e :: e != f.at.extreme && Qualifies(rows, atr.value, p, breakout, f.direction, e) ==>
             Outranks(rows, f.direction, f.at.extreme, e)
  }

  method DetectSide(rows: seq<Row>, atr: real, p: Parameters, breakout: int, d: Direction)
    returns (r: Option<Formation>)
    requires ValidParameters(p) && 0 <= breakout < |rows|
    ensures r.None? ==> forall e :: !Qualifies(rows, atr, p, breakout, d, e)
    ensures r.Some? ==>
      && r.value.direction == d
      && Qualifies(rows, atr, p, breakout, d, r.value.at.extreme)
      && r == Qualify(rows, atr, p, d, r.value.at.extreme, breakout)
      && forall e :: e != r.value.at.extreme && Qualifies(rows, atr, p, breakout, d, e) ==>
           Outranks(rows, d, r.value.at.extreme, e)
  {
    var candidates := ExtremeCandidates(rows, breakout, d, p);
    for i := 0 to |candidates|
      invariant forall k :: 0 <= k < i ==> !Qualifies(rows, atr, p, breakout, d, candidates[k])
    {
      assert candidates[i] in candidates;
      r := QualifyExtreme(rows, atr, p, d, candidates[i], breakout);
      if r.Some? {
        forall e | e != candidates[i] && Qualifies(rows, atr, p, breakout, d, e)
          ensures Outranks(rows, d, candidates[i], e)
        {
          var k :| 0 <= k < |candidates| && candidates[k] == e;
        }
        return;
      }
    }
    r := None;
  }

  method DetectAt(rows: seq<Row>, atr: Option<real>, p: Parameters, breakout: int) returns (r: Option<Formation>)
    requires ValidParameters(p) && 0 <= breakout < |rows|
    ensures Detected(rows, atr, p, breakout, r)
  {
    if atr.None? {
      return None;
    }
    r := DetectSide(rows, atr.value, p, breakout, Long);
    if r.Some? {
      return;
    }
    r := DetectSide(rows, atr.value, p, breakout, Short);
    if r.None? {
      forall d: Direction, e: int ensures !Qualifies(rows, atr.value, p, breakout, d, e) {
        if d.Long? {} else {}
      }
    }
  }

  lemma DetectionIsUnique(rows: seq<Row>, atr: Option<real>, p: Parameters, breakout: int,
                          r: Option<Formation>, s: Option<Formation>)
    requires ValidParameters(p) && 0 <= breakout < |rows|
    requires Detected(rows, atr, p, breakout, r) && Detected(rows, atr, p, breakout, s)
    ensures r == s
  {
    if atr.Some? && r.Some? && s.Some? {
      assert r.value.direction == s.value.direction;
      assert r.value.at.extreme == s.value.at.extreme;
    }
  }

  // ----- the figure in prices, LONG and SHORT apart -----

  /** LONG: a low strictly below the bars on its left and everything up to the extreme; SHORT: a high strictly above. */
  predicate Turns(rows: seq<Row>, d: Direction, p: Parameters, o: int, e: int)
    requires 0 <= e < |rows| && 0 <= o - p.pivotLeft
  {
    forall k :: o - p.pivotLeft <= k <= e && k != o && 0 <= o < |rows| ==>
      if d.Long? then rows[o].low < rows[k].low else rows[k].high < rows[o].high
  }

  /** The last such turn that the bars on its right confirm, no more than the longest impulse before the extreme. */
  predicate LastTurn(rows: seq<Row>, d: Direction, p: Parameters, o: int, e: int)
    requires 0 <= e < |rows| && ValidParameters(p)
  {
    && p.pivotLeft <= o <= e - p.pivotRight && e - o + 1 <= p.impulseMaxBars && Turns(rows, d, p, o, e)
    && forall k :: o < k <= e - p.pivotRight ==> !Turns(rows, d, p, k, e)
  }

  /** The impulse ends at its outermost price and is long, large and steep enough. */
  predicate Rises(rows: seq<Row>, atr: real, p: Parameters, d: Direction, o: int, e: int)
    requires 0 <= o < e < |rows|
  {
    var bars, range := e - o + 1, if d.Long? then rows[e].high - rows[o].low else rows[o].high - rows[e].low;
    && (forall k :: o <= k <= e ==> if d.Long? then rows[k].high <= rows[e].high else rows[e].low <= rows[k].low)
    && p.impulseMinBars <= bars && 0.0 < range && p.impulseMinAtr * atr <= range
    && p.impulseMinBarProgressAtr * atr * bars as real <= range
  }

  /** The trough stays inside the level, for a permitted number of bars, and the breakout clears it. */
  predicate Clears(rows: seq<Row>, p: Parameters, d: Direction, e: int, b: int)
    requires 0 <= b < |rows|
  {
    && 0 <= e && p.troughMin <= b - e - 1 <= p.troughMax
    && (e < b ==> if d.Long? then rows[e].high < rows[b].high else rows[b].low < rows[e].low)
    && forall k :: e < k < b ==> if d.Long? then rows[k].high <= rows[e].high else rows[e].low <= rows[k].low
  }

  /** The trough's most extreme bar, the first of them. */
  predicate Deepest(rows: seq<Row>, d: Direction, e: int, b: int, t: int)
    requires 0 <= e < b <= |rows|
  {
    && e < t < b
    && (forall k :: e < k < b ==> if d.Long? then rows[t].low <= rows[k].low else rows[k].high <= rows[t].high)
    && forall k :: e < k < t ==> if d.Long? then rows[t].low < rows[k].low else rows[k].high < rows[t].high
  }

  /** The trough does not undo the impulse, its body stays inside the level, and the target is a price. */
  predicate HoldsInside(d: Direction, base: Row, top: Row, low: Row) {
    if d.Long? then base.low < low.low && low.open < top.high && low.close < top.high
    else && low.high < base.high && top.low < low.open && top.low < low.close
         && (low.open < 2.0 * top.low || low.close < 2.0 * top.low)
  }

  predicate HasShape(rows: seq<Row>, atr: real, p: Parameters, d: Direction, at: Anchors)
    requires ValidParameters(p) && 0 <= at.breakout < |rows|
  {
    && Clears(rows, p, d, at.extreme, at.breakout)
    && LastTurn(rows, d, p, at.origin, at.extreme)
    && Rises(rows, atr, p, d, at.origin, at.extreme)
    && Deepest(rows, d, at.extreme, at.breakout, at.trough)
    && HoldsInside(d, rows[at.origin], rows[at.extreme], rows[at.trough])
  }

  /** Level, body edge and extreme of the trough, target as far beyond the level as the edge lies before it. */
  predicate Priced(base: Row, top: Row, low: Row, f: Formation) {
    if f.direction.Long? then
      && f.level == top.high && f.originPrice == base.low && f.impulseRange == top.high - base.low && f.troughExtreme == low.low
      && (f.troughEdge == low.open || f.troughEdge == low.close) && low.open <= f.troughEdge && low.close <= f.troughEdge
      && f.depth == f.level - f.troughEdge && f.target == f.level + f.depth
    else
      && f.level == top.low && f.originPrice == base.high && f.impulseRange == base.high - top.low && f.troughExtreme == low.high
      && (f.troughEdge == low.open || f.troughEdge == low.close) && f.troughEdge <= low.open && f.troughEdge <= low.close
      && f.depth == f.troughEdge - f.level && f.target == f.level - f.depth
  }

  lemma OriginTurns(rows: seq<Row>, d: Direction, p: Parameters, e: int, o: int)
    requires ValidParameters(p) && 0 <= e < |rows|
    ensures OriginBelow(rows, d, e, p, e - p.pivotRight) == Some(o) <==> LastTurn(rows, d, p, o, e)
  {
    forall k | OriginFloor(e, p) <= k <= e - p.pivotRight ensures IsOrigin(rows, d, e, p, k) <==> Turns(rows, d, p, k, e) {}
  }

  lemma TroughIsDeepest(rows: seq<Row>, d: Direction, e: int, b: int, t: int)
    requires 0 <= e && e + 1 < b <= |rows|
    ensures TroughCandle(rows, d, e + 1, b) == t <==> Deepest(rows, d, e, b, t)
  {
    var c := TroughCandle(rows, d, e + 1, b);
    assert Retreat(d, rows[c]) == if d.Long? then rows[c].low else -rows[c].high;
  }

  lemma ImpulseRises(rows: seq<Row>, atr: real, p: Parameters, d: Direction, o: int, e: int)
    requires ValidRows(rows) && 0 <= o < e < |rows|
    ensures IsImpulse(rows, atr, p, d, o, e) <==> Rises(rows, atr, p, d, o, e)
  {
    assert ValidRow(rows[o]);
    A.QuotientOrder(ImpulseRange(d, rows[o], rows[e]), (e - o + 1) as real, p.impulseMinBarProgressAtr * atr);
  }

  lemma CandidateClears(rows: seq<Row>, breakout: int, d: Direction, p: Parameters, e: int)
    requires ValidParameters(p) && 0 <= breakout < |rows|
    ensures IsCandidate(rows, breakout, d, p, e) <==> Clears(rows, p, d, e, breakout)
  {
    if FirstCandidate(breakout, p) <= e < breakout {
      forall k | e <= k <= breakout ensures Reach(d, rows[k]) == if d.Long? then rows[k].high else -rows[k].low {}
    }
  }

  lemma FigureHoldsInside(d: Direction, base: Row, top: Row, low: Row, at: Anchors, atr: real)
    requires ValidRow(top) && ValidRow(low) && (if d.Long? then base.low <= top.high else top.low <= base.high)
    ensures Figure(d, base, top, low, at, atr).Some? <==> HoldsInside(d, base, top, low)
    ensures Figure(d, base, top, low, at, atr).Some? ==>
              var f := Figure(d, base, top, low, at, atr).value;
              f.at == at && f.direction == d && f.atr == atr && Priced(base, top, low, f)
  {
  }

  /** What an origin makes of an extreme. */
  lemma FromOrigin(rows: seq<Row>, atr: real, p: Parameters, d: Direction, at: Anchors)
    requires ValidRows(rows) && 0 <= at.origin < at.extreme && at.extreme + 1 < at.breakout < |rows|
    requires Deepest(rows, d, at.extreme, at.breakout, at.trough)
    ensures var r := QualifyFrom(rows, atr, p, d, at.origin, at.extreme, at.breakout);
            && (r.Some? <==> Rises(rows, atr, p, d, at.origin, at.extreme)
                             && HoldsInside(d, rows[at.origin], rows[at.extreme], rows[at.trough]))
            && (r.Some? ==> r.value.at == at && r.value.direction == d && r.value.atr == atr
                            && Priced(rows[at.origin], rows[at.extreme], rows[at.trough], r.value))
  {
    ImpulseRises(rows, atr, p, d, at.origin, at.extreme);
    TroughIsDeepest(rows, d, at.extreme, at.breakout, at.trough);
    if Rises(rows, atr, p, d, at.origin, at.extreme) {
      assert ValidRow(rows[at.extreme]) && ValidRow(rows[at.trough]);
      FigureHoldsInside(d, rows[at.origin], rows[at.extreme], rows[at.trough], at, atr);
    }
  }

  /** A shape in the prices qualifies, with exactly its positions and prices. */
  lemma ShapeQualifies(rows: seq<Row>, atr: real, p: Parameters, d: Direction, at: Anchors)
    requires ValidRows(rows) && ValidParameters(p) && 0 <= at.breakout < |rows| && HasShape(rows, atr, p, d, at)
    ensures Qualifies(rows, atr, p, at.breakout, d, at.extreme)
    ensures var f := Qualify(rows, atr, p, d, at.extreme, at.breakout).value;
            && f.at == at && f.direction == d && f.atr == atr
            && Priced(rows[at.origin], rows[at.extreme], rows[at.trough], f)
  {
    CandidateClears(rows, at.breakout, d, p, at.extreme);
    OriginTurns(rows, d, p, at.extreme, at.origin);
    FromOrigin(rows, atr, p, d, at);
  }

  /** And whatever qualifies is such a shape. */
  lemma QualifiedHasShape(rows: seq<Row>, atr: real, p: Parameters, breakout: int, d: Direction, e: int)
    requires ValidRows(rows) && ValidParameters(p) && 0 <= breakout < |rows| && Qualifies(rows, atr, p, breakout, d, e)
    ensures var f := Qualify(rows, atr, p, d, e, breakout).value;
            && f.at.extreme == e && f.at.breakout == breakout && f.direction == d && HasShape(rows, atr, p, d, f.at)
  {
    var o, t := OriginBelow(rows, d, e, p, e - p.pivotRight).value, TroughCandle(rows, d, e + 1, breakout);
    CandidateClears(rows, breakout, d, p, e);
    OriginTurns(rows, d, p, e, o);
    TroughIsDeepest(rows, d, e, breakout, t);
    FromOrigin(rows, atr, p, d, Anchors(o, e, t, breakout));
  }

  /** Further out, the earlier bar on a tie. */
  predicate MoreProminent(rows: seq<Row>, d: Direction, i: int, j: int)
    requires 0 <= i < |rows| && 0 <= j < |rows|
  {
    if d.Long? then rows[j].high < rows[i].high || (rows[i].high == rows[j].high && i <= j)
    else rows[i].low < rows[j].low || (rows[i].low == rows[j].low && i <= j)
  }

  /** The detector's verdict in prices: a figure is a shape, LONG unless no LONG shape exists, with the most prominent
      extreme; and with a usable ATR no figure means that there is no shape of either direction. */
  lemma VerdictInPrices(rows: seq<Row>, atr: real, p: Parameters, breakout: int, r: Option<Formation>)
    requires ValidRows(rows) && ValidParameters(p) && 0 <= breakout < |rows| && Detected(rows, Some(atr), p, breakout, r)
    ensures r.Some? ==>
              var f := r.value;
              && f.at.breakout == breakout && f.atr == atr && HasShape(rows, atr, p, f.direction, f.at)
              && Priced(rows[f.at.origin], rows[f.at.extreme], rows[f.at.trough], f)
    ensures forall d: Direction, at: Anchors :: at.breakout == breakout && HasShape(rows, atr, p, d, at) ==>
              && r.Some? && (d.Long? ==> r.value.direction.Long?) && 0 <= at.extreme < |rows| && 0 <= r.value.at.extreme < |rows|
              && (r.value.direction == d ==> MoreProminent(rows, d, r.value.at.extreme, at.extreme))
  {
    if r.Some? {
      QualifiedHasShape(rows, atr, p, breakout, r.value.direction, r.value.at.extreme);
      ShapeQualifies(rows, atr, p, r.value.direction, r.value.at);
    }
    forall d: Direction, at: Anchors | at.breakout == breakout && HasShape(rows, atr, p, d, at)
      ensures r.Some? && (d.Long? ==> r.value.direction.Long?) && 0 <= at.extreme < |rows| && 0 <= r.value.at.extreme < |rows|
      ensures r.value.direction == d ==> MoreProminent(rows, d, r.value.at.extreme, at.extreme)
    {
      ShapeQualifies(rows, atr, p, d, at);
      assert Qualifies(rows, atr, p, breakout, d, at.extreme);
      assert r.Some?;
    }
  }

  // ----- later candles never matter -----

  lemma {:induction false} OriginIgnoresFuture(rows: seq<Row>, more: seq<Row>, d: Direction, e: int, p: Parameters, from: int)
    requires 0 <= e < |rows| && ValidParameters(p)
    ensures OriginBelow(rows + more, d, e, p, from) == OriginBelow(rows, d, e, p, from)
    decreases from - OriginFloor(e, p)
  {
    if OriginFloor(e, p) <= from {
      assert forall k :: 0 <= k <= e ==> (rows + more)[k] == rows[k];
      OriginIgnoresFuture(rows, more, d, e, p, from - 1);
    }
  }

  lemma {:induction false} TroughIgnoresFuture(rows: seq<Row>, more: seq<Row>, d: Direction, lo: int, hi: int)
    requires 0 <= lo < hi <= |rows|
    ensures TroughCandle(rows + more, d, lo, hi) == TroughCandle(rows, d, lo, hi)
    decreases hi - lo
  {
    if lo + 1 < hi {
      TroughIgnoresFuture(rows, more, d, lo, hi - 1);
    }
  }

  lemma MeasureIgnoresFuture(rows: seq<Row>, more: seq<Row>, atr: real, d: Direction,
                             o: int, e: int, breakout: int)
    requires 0 <= o < e && e + 1 < breakout < |rows|
    ensures Measure(rows + more, atr, d, o, e, breakout) == Measure(rows, atr, d, o, e, breakout)
  {
    TroughIgnoresFuture(rows, more, d, e + 1, breakout);
    var t := TroughCandle(rows, d, e + 1, breakout);
    assert (rows + more)[o] == rows[o] && (rows + more)[e] == rows[e] && (rows + more)[t] == rows[t];
  }

  lemma ImpulseIgnoresFuture(rows: seq<Row>, more: seq<Row>, atr: real, p: Parameters,
                             d: Direction, o: int, e: int)
    requires 0 <= o < e < |rows|
    ensures IsImpulse(rows + more, atr, p, d, o, e) <==> IsImpulse(rows, atr, p, d, o, e)
  {
    assert forall k :: o <= k <= e ==> (rows + more)[k] == rows[k];
  }

  lemma QualifyIgnoresFuture(rows: seq<Row>, more: seq<Row>, atr: real, p: Parameters,
                             d: Direction, e: int, breakout: int)
    requires ValidParameters(p) && 0 <= e && e + 1 < breakout < |rows|
    ensures Qualify(rows + more, atr, p, d, e, breakout) == Qualify(rows, atr, p, d, e, breakout)
  {
    OriginIgnoresFuture(rows, more, d, e, p, e - p.pivotRight);
    var origin := OriginBelow(rows, d, e, p, e - p.pivotRight);
    if origin.Some? { QualifyFromIgnoresFuture(rows, more, atr, p, d, origin.value, e, breakout); }
  }

  lemma QualifyFromIgnoresFuture(rows: seq<Row>, more: seq<Row>, atr: real, p: Parameters,
                                 d: Direction, o: int, e: int, breakout: int)
    requires 0 <= o < e && e + 1 < breakout < |rows|
    ensures QualifyFrom(rows + more, atr, p, d, o, e, breakout) == QualifyFrom(rows, atr, p, d, o, e, breakout)
  {
    ImpulseIgnoresFuture(rows, more, atr, p, d, o, e);
    MeasureIgnoresFuture(rows, more, atr, d, o, e, breakout);
  }

  lemma CandidateIgnoresFuture(rows: seq<Row>, more: seq<Row>, breakout: int, d: Direction, p: Parameters, e: int)
    requires 0 <= breakout < |rows|
    ensures IsCandidate(rows + more, breakout, d, p, e) <==> IsCandidate(rows, breakout, d, p, e)
  {
    if FirstCandidate(breakout, p) <= e < breakout {
      assert forall k :: e <= k <= breakout ==> (rows + more)[k] == rows[k];
    }
  }

  lemma QualifiesIgnoresFuture(rows: seq<Row>, more: seq<Row>, atr: real, p: Parameters, breakout: int,
                               d: Direction, e: int)
    requires ValidParameters(p) && 0 <= breakout < |rows|
    ensures Qualifies(rows + more, atr, p, breakout, d, e) <==> Qualifies(rows, atr, p, breakout, d, e)
  {
    CandidateIgnoresFuture(rows, more, breakout, d, p, e);
    if IsCandidate(rows, breakout, d, p, e) {
      QualifyIgnoresFuture(rows, more, atr, p, d, e, breakout);
    }
  }

  /** A later bar can never change an earlier verdict. */
  lemma VerdictIgnoresFuture(rows: seq<Row>, more: seq<Row>, atr: Option<real>, p: Parameters,
                             breakout: int, r: Option<Formation>)
    requires ValidParameters(p) && 0 <= breakout < |rows|
    ensures Detected(rows + more, atr, p, breakout, r) <==> Detected(rows, atr, p, breakout, r)
  {
    if atr.Some? {
      AllQualifyAlike(rows, more, atr.value, p, breakout);
      if r.Some? && Qualifies(rows, atr.value, p, breakout, r.value.direction, r.value.at.extreme) {
        QualifyIgnoresFuture(rows, more, atr.value, p, r.value.direction, r.value.at.extreme, breakout);
        RanksAlike(rows, more, atr.value, p, breakout, r.value.direction, r.value.at.extreme);
      }
    }
  }

  lemma AllQualifyAlike(rows: seq<Row>, more: seq<Row>, atr: real, p: Parameters, breakout: int)
    requires ValidParameters(p) && 0 <= breakout < |rows|
    ensures forall d: Direction, e: int ::
      Qualifies(rows + more, atr, p, breakout, d, e) <==> Qualifies(rows, atr, p, breakout, d, e)
  {
    forall d: Direction, e: int
      ensures Qualifies(rows + more, atr, p, breakout, d, e) <==> Qualifies(rows, atr, p, breakout, d, e)
    {
      QualifiesIgnoresFuture(rows, more, atr, p, breakout, d, e);
    }
  }

  lemma RanksAlike(rows: seq<Row>, more: seq<Row>, atr: real, p: Parameters, breakout: int, d: Direction, best: int)
    requires ValidParameters(p) && 0 <= breakout < |rows| && Qualifies(rows, atr, p, breakout, d, best)
    ensures forall e: int :: Qualifies(rows, atr, p, breakout, d, e) ==>
      (Outranks(rows + more, d, best, e) <==> Outranks(rows, d, best, e))
  {
    assert 0 <= best < |rows| && (rows + more)[best] == rows[best];
    forall e: int | Qualifies(rows, atr, p, breakout, d, e)
      ensures Outranks(rows + more, d, best, e) <==> Outranks(rows, d, best, e)
    {
      assert 0 <= e < |rows| && (rows + more)[e] == rows[e];
    }
  }

  // ----- the Scanner's reference STOP -----

  datatype StopKind = Structural | RatioFallback

  datatype Rejection = PotentialBelowMinimum | StopNotViable | RewardRiskBelowMinimum

  datatype Plan = Plan(
    reference: real, target: real, stop: real, kind: StopKind, structuralStop: real,
    reward: real, risk: real, rewardRisk: real, potential: real, rejection: Option<Rejection>)

  const MIN_POTENTIAL_PERCENT := 0.8
  const MIN_REWARD_RISK := 2.0

  function SignalPlan(f: Formation): Plan
    requires f.level != 0.0
  {
    var reward := Abs(f.target - f.level);
    var structuralRisk := Abs(f.level - f.troughExtreme);
    var structural := 0.0 < structuralRisk <= reward / 2.0;
    var risk := if structural then structuralRisk else reward / 2.0;
    var stop := if structural then f.troughExtreme else f.level - Signed(f.direction, risk);
    var rewardRisk := if risk > 0.0 then reward / risk else 0.0;
    var potential := Abs(f.Potential());
    var rejection :=
      if potential < MIN_POTENTIAL_PERCENT then Some(PotentialBelowMinimum)
      else if risk <= 0.0 || stop <= 0.0 then Some(StopNotViable)
      else if rewardRisk < MIN_REWARD_RISK then Some(RewardRiskBelowMinimum)
      else None;
    Plan(f.level, f.target, stop, if structural then Structural else RatioFallback, f.troughExtreme,
         reward, risk, rewardRisk, potential, rejection)
  }

  /** What every detected figure looks like: the trough's extreme is at least as far from
      the breakout level as the target is, on the other side of it. */
  predicate Shaped(f: Formation) {
    && 0.0 < f.level && 0.0 < f.target && 0.0 < f.troughExtreme && 0.0 < f.depth
    && f.target == f.level + Signed(f.direction, f.depth)
    && f.depth <= Signed(f.direction, f.level - f.troughExtreme)
    && (f.direction.Long? ==> f.depth < f.level)
  }

  lemma FormationIsShaped(rows: seq<Row>, atr: real, p: Parameters, d: Direction, e: int, breakout: int)
    requires ValidRows(rows) && ValidParameters(p) && 0 <= e && e + 1 < breakout < |rows|
    requires Qualify(rows, atr, p, d, e, breakout).Some?
    ensures Shaped(Qualify(rows, atr, p, d, e, breakout).value)
  {
    var f := Qualify(rows, atr, p, d, e, breakout).value;
    var t := TroughCandle(rows, d, e + 1, breakout);
    assert ValidRow(rows[t]) && ValidRow(rows[e]);
    assert d.Long? ==> rows[t].low <= f.troughEdge;
    assert d.Short? ==> f.troughEdge <= rows[t].high;
  }

  /** For every figure the structural STOP would risk at least the whole reward, so the plan is the
      ratio fallback at exactly 2:1 with a positive STOP, and only the potential can reject it. */
  lemma PlanIsAlwaysTheFallback(f: Formation)
    requires Shaped(f)
    ensures var plan := SignalPlan(f);
            && plan.kind == RatioFallback
            && plan.rewardRisk == 2.0
            && plan.reward == f.depth
            && plan.stop == f.level - Signed(f.direction, f.depth / 2.0)
            && 0.0 < plan.stop
            && (plan.rejection == None || plan.rejection == Some(PotentialBelowMinimum))
            && (plan.rejection == None <==> MIN_POTENTIAL_PERCENT * f.level <= 100.0 * f.depth)
  {
    PotentialIsDepth(f);
    var plan := SignalPlan(f);
    assert plan.reward == f.depth && plan.risk == f.depth / 2.0;
    assert f.depth == 2.0 * plan.risk;
    assert plan.rewardRisk == 2.0;
  }

  lemma PotentialIsDepth(f: Formation)
    requires Shaped(f)
    ensures MIN_POTENTIAL_PERCENT <= Abs(f.Potential()) <==> MIN_POTENTIAL_PERCENT * f.level <= 100.0 * f.depth
  {
    var share := f.depth / f.level;
    assert share > 0.0;
    assert f.target / f.level == 1.0 + Signed(f.direction, share) by {
      Shares(f.level, f.depth);
      Shares(f.level, -f.depth);
    }
    assert Abs(f.Potential()) == 100.0 * share;
    assert share * f.level == f.depth;
    var excess := 100.0 * share - MIN_POTENTIAL_PERCENT;
    assert excess * f.level == 100.0 * f.depth - MIN_POTENTIAL_PERCENT * f.level;
    assert excess < 0.0 <==> excess * f.level < 0.0;
  }

  lemma Shares(level: real, gain: real)
    requires 0.0 < level
    ensures (level + gain) / level == 1.0 + gain / level
    ensures (-gain) / level == -(gain / level)
  {
    var share, whole := gain / level, (level + gain) / level;
    assert share * level == gain && whole * level == level + gain;
    var difference := whole - 1.0 - share;
    assert difference * level == 0.0;
    assert (-share) * level == -gain;
  }
}
