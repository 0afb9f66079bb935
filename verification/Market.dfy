/** Vocabulary shared by the Scanner and Robot models: trade direction, candles, straight lines. */
module Market {
  datatype Direction = Long | Short

  datatype Row = Row(open: real, high: real, low: real, close: real)

  datatype Line = Line(slope: real, intercept: real)

  function ValueAt(line: Line, x: real): real {
    line.slope * x + line.intercept
  }

  /** A candle as the exchange reports it: positive prices, the body inside low..high. */
  predicate ValidRow(r: Row) {
    && 0.0 < r.open && 0.0 < r.high && 0.0 < r.low && 0.0 < r.close
    && r.low <= r.open <= r.high
    && r.low <= r.close <= r.high
  }

  function Sign(d: Direction): real {
    if d.Long? then 1.0 else -1.0
  }

  /** The amount as seen by the direction: unchanged for LONG, negated for SHORT. */
  function Signed(d: Direction, x: real): real {
    if d.Long? then x else -x
  }

  /** STOP `a` risks no more than STOP `b`: it is at least as far towards the profit side. */
  predicate NotWider(d: Direction, a: real, b: real) {
    if d.Long? then b <= a else a <= b
  }

  function Abs(x: real): real {
    if x < 0.0 then -x else x
  }

  function Max(x: real, y: real): real {
    if x >= y then x else y
  }

  function Min(x: real, y: real): real {
    if x <= y then x else y
  }

  function Ceiling(x: real): int {
    -((-x).Floor)
  }

  // ----- extremes of a half-open range of rows -----

  function MinLow(rows: seq<Row>, lo: int, hi: int): (m: real)
    requires 0 <= lo < hi <= |rows|
    ensures forall i :: lo <= i < hi ==> m <= rows[i].low
    decreases hi - lo
  {
    if lo + 1 == hi then rows[lo].low
    else
      var rest := MinLow(rows, lo + 1, hi);
      if rows[lo].low <= rest then rows[lo].low else rest
  }

  function MaxHigh(rows: seq<Row>, lo: int, hi: int): (m: real)
    requires 0 <= lo < hi <= |rows|
    ensures forall i :: lo <= i < hi ==> rows[i].high <= m
    decreases hi - lo
  {
    if lo + 1 == hi then rows[lo].high
    else
      var rest := MaxHigh(rows, lo + 1, hi);
      if rows[lo].high >= rest then rows[lo].high else rest
  }

  lemma {:induction false} MinLowIsALow(rows: seq<Row>, lo: int, hi: int) returns (i: int)
    requires 0 <= lo < hi <= |rows|
    ensures lo <= i < hi && rows[i].low == MinLow(rows, lo, hi)
    decreases hi - lo
  {
    i := lo;
    if lo + 1 < hi && MinLow(rows, lo + 1, hi) < rows[lo].low {
      i := MinLowIsALow(rows, lo + 1, hi);
    }
  }

  lemma {:induction false} MaxHighIsAHigh(rows: seq<Row>, lo: int, hi: int) returns (i: int)
    requires 0 <= lo < hi <= |rows|
    ensures lo <= i < hi && rows[i].high == MaxHigh(rows, lo, hi)
    decreases hi - lo
  {
    i := lo;
    if lo + 1 < hi && rows[lo].high < MaxHigh(rows, lo + 1, hi) {
      i := MaxHighIsAHigh(rows, lo + 1, hi);
    }
  }
}
