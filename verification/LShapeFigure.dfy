/**
  One concrete L-shape under the default thresholds: sixteen candles the detector accepts, whose plan
  the Scanner calls eligible and whose terms the Robot accepts, and which is never entered.
 */
module LShapeFigure {
  import opened Market
  import opened Wrappers
  import I = IkigaiBox
  import opened LShape
  import opened LShapeRobot

  /** The default thresholds. */
  const P := Parameters(3, 30, 3.0, 0.5, 3, 3, 3, 30)

  const BREAKOUT := 15

  /** Quiet candles, an impulse from 9.5 at bar 8 to 20 at bar 11, a trough of three candles, and the breakout. */
  function RowAt(i: int): Row {
    if i < 8 then Row(10.0, 10.5, 10.0, 10.2)
    else if i == 8 then Row(10.0, 10.4, 9.5, 10.2)
    else if i == 9 then Row(10.2, 13.0, 10.1, 12.8)
    else if i == 10 then Row(12.8, 16.5, 12.5, 16.0)
    else if i == 11 then Row(16.0, 20.0, 15.8, 19.5)
    else if i == 12 then Row(19.0, 19.4, 17.5, 18.0)
    else if i == 13 then Row(18.0, 18.8, 17.6, 18.5)
    else if i == 14 then Row(18.5, 19.2, 18.0, 19.0)
    else Row(19.0, 20.5, 18.9, 20.3)
  }

  function Rows(): (rows: seq<Row>)
    ensures |rows| == 16 && forall i :: 0 <= i < 16 ==> rows[i] == RowAt(i)
  {
    seq(16, i => RowAt(i))
  }

  /** The project ATR at the breakout: the mean true range of the last fourteen candles. */
  lemma AtrAtBreakout()
    ensures I.SumTrueRange(Rows(), BREAKOUT - 13, BREAKOUT + 1) / 14.0 == 1.5
  {
    var rows := Rows();
    assert I.SumTrueRange(rows, 14, 16) == 2.8;
    assert I.SumTrueRange(rows, 12, 16) == 6.0;
    assert I.SumTrueRange(rows, 10, 16) == 14.2;
    assert I.SumTrueRange(rows, 8, 16) == 18.0;
    assert I.SumTrueRange(rows, 6, 16) == 19.0;
    assert I.SumTrueRange(rows, 4, 16) == 20.0;
    assert I.SumTrueRange(rows, 2, 16) == 21.0;
  }

  function Figure(): Formation {
    Formation(Long, Anchors(8, 11, 12, 15), 20.0, 19.0, 17.5, 1.0, 21.0, 9.5, 10.5, 1.5)
  }

  lemma FigureQualifies()
    ensures IsCandidate(Rows(), BREAKOUT, Long, P, 11)
    ensures Qualify(Rows(), 1.5, P, Long, 11, BREAKOUT) == Some(Figure())
  {
    var rows := Rows();
    assert IsOrigin(rows, Long, 11, P, 8);
    assert OriginBelow(rows, Long, 11, P, 8) == Some(8);
    assert TroughCandle(rows, Long, 12, 13) == 12;
    assert TroughCandle(rows, Long, 12, 14) == 12;
    assert TroughCandle(rows, Long, 12, 15) == 12;
    assert IsImpulse(rows, 1.5, P, Long, 8, 11);
  }

  /** The detector's verdict at the breakout candle. */
  lemma FigureIsDetected()
    ensures Detected(Rows(), Some(1.5), P, BREAKOUT, Some(Figure()))
  {
    var rows := Rows();
    FigureQualifies();
    forall e: int | e != 11 ensures !IsCandidate(rows, BREAKOUT, Long, P, e) {
      if 0 <= e < 11 {
        assert Reach(Long, rows[e]) < Reach(Long, rows[11]);
      }
    }
  }

  /** Detected, eligible, accepted by the Robot - and still refused at the gate, whatever the tick and the fee. */
  lemma AcceptedFigureIsNotEntered(breakoutTime: int, tick: real, fee: real)
    requires 0.0 < tick && 0.0 <= fee < 1.0
    ensures I.SumTrueRange(Rows(), BREAKOUT - 13, BREAKOUT + 1) / 14.0 == 1.5
    ensures ValidRows(Rows()) && Detected(Rows(), Some(1.5), P, BREAKOUT, Some(Figure()))
    ensures SignalPlan(Figure()).rejection == None
    ensures FrozenTerms(Long, breakoutTime, SignalPlan(Figure())) == Success(Terms(Long, breakoutTime, 20.0, 21.0, 19.5))
    ensures !EntryAllowed(Terms(Long, breakoutTime, 20.0, 21.0, 19.5), tick, fee)
  {
    AtrAtBreakout();
    FigureQualifies();
    FigureIsDetected();
    PlanIsAlwaysTheFallback(Figure());
    DetectedFiguresAgree(Rows(), 1.5, P, Long, 11, BREAKOUT, breakoutTime);
    NoDetectedFigureIsEntered(Rows(), 1.5, P, Long, 11, BREAKOUT, breakoutTime, tick, fee);
  }
}
