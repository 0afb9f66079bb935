/**
  Is every breakout of an observed setup announced on its candle? A READY record may also turn into a breakout
  that happened earlier: the search falls back to a shorter shelf which an earlier bar had already left.
 */
module WatchLate {
  import opened Market
  import opened Wrappers
  import opened IkigaiBox
  import opened IkigaiWatch
  import opened WatchRun
  import opened WatchStream
  import opened WatchSlide

  /** More bars can only widen a shelf, so a close beyond the longer one is beyond the shorter one. */
  lemma WiderShelfBreaksLater(rows: seq<Row>, d: Direction, start: int, shorter: int, longer: int, row: Row)
    requires 0 <= start < shorter <= longer <= |rows|
    requires ClosesBeyond(row, d, MinLow(rows, start, longer), MaxHigh(rows, start, longer))
    ensures ClosesBeyond(row, d, MinLow(rows, start, shorter), MaxHigh(rows, start, shorter))
  {
    var low := MinLowIsALow(rows, start, shorter);
    var high := MaxHighIsAHigh(rows, start, shorter);
  }

  /** A broken shelf found for a setup whose own shelf still holds is a shorter one. */
  lemma FallsBackToShorter(rows: seq<Row>, upto: int, prev: Watch, now: Watch)
    requires 1 < |rows| && upto == |rows| - 2
    requires Boxed(rows, upto, prev) && Boxed(rows, upto + 1, now) && prev.Id() == now.Id()
    requires prev.firstExit.None? && now.firstExit.Some?
    requires !ClosesBeyond(rows[upto + 1], prev.direction, prev.boxLow, prev.boxHigh)
    ensures now.boxStart == prev.boxStart && now.boxEnd < prev.boxEnd
  {
    if prev.boxEnd <= now.boxEnd {
      WiderShelfBreaksLater(rows, prev.direction, prev.boxStart, prev.boxEnd + 1, now.boxEnd + 1, rows[now.firstExit.value]);
      assert false;
    }
  }

  /** What the detector makes of a setup it is fed. */
  lemma DetectedIsCarried(rows: seq<Row>, p: Parameters, previous: seq<Watch>, out: seq<Watch>, prev: Watch, w: Watch)
    requires 1 < |rows| && AllSound(rows, |rows| - 2, previous) && Detects(rows, p, previous, out)
    requires prev in previous && w in out && w.Id() == prev.Id()
    ensures Carry(rows, p, prev, Fresh(rows, p, prev.Id())) == Some(w)
    ensures Lookup(previous, prev.Id()) == Some(prev)
  {
    ByIdIsFaithful(previous);
    LookupFinds(out, w.Id(), w);
    LookupFinds(previous, prev.Id(), prev);
  }

  /** The search finds a shelf of this setup that a bar before the newest one already left. */
  predicate BrokenBefore(rows: seq<Row>, p: Parameters, id: Identity) {
    var now := Fresh(rows, p, id);
    now.Some? && now.value.firstExit.Some? && now.value.firstExit.value < |rows| - 1
  }

  /** A READY setup becomes a breakout by the newest close or by what the search finds now. */
  lemma TurnsByCloseOrSearch(rows: seq<Row>, p: Parameters, prev: Watch, now: Option<Watch>, w: Watch)
    requires 1 < |rows| && 0 <= prev.anchorEnd && prev.phase.BoxReady? && w.phase.BoxBreakObserved?
    requires Carry(rows, p, prev, now) == Some(w)
    ensures if ClosesBeyond(rows[|rows| - 1], prev.direction, prev.boxLow, prev.boxHigh)
            then w.firstExit == Some(|rows| - 1) else now == Some(w)
  {
  }

  lemma AnnouncedOnItsCandle(previous: seq<Watch>, now: int, prev: Watch, w: Watch)
    requires Lookup(previous, prev.Id()) == Some(prev) && prev.phase.BoxReady? && w.Id() == prev.Id() && w.phase.BoxBreakObserved?
    ensures Announces(previous, now, w) <==> w.firstExit == Some(now)
  {
  }

  /** The newest candle turns an observed READY setup into a breakout. It is announced unless the candle closes inside
      the observed shelf and the search falls back to a broken one. */
  lemma BreakIsAnnouncedUnlessLate(rows: seq<Row>, p: Parameters, previous: seq<Watch>, out: seq<Watch>, prev: Watch, w: Watch)
    requires 1 < |rows| && AllSound(rows, |rows| - 2, previous) && Detects(rows, p, previous, out)
    requires prev in previous && prev.phase.BoxReady? && w in out && w.Id() == prev.Id() && w.phase.BoxBreakObserved?
    ensures Announces(previous, |rows| - 1, w) <==>
              ClosesBeyond(rows[|rows| - 1], prev.direction, prev.boxLow, prev.boxHigh) || !BrokenBefore(rows, p, prev.Id())
    ensures !Announces(previous, |rows| - 1, w) ==>
              && Fresh(rows, p, prev.Id()) == Some(w)
              && w.boxStart == prev.boxStart && w.boxEnd < prev.boxEnd && w.firstExit.value < |rows| - 1
  {
    DetectedIsCarried(rows, p, previous, out, prev, w);
    LateIsShorter(rows, p, prev, w);
    AnnouncedOnItsCandle(previous, |rows| - 1, prev, w);
  }

  /** The same, for the record alone. */
  lemma LateIsShorter(rows: seq<Row>, p: Parameters, prev: Watch, w: Watch)
    requires 1 < |rows| && Sound(rows, |rows| - 2, prev) && prev.phase.BoxReady? && w.phase.BoxBreakObserved?
    requires Carry(rows, p, prev, Fresh(rows, p, prev.Id())) == Some(w)
    ensures w.firstExit == Some(|rows| - 1) <==>
              ClosesBeyond(rows[|rows| - 1], prev.direction, prev.boxLow, prev.boxHigh) || !BrokenBefore(rows, p, prev.Id())
    ensures w.firstExit != Some(|rows| - 1) ==>
              && Fresh(rows, p, prev.Id()) == Some(w)
              && w.boxStart == prev.boxStart && w.boxEnd < prev.boxEnd && w.firstExit.Some? && w.firstExit.value < |rows| - 1
  {
    TurnsByCloseOrSearch(rows, p, prev, Fresh(rows, p, prev.Id()), w);
    if !ClosesBeyond(rows[|rows| - 1], prev.direction, prev.boxLow, prev.boxHigh) {
      FreshIsSound(rows, p, prev.Id());
      FallsBackToShorter(rows, |rows| - 2, prev, w);
    }
  }

  lemma BreakIsNotAnnouncedAgain(watches: seq<Watch>, k: int, previous: seq<Watch>, now: int, prev: Watch, w: Watch)
    requires previous == Shifted(watches, k) && DistinctIdentities(previous)
    requires prev in watches && prev.phase.BoxBreakObserved? && 0 <= w.anchorStart && Translate(prev, k).Id() == w.Id()
    ensures !Announces(previous, now, w)
  {
    assert Translate(Translate(prev, k), -k) == prev;
    ShiftedMembers(watches, k, Translate(prev, k));
    LookupFinds(previous, w.Id(), Translate(prev, k));
  }

  lemma OneStep(history: seq<Row>, p: Parameters, windows: seq<Window>, fed: seq<seq<Watch>>, outs: seq<seq<Watch>>, k: int, w: Watch)
    requires DetectionRun(history, p, windows, fed, outs) && 0 < k < |windows| && w in outs[k]
    ensures 0 <= w.anchorStart && DistinctIdentities(fed[k])
    ensures fed[k] == Shifted(outs[k - 1], windows[k - 1].start - windows[k].start)
  {
    RunStaysSound(history, p, windows, fed, outs, k);
  }

  lemma StaysBroken(history: seq<Row>, p: Parameters, windows: seq<Window>, fed: seq<seq<Watch>>,
                    outs: seq<seq<Watch>>, seen: seq<Watch>, i: int, j: int)
    requires DetectionRun(history, p, windows, fed, outs) && 0 <= i <= j < |windows| == |seen|
    requires forall k :: i <= k <= j ==> seen[k] in outs[k]
    requires forall k :: i <= k <= j ==> Absolute(windows[k], seen[k]).Id() == Absolute(windows[i], seen[i]).Id()
    requires seen[i].phase.BoxBreakObserved?
    ensures seen[j].phase.BoxBreakObserved?
  {
    FrozenThroughRun(history, p, windows, fed, outs, seen, i, j);
  }

  lemma SameSetup(from: Window, to: Window, v: Watch, w: Watch)
    requires Absolute(from, v).Id() == Absolute(to, w).Id()
    ensures Translate(v, from.start - to.start).Id() == w.Id()
  {
  }

  /** A breakout that an earlier candle of a run observed is not announced later, as long as the setup stays observed: a
      missed announcement is never made up for. */
  lemma BreakStaysSilent(history: seq<Row>, p: Parameters, windows: seq<Window>, fed: seq<seq<Watch>>,
                         outs: seq<seq<Watch>>, seen: seq<Watch>, i: int, j: int)
    requires DetectionRun(history, p, windows, fed, outs) && 0 <= i < j < |windows| == |seen|
    requires forall k :: i <= k <= j ==> seen[k] in outs[k]
    requires forall k :: i <= k <= j ==> Absolute(windows[k], seen[k]).Id() == Absolute(windows[i], seen[i]).Id()
    requires seen[i].phase.BoxBreakObserved?
    ensures !Announces(fed[j], windows[j].stop - windows[j].start - 1, seen[j])
  {
    StaysBroken(history, p, windows, fed, outs, seen, i, j - 1);
    OneStep(history, p, windows, fed, outs, j, seen[j]);
    SameSetup(windows[j - 1], windows[j], seen[j - 1], seen[j]);
    BreakIsNotAnnouncedAgain(outs[j - 1], windows[j - 1].start - windows[j].start, fed[j],
                             windows[j].stop - windows[j].start - 1, seen[j - 1], seen[j]);
  }

  // ----- a late breakout -----

  /** The impulse of WatchSlide, a narrow shelf, a bar with a longer wick, a close beyond the narrow shelf only,
      and quiet bars until the shelf is fifteen bars long. */
  function LateAt(i: int): Row {
    if i < 18 then RowAt(i)
    else if i < 22 then Row(20.5, 21.0, 20.0, 20.8)
    else if i == 22 then Row(20.8, 21.8, 20.5, 20.9)
    else if i == 23 then Row(20.9, 21.8, 20.5, 21.5)
    else Row(21.2, 21.8, 20.5, 21.2)
  }

  function LateHistory(): seq<Row> {
    seq(33, i requires 0 <= i < 33 => LateAt(i))
  }

  const Setup := Identity(Short, 14, 17)

  /** The observation on `n` candles: a shelf from the bar after B, up to `boxEnd`. */
  function Observed(n: int, boxEnd: int, boxHigh: real, firstExit: Option<int>): Watch {
    Watch(Short, if firstExit.Some? then BoxBreakObserved else BoxReady, n - 1, 14, 17, 9.0, 22.0, 18, boxEnd, 20.0, boxHigh,
          firstExit, 22.0, Fibonacci(9.0, 22.0, 1.618), Fibonacci(9.0, 22.0, 2.618))
  }

  function Ready(n: int): Watch {
    Observed(n, n - 1, if n == 22 then 21.0 else 21.8, None)
  }

  const Late := Observed(33, 21, 21.0, Some(23))

  /** The first candles of the history, at least up to the narrow shelf. */
  predicate Shown(rows: seq<Row>) {
    22 <= |rows| <= 33 && forall i :: 0 <= i < |rows| ==> rows[i] == LateAt(i)
  }

  lemma ShelfBounds(rows: seq<Row>, hi: int)
    requires Shown(rows) && 22 <= hi <= |rows|
    ensures MinLow(rows, 18, hi) == 20.0
    ensures MaxHigh(rows, 18, hi) == if hi == 22 then 21.0 else 21.8
  {
    var low := MinLowIsALow(rows, 18, hi);
    var high := MaxHighIsAHigh(rows, 18, hi);
    assert rows[18] == LateAt(18) && rows[low] == LateAt(low) && rows[high] == LateAt(high);
    if hi > 22 { assert rows[22] == LateAt(22); }
  }

  lemma ReadyIsCandidate(rows: seq<Row>)
    requires Shown(rows) && |rows| < 33
    ensures Candidate(rows, P, Setup, |rows| - 1) == Some(Ready(|rows|))
  {
    ShelfBounds(rows, |rows|);
    ImpulseQualifies(rows, Ready(|rows|).boxHigh);
    LastBarIsInside(rows);
  }

  lemma LastBarIsInside(rows: seq<Row>)
    requires Shown(rows) && |rows| < 33
    ensures !LastBarBreaksShelf(rows, Short, 18)
  {
    var n := |rows|;
    assert rows[18] == LateAt(18) && rows[n - 1] == LateAt(n - 1);
    if n > 22 { ShelfBounds(rows, n - 1); }
  }

  lemma LateIsCandidate(rows: seq<Row>)
    requires Shown(rows) && |rows| == 33
    ensures Candidate(rows, P, Setup, 21) == Some(Late)
  {
    ShelfBounds(rows, 22);
    ImpulseQualifies(rows, 21.0);
    assert rows[22] == LateAt(22) && rows[23] == LateAt(23);
    assert FirstExit(rows, Short, 20.0, 21.0, 22, 33) == Some(23);
  }

  lemma NoLongerShelfBroke(rows: seq<Row>, e: int)
    requires Shown(rows) && |rows| == 33 && 21 < e < 33
    ensures Candidate(rows, P, Setup, e).None?
  {
    if e < 32 {
      ShelfBounds(rows, e + 1);
      assert forall i :: e < i < 33 ==> rows[i] == LateAt(i);
      SkippedIsNone(rows, P, Setup, e);
    }
  }

  /** What the search finds for the setup on the first `n` candles. */
  function Seen(n: int): Watch {
    if n < 33 then Ready(n) else Late
  }

  lemma FreshOn(rows: seq<Row>)
    requires Shown(rows)
    ensures Fresh(rows, P, Setup) == Some(Seen(|rows|))
  {
    if |rows| < 33 {
      ReadyIsCandidate(rows);
      LatestIs(rows, P, Setup, OldestShelfEnd(rows, P), |rows| - 1);
    } else {
      LateIsCandidate(rows);
      forall e | 21 < e < 33 ensures Candidate(rows, P, Setup, e).None? { NoLongerShelfBroke(rows, e); }
      LatestIs(rows, P, Setup, OldestShelfEnd(rows, P), 21);
    }
  }

  lemma CarriedIsReported(rows: seq<Row>, p: Parameters, previous: seq<Watch>, out: seq<Watch>, prev: Watch)
    requires 0 < |rows| && Searchable(rows, p) && AllSound(rows, |rows| - 2, previous) && Detects(rows, p, previous, out)
    requires prev in previous
    ensures Lookup(out, prev.Id()) == Carry(rows, p, prev, Fresh(rows, p, prev.Id()))
  {
    ByIdIsFaithful(previous);
  }

  /** The next candle adopts what the search finds. */
  lemma AdoptsTheSearch(rows: seq<Row>)
    requires Shown(rows) && 22 < |rows|
    ensures Carry(rows, P, Ready(|rows| - 1), Fresh(rows, P, Setup)) == Fresh(rows, P, Setup)
  {
    FreshOn(rows);
    assert forall i :: 18 <= i < |rows| ==> rows[i] == LateAt(i);
  }

  /** One window per candle from the 22nd on, all starting at the first bar. */
  function Windows(): seq<Window> {
    seq(12, k requires 0 <= k < 12 => Window(0, 22 + k))
  }

  lemma SetupIsFound(rows: seq<Row>, out: seq<Watch>)
    requires Shown(rows) && Detects(rows, P, [], out)
    ensures Lookup(out, Setup) == Some(Seen(|rows|))
  {
    FreshOn(rows);
    ShownIsSearchable(rows);
  }

  lemma ShownIsSearchable(rows: seq<Row>)
    requires Shown(rows)
    ensures Searchable(rows, P)
  {
  }

  lemma SetupIsCarried(rows: seq<Row>, previous: seq<Watch>, out: seq<Watch>)
    requires Shown(rows) && 22 < |rows| && AllSound(rows, |rows| - 2, previous) && Ready(|rows| - 1) in previous
    requires Detects(rows, P, previous, out)
    ensures Lookup(out, Setup) == Some(Seen(|rows|))
  {
    ShownIsSearchable(rows);
    CarriedIsReported(rows, P, previous, out, Ready(|rows| - 1));
    AdoptsTheSearch(rows);
    FreshOn(rows);
  }

  lemma SetupIsFedBack(out: seq<Watch>, w: Watch)
    requires Lookup(out, Setup) == Some(w) && 0 <= w.anchorStart
    ensures w in Shifted(out, 0)
  {
    LookupHasId(out, Setup);
    ShiftedMembers(out, 0, w);
  }

  lemma SetupStep(rows: seq<Row>, prior: seq<Watch>, previous: seq<Watch>, out: seq<Watch>)
    requires Shown(rows) && Detects(rows, P, previous, out)
    requires if |rows| == 22 then previous == []
             else && previous == Shifted(prior, 0) && Lookup(prior, Setup) == Some(Ready(|rows| - 1))
                  && AllSound(rows, |rows| - 2, previous)
    ensures Lookup(out, Setup) == Some(Seen(|rows|))
    ensures |rows| > 22 ==> Ready(|rows| - 1) in previous
  {
    if |rows| == 22 {
      SetupIsFound(rows, out);
    } else {
      SetupIsFedBack(prior, Ready(|rows| - 1));
      SetupIsCarried(rows, previous, out);
    }
  }

  lemma FramesAreShown(k: int)
    requires 0 <= k < 12
    ensures |Windows()| == 12 && Windows()[k] == Window(0, 22 + k)
    ensures var rows := Frame(LateHistory(), Windows()[k]); Shown(rows) && |rows| == 22 + k
  {
  }

  lemma LateStep(fed: seq<seq<Watch>>, outs: seq<seq<Watch>>, k: int)
    requires DetectionRun(LateHistory(), P, Windows(), fed, outs) && 0 <= k < 12
    requires k > 0 ==> Lookup(outs[k - 1], Setup) == Some(Ready(21 + k))
    ensures Lookup(outs[k], Setup) == Some(Seen(22 + k))
    ensures k > 0 ==> Ready(21 + k) in fed[k]
  {
    FramesAreShown(k);
    var rows := Frame(LateHistory(), Windows()[k]);
    StepOfRun(LateHistory(), P, Windows(), fed, outs, k);
    if k > 0 {
      FramesAreShown(k - 1);
      FedBackIsSound(LateHistory(), P, Windows(), fed, outs, k);
    }
    SetupStep(rows, if k > 0 then outs[k - 1] else [], fed[k], outs[k]);
  }

  lemma {:induction false} SetupThroughRun(fed: seq<seq<Watch>>, outs: seq<seq<Watch>>, k: int)
    requires DetectionRun(LateHistory(), P, Windows(), fed, outs) && 0 <= k < 12
    ensures Lookup(outs[k], Setup) == Some(Seen(22 + k))
    ensures k > 0 ==> Ready(21 + k) in fed[k]
    decreases k
  {
    FramesAreShown(0);
    if k > 0 { SetupThroughRun(fed, outs, k - 1); }
    LateStep(fed, outs, k);
  }

  /** Every run over these candles observes the setup on each of them, sees READY until the last one, and only then, nine
      bars late, a breakout it does not announce. */
  lemma LateBreakIsSilent(fed: seq<seq<Watch>>, outs: seq<seq<Watch>>)
    requires DetectionRun(LateHistory(), P, Windows(), fed, outs)
    ensures forall k :: 0 <= k < 11 ==> Lookup(outs[k], Setup) == Some(Ready(22 + k))
    ensures Lookup(outs[11], Setup) == Some(Late) && Late.firstExit == Some(23) && !Announces(fed[11], 32, Late)
  {
    forall k | 0 <= k < 12 ensures Lookup(outs[k], Setup) == Some(Seen(22 + k)) {
      SetupThroughRun(fed, outs, k);
    }
    SetupThroughRun(fed, outs, 11);
    RunStaysSound(LateHistory(), P, Windows(), fed, outs, 11);
    LookupFinds(fed[11], Setup, Ready(32));
  }

  /** And there is such a run. */
  method LateRun() returns (fed: seq<seq<Watch>>, outs: seq<seq<Watch>>)
    ensures DetectionRun(LateHistory(), P, Windows(), fed, outs)
    ensures Lookup(outs[11], Setup) == Some(Late) && !Announces(fed[11], 32, Late)
  {
    fed, outs := DetectThrough(LateHistory(), P, Windows());
    LateBreakIsSilent(fed, outs);
  }
}
