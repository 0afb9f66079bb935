/**
  Runs of the WATCH detector over an append-only candle history. The frame is a
  window that may slide; each step feeds the previous output, translated into
  the new window, back into the detector.
 */
module WatchRun {
  import opened Market
  import opened Wrappers
  import opened IkigaiBox
  import opened IkigaiWatch

  // ----- translation between windows -----

  function Translate(w: Watch, k: int): Watch {
    w.(asOf := w.asOf + k, anchorStart := w.anchorStart + k, anchorEnd := w.anchorEnd + k,
       boxStart := w.boxStart + k, boxEnd := w.boxEnd + k,
       firstExit := if w.firstExit.None? then None else Some(w.firstExit.value + k))
  }

  /** Previous watches in the new window; those whose anchor scrolled out are dropped. */
  function Shifted(previous: seq<Watch>, k: int): seq<Watch> {
    if previous == [] then []
    else
      var last := previous[|previous| - 1];
      var init := Shifted(previous[..|previous| - 1], k);
      if last.anchorStart + k < 0 then init else init + [Translate(last, k)]
  }

  /** A watch is in the shifted state exactly when it is a previous one moved by k, still in the window. */
  lemma {:induction false} ShiftedMembers(previous: seq<Watch>, k: int, w: Watch)
    ensures w in Shifted(previous, k) <==> 0 <= w.anchorStart && Translate(w, -k) in previous
  {
    if previous != [] {
      var init, last := previous[..|previous| - 1], previous[|previous| - 1];
      ShiftedMembers(init, k, w);
      assert previous == init + [last];
      assert w == Translate(last, k) <==> Translate(w, -k) == last;
    }
  }

  method Shift(previous: seq<Watch>, k: int) returns (translated: seq<Watch>)
    ensures translated == Shifted(previous, k)
  {
    translated := [];
    for i := 0 to |previous|
      invariant translated == Shifted(previous[..i], k)
    {
      assert previous[..i + 1][..i] == previous[..i];
      var moved := Translate(previous[i], k);
      if moved.anchorStart >= 0 {
        translated := translated + [moved];
      }
    }
    assert previous[..|previous|] == previous;
  }

  lemma {:induction false} ShiftedIsDistinct(previous: seq<Watch>, k: int)
    requires DistinctIdentities(previous)
    ensures DistinctIdentities(Shifted(previous, k))
  {
    if previous != [] {
      var init, last := previous[..|previous| - 1], previous[|previous| - 1];
      ShiftedIsDistinct(init, k);
      forall w | w in Shifted(init, k) ensures w.Id() != Translate(last, k).Id() {
        ShiftedMembers(init, k, w);
        assert Translate(w, -k).Id() != last.Id();
      }
    }
  }

  /** Bars lo..hi of `rows` reappear `k` positions later in `moved`. */
  ghost predicate SameBars(rows: seq<Row>, moved: seq<Row>, k: int, lo: int, hi: int) {
    && 0 <= lo && 0 <= lo + k && hi <= |rows| && hi + k <= |moved|
    && forall i :: lo <= i < hi ==> moved[i + k] == rows[i]
  }

  lemma {:induction false} MinLowMoves(rows: seq<Row>, moved: seq<Row>, k: int, lo: int, hi: int)
    requires lo < hi && SameBars(rows, moved, k, lo, hi)
    ensures MinLow(moved, lo + k, hi + k) == MinLow(rows, lo, hi)
    decreases hi - lo
  {
    assert moved[lo + k] == rows[lo];
    if lo + 1 < hi {
      MinLowMoves(rows, moved, k, lo + 1, hi);
    }
  }

  lemma {:induction false} MaxHighMoves(rows: seq<Row>, moved: seq<Row>, k: int, lo: int, hi: int)
    requires lo < hi && SameBars(rows, moved, k, lo, hi)
    ensures MaxHigh(moved, lo + k, hi + k) == MaxHigh(rows, lo, hi)
    decreases hi - lo
  {
    assert moved[lo + k] == rows[lo];
    if lo + 1 < hi {
      MaxHighMoves(rows, moved, k, lo + 1, hi);
    }
  }

  lemma {:induction false} FirstExitMoves(rows: seq<Row>, moved: seq<Row>, k: int, d: Direction,
                                          low: real, high: real, lo: int, hi: int)
    requires SameBars(rows, moved, k, lo, hi)
    ensures var e := FirstExit(rows, d, low, high, lo, hi);
            FirstExit(moved, d, low, high, lo + k, hi + k) == if e.None? then None else Some(e.value + k)
    decreases hi - lo
  {
    if lo < hi {
      assert moved[lo + k] == rows[lo];
      FirstExitMoves(rows, moved, k, d, low, high, lo + 1, hi);
    }
  }

  lemma FrozenExtremesMove(rows: seq<Row>, moved: seq<Row>, k: int, first: int, last: int, d: Direction)
    requires 0 <= first < last && SameBars(rows, moved, k, first, last + 1)
    requires FrozenExtremes(rows, first, last, d)
    ensures FrozenExtremes(moved, first + k, last + k, d)
  {
    MinLowMoves(rows, moved, k, first, last + 1);
    MaxHighMoves(rows, moved, k, first, last + 1);
    MinLowMoves(rows, moved, k, first, last);
    MaxHighMoves(rows, moved, k, first, last);
    assert moved[first + k] == rows[first] && moved[last + k] == rows[last];
  }

  lemma ShelfMoves(rows: seq<Row>, moved: seq<Row>, k: int, lo: int, hi: int, stop: int)
    requires lo < hi <= stop && SameBars(rows, moved, k, lo, stop)
    ensures MinLow(moved, lo + k, hi + k) == MinLow(rows, lo, hi)
    ensures MaxHigh(moved, lo + k, hi + k) == MaxHigh(rows, lo, hi)
  {
    MinLowMoves(rows, moved, k, lo, hi);
    MaxHighMoves(rows, moved, k, lo, hi);
  }

  lemma BoxMoves(rows: seq<Row>, moved: seq<Row>, k: int, upto: int, w: Watch)
    requires Boxed(rows, upto, w) && SameBars(rows, moved, k, w.boxStart, upto + 1)
    ensures Boxed(moved, upto + k, Translate(w, k))
  {
    var t := Translate(w, k);
    ShelfMoves(rows, moved, k, w.boxStart, w.boxEnd + 1, upto + 1);
    assert t.boxEnd + 1 == w.boxEnd + 1 + k && t.boxStart == w.boxStart + k;
    ExitMoves(rows, moved, k, upto, w);
  }

  lemma ExitMoves(rows: seq<Row>, moved: seq<Row>, k: int, upto: int, w: Watch)
    requires 0 <= w.boxStart <= w.boxEnd <= upto && SameBars(rows, moved, k, w.boxStart, upto + 1)
    requires w.firstExit == FirstExit(rows, w.direction, w.boxLow, w.boxHigh, w.boxEnd + 1, upto + 1)
    ensures var t := Translate(w, k);
            t.firstExit == FirstExit(moved, t.direction, t.boxLow, t.boxHigh, t.boxEnd + 1, upto + k + 1)
  {
    FirstExitMoves(rows, moved, k, w.direction, w.boxLow, w.boxHigh, w.boxEnd + 1, upto + 1);
    assert w.boxEnd + 1 + k == w.boxEnd + k + 1 && upto + 1 + k == upto + k + 1;
  }

  lemma AnchorsMove(rows: seq<Row>, moved: seq<Row>, k: int, w: Watch)
    requires Anchored(rows, w) && SameBars(rows, moved, k, w.anchorStart, w.anchorEnd + 1)
    ensures Anchored(moved, Translate(w, k))
  {
    FrozenExtremesMove(rows, moved, k, w.anchorStart, w.anchorEnd, w.direction);
    assert moved[w.anchorStart + k] == rows[w.anchorStart] && moved[w.anchorEnd + k] == rows[w.anchorEnd];
  }

  lemma UntouchedMoves(rows: seq<Row>, moved: seq<Row>, k: int, d: Direction, zone: real, lo: int, hi: int)
    requires SameBars(rows, moved, k, lo, hi) && !Touched(rows, d, zone, lo, hi)
    ensures !Touched(moved, d, zone, lo + k, hi + k)
  {
    forall i | lo + k <= i < hi + k ensures !Reaches(moved[i], d, zone) {
      assert moved[i - k + k] == rows[i - k];
    }
  }

  /** A sound observation stays sound in every window that still holds its bars. */
  lemma TranslatedIsSound(rows: seq<Row>, moved: seq<Row>, k: int, upto: int, w: Watch)
    requires Sound(rows, upto, w)
    requires SameBars(rows, moved, k, w.anchorStart, upto + 1)
    ensures Sound(moved, upto + k, Translate(w, k))
  {
    AnchorsMove(rows, moved, k, w);
    BoxMoves(rows, moved, k, upto, w);
    UntouchedMoves(rows, moved, k, w.direction, w.fibonacci1618, w.anchorEnd + 1, upto + 1);
  }

  // ----- one detection step -----

  /** The detector, run on `rows` with this previous state, accepts the state and outputs `out`. */
  ghost predicate Detects(rows: seq<Row>, p: Parameters, previous: seq<Watch>, out: seq<Watch>) {
    if !Searchable(rows, p) || |rows| == 0 then out == []
    else
      && FirstObjection(rows, previous).None?
      && WellPlaced(ById(previous))
      && Reports(rows, p, ById(previous), out)
  }

  ghost predicate AllSound(rows: seq<Row>, upto: int, watches: seq<Watch>) {
    && (forall w :: w in watches ==> Sound(rows, upto, w))
    && DistinctIdentities(watches)
  }

  lemma SoundIsUnobjectionable(rows: seq<Row>, accepted: map<Identity, Watch>, w: Watch)
    requires 0 < |rows| && Sound(rows, |rows| - 2, w) && w.Id() !in accepted
    ensures Objection(rows, accepted, w).None?
  {
  }

  lemma {:induction false} ByIdIsFaithful(previous: seq<Watch>)
    requires DistinctIdentities(previous)
    ensures forall w :: w in previous ==> w.Id() in ById(previous) && ById(previous)[w.Id()] == w
    ensures forall id :: id in ById(previous) ==> ById(previous)[id] in previous && ById(previous)[id].Id() == id
  {
    if previous != [] {
      ByIdIsFaithful(previous[..|previous| - 1]);
    }
  }

  lemma {:induction false} SoundIsAccepted(rows: seq<Row>, previous: seq<Watch>)
    requires 0 < |rows| && AllSound(rows, |rows| - 2, previous)
    ensures FirstObjection(rows, previous).None?
    ensures WellPlaced(ById(previous))
  {
    ByIdIsFaithful(previous);
    if previous != [] {
      var init, last := previous[..|previous| - 1], previous[|previous| - 1];
      SoundIsAccepted(rows, init);
      ByIdIsFaithful(init);
      assert last.Id() !in ById(init) by {
        forall w | w in init ensures w.Id() != last.Id() {}
      }
      SoundIsUnobjectionable(rows, ById(init), last);
    }
  }

  lemma OutputIsSound(rows: seq<Row>, p: Parameters, previous: seq<Watch>, out: seq<Watch>)
    requires 0 < |rows| && AllSound(rows, |rows| - 2, previous)
    requires Detects(rows, p, previous, out)
    ensures AllSound(rows, |rows| - 1, out)
  {
    if Searchable(rows, p) {
      SoundIsAccepted(rows, previous);
      ByIdIsFaithful(previous);
      var prior := ById(previous);
      forall w | w in out ensures Sound(rows, |rows| - 1, w) {
        var id := w.Id();
        LookupFinds(out, id, w);
        if Fresh(rows, p, id).Some? { FreshIsSound(rows, p, id); }
        if id in prior {
          assert prior[id] in previous;
          CarryIsSound(rows, p, prior[id], Fresh(rows, p, id));
        }
      }
    }
  }

  /** The next window of an append-only history: one more closed bar, common bars unchanged. */
  ghost predicate Extends(rows: seq<Row>, next: seq<Row>) {
    var k := |next| - 1 - |rows|;
    && 0 < |rows| && 0 < |next|
    && forall i :: 0 <= i < |rows| && 0 <= i + k ==> next[i + k] == rows[i]
  }

  lemma CarriedIsSound(rows: seq<Row>, next: seq<Row>, w: Watch)
    requires Extends(rows, next) && Sound(rows, |rows| - 1, w) && 0 <= w.anchorStart + (|next| - 1 - |rows|)
    ensures Sound(next, |next| - 2, Translate(w, |next| - 1 - |rows|))
  {
    TranslatedIsSound(rows, next, |next| - 1 - |rows|, |rows| - 1, w);
  }

  lemma ShiftedIsSound(rows: seq<Row>, next: seq<Row>, watches: seq<Watch>)
    requires Extends(rows, next) && AllSound(rows, |rows| - 1, watches)
    ensures AllSound(next, |next| - 2, Shifted(watches, |next| - 1 - |rows|))
  {
    var k := |next| - 1 - |rows|;
    ShiftedIsDistinct(watches, k);
    forall w | w in Shifted(watches, k) ensures Sound(next, |next| - 2, w) {
      ShiftedMembers(watches, k, w);
      CarriedIsSound(rows, next, Translate(w, -k));
    }
  }

  /** Feeding the previous output back is never rejected, and the new output is sound again. */
  lemma StepNeverRejects(rows: seq<Row>, next: seq<Row>, p: Parameters, watches: seq<Watch>, out: seq<Watch>)
    requires Extends(rows, next) && AllSound(rows, |rows| - 1, watches)
    ensures FirstObjection(next, Shifted(watches, |next| - 1 - |rows|)).None?
    ensures Detects(next, p, Shifted(watches, |next| - 1 - |rows|), out) ==> AllSound(next, |next| - 1, out)
  {
    var previous := Shifted(watches, |next| - 1 - |rows|);
    ShiftedIsSound(rows, next, watches);
    SoundIsAccepted(next, previous);
    if Detects(next, p, previous, out) {
      OutputIsSound(next, p, previous, out);
    }
  }

  /** An observed breakout is frozen: while the identity is reported, only the timestamp moves. */
  lemma BreakoutIsFrozen(rows: seq<Row>, p: Parameters, previous: seq<Watch>, out: seq<Watch>, before: Watch, after: Watch)
    requires 0 < |rows| && AllSound(rows, |rows| - 2, previous)
    requires Detects(rows, p, previous, out)
    requires before in previous && before.phase.BoxBreakObserved?
    requires after in out && after.Id() == before.Id()
    ensures after == before.(asOf := |rows| - 1)
  {
    SoundIsAccepted(rows, previous);
    ByIdIsFaithful(previous);
    LookupFinds(out, after.Id(), after);
  }

  /** The two impulse directions can never share both anchors. */
  lemma OneDirectionPerAnchors(rows: seq<Row>, upto: int, v: Watch, w: Watch)
    requires Sound(rows, upto, v) && Sound(rows, upto, w)
    requires v.anchorStart == w.anchorStart && v.anchorEnd == w.anchorEnd
    ensures v.direction == w.direction
  {
  }

  // ----- what is accepted, read off the candles -----

  predicate Placed(rows: seq<Row>, w: Watch) {
    0 <= w.anchorStart < w.anchorEnd < w.boxStart <= w.boxEnd && w.boxEnd + 2 <= |rows|
  }

  /** Anchors and shelf carry the prices of their bars. */
  predicate PricedAs(rows: seq<Row>, w: Watch)
    requires Placed(rows, w)
  {
    && w.anchorStartPrice == (if w.direction.Short? then rows[w.anchorStart].low else rows[w.anchorStart].high)
    && w.anchorEndPrice == (if w.direction.Short? then rows[w.anchorEnd].high else rows[w.anchorEnd].low)
    && (forall i :: w.boxStart <= i <= w.boxEnd ==> w.boxLow <= rows[i].low && rows[i].high <= w.boxHigh)
    && (exists i :: w.boxStart <= i <= w.boxEnd && rows[i].low == w.boxLow)
    && exists i :: w.boxStart <= i <= w.boxEnd && rows[i].high == w.boxHigh
  }

  /** A READY record has no exit, a broken one an exit after its shelf and before the newest candle. */
  predicate PhaseFits(rows: seq<Row>, w: Watch) {
    match w.firstExit
    case None => w.phase.BoxReady?
    case Some(x) => w.phase.BoxBreakObserved? && w.boxEnd < x && x + 2 <= |rows|
  }

  /** A record the detector may be fed: of the previous candle, with its bars' prices and the exit its phase asks for. */
  predicate Fits(rows: seq<Row>, w: Watch) {
    w.asOf + 2 == |rows| && Placed(rows, w) && PricedAs(rows, w) && PhaseFits(rows, w)
  }

  lemma PricesFit(rows: seq<Row>, w: Watch)
    requires Placed(rows, w)
    ensures PricedAs(rows, w) <==>
              && w.anchorStartPrice == AnchorStart(rows[w.anchorStart], w.direction)
              && w.anchorEndPrice == AnchorEnd(rows[w.anchorEnd], w.direction)
              && w.boxLow == MinLow(rows, w.boxStart, w.boxEnd + 1) && w.boxHigh == MaxHigh(rows, w.boxStart, w.boxEnd + 1)
  {
    var low := MinLowIsALow(rows, w.boxStart, w.boxEnd + 1);
    var high := MaxHighIsAHigh(rows, w.boxStart, w.boxEnd + 1);
  }

  /** What is wrong with a record, in the order of the checks; `repeats` if an earlier record has its identity. */
  predicate Faulty(rows: seq<Row>, w: Watch, repeats: bool, e: PriorError) {
    if w.asOf + 2 != |rows| then e == NotPreviousCandle
    else if !Placed(rows, w) then e == InvalidIndices
    else if !PricedAs(rows, w) then e == GeometryMismatch
    else if repeats then e == DuplicateIdentity
    else if PhaseFits(rows, w) then false
    else if w.phase.BoxReady? then e == ReadyWithBreakout
    else e == InvalidBreakoutEvidence
  }

  lemma ObjectionIs(rows: seq<Row>, accepted: map<Identity, Watch>, w: Watch)
    requires 0 < |rows|
    ensures Objection(rows, accepted, w).None? <==> Fits(rows, w) && w.Id() !in accepted
    ensures Objection(rows, accepted, w).Some? ==> Faulty(rows, w, w.Id() in accepted, Objection(rows, accepted, w).value)
  {
    if Placed(rows, w) { PricesFit(rows, w); }
  }

  lemma {:induction false} ListedIds(previous: seq<Watch>, id: Identity)
    ensures id in ById(previous) <==> exists w :: w in previous && w.Id() == id
  {
    if previous != [] {
      ListedIds(previous[..|previous| - 1], id);
      assert previous == previous[..|previous| - 1] + [previous[|previous| - 1]];
    }
  }

  predicate RepeatsEarlier(previous: seq<Watch>, k: int)
    requires 0 <= k < |previous|
  {
    exists i :: 0 <= i < k && previous[i].Id() == previous[k].Id()
  }

  predicate FitsAt(rows: seq<Row>, previous: seq<Watch>, k: int) {
    0 <= k < |previous| && Fits(rows, previous[k]) && !RepeatsEarlier(previous, k)
  }

  predicate FirstFault(rows: seq<Row>, previous: seq<Watch>, k: int, e: PriorError) {
    && 0 <= k < |previous| && Faulty(rows, previous[k], RepeatsEarlier(previous, k), e)
    && forall i :: 0 <= i < k ==> FitsAt(rows, previous, i)
  }

  lemma InPrefix(rows: seq<Row>, previous: seq<Watch>, n: int, i: int)
    requires 0 <= i < n <= |previous|
    ensures RepeatsEarlier(previous[..n], i) <==> RepeatsEarlier(previous, i)
    ensures FitsAt(rows, previous[..n], i) <==> FitsAt(rows, previous, i)
  {
    if j :| 0 <= j < i && previous[j].Id() == previous[i].Id() { assert previous[..n][j].Id() == previous[..n][i].Id(); }
  }

  lemma RepeatsListed(previous: seq<Watch>)
    requires previous != []
    ensures var n := |previous| - 1; RepeatsEarlier(previous, n) <==> previous[n].Id() in ById(previous[..n])
  {
    var n := |previous| - 1;
    var init, id := previous[..n], previous[n].Id();
    ListedIds(init, id);
    if i :| 0 <= i < n && previous[i].Id() == id { assert init[i] in init; }
    if w :| w in init && w.Id() == id {
      var i :| 0 <= i < n && init[i] == w;
      assert previous[i].Id() == id;
    }
  }

  /** A previous output is accepted exactly when every record fits and repeats no earlier identity; a rejection names what
      is wrong with the first record that fails. */
  lemma {:induction false} AcceptedWhenFitting(rows: seq<Row>, previous: seq<Watch>)
    requires 0 < |rows|
    ensures FirstObjection(rows, previous).None? <==> forall k :: 0 <= k < |previous| ==> FitsAt(rows, previous, k)
    ensures FirstObjection(rows, previous).Some? ==> exists k :: FirstFault(rows, previous, k, FirstObjection(rows, previous).value)
  {
    if previous != [] {
      var n := |previous| - 1;
      var init := previous[..n];
      AcceptedWhenFitting(rows, init);
      forall i | 0 <= i < n ensures FitsAt(rows, init, i) <==> FitsAt(rows, previous, i) { InPrefix(rows, previous, n, i); }
      if FirstObjection(rows, init).None? {
        RepeatsListed(previous);
        ObjectionIs(rows, ById(init), previous[n]);
        assert FitsAt(rows, previous, n) <==> FirstObjection(rows, previous).None?;
        if FirstObjection(rows, previous).Some? { assert FirstFault(rows, previous, n, FirstObjection(rows, previous).value); }
      } else {
        FaultInPrefix(rows, previous, n, FirstObjection(rows, init).value);
      }
    }
  }

  lemma FaultInPrefix(rows: seq<Row>, previous: seq<Watch>, n: int, e: PriorError)
    requires 0 <= n <= |previous| && exists k :: FirstFault(rows, previous[..n], k, e)
    ensures exists k :: FirstFault(rows, previous, k, e) && !FitsAt(rows, previous, k)
  {
    var k :| FirstFault(rows, previous[..n], k, e);
    InPrefix(rows, previous, n, k);
    forall i | 0 <= i < k ensures FitsAt(rows, previous, i) { InPrefix(rows, previous, n, i); }
    assert FirstFault(rows, previous, k, e);
  }

  // ----- what an answer holds, read off the candles -----

  /** No bar after B reached the zone frozen with the observation. */
  predicate ZoneIsFree(rows: seq<Row>, w: Watch) {
    forall i :: 0 <= i < |rows| && w.anchorEnd < i ==>
      if w.direction.Short? then rows[i].high < w.fibonacci1618 else w.fibonacci1618 < rows[i].low
  }

  /** No shelf older than the longest second leg is reported, nor one whose zone was reached. */
  lemma AnswerIsRecent(rows: seq<Row>, p: Parameters, previous: seq<Watch>, out: seq<Watch>, w: Watch)
    requires 0 < |rows| && Detects(rows, p, previous, out) && w in out
    ensures |rows| - 1 - w.boxEnd <= p.secondMaxBars
  {
    LookupFinds(out, w.Id(), w);
    var found := Fresh(rows, p, w.Id());
    if found.Some? {
      var e := LatestShelf(rows, p, w.Id(), OldestShelfEnd(rows, p));
      CandidateIsSound(rows, p, w.Id(), e);
    }
  }

  /** A setup that was observed is still reported exactly while its shelf is recent and its zone free. */
  lemma ReportedWhileLive(rows: seq<Row>, p: Parameters, previous: seq<Watch>, out: seq<Watch>, prev: Watch)
    requires 0 < |rows| && Searchable(rows, p) && Detects(rows, p, previous, out) && prev in previous
    ensures (exists w :: w in out && w.Id() == prev.Id()) <==>
            |rows| - 1 - prev.boxEnd <= p.secondMaxBars && ZoneIsFree(rows, prev)
  {
    AcceptedIsWellPlaced(rows, previous);
    LookupHasId(out, prev.Id());
    LiveIsCarried(rows, p, prev, Fresh(rows, p, prev.Id()));
    if w :| w in out && w.Id() == prev.Id() {
      LookupFinds(out, prev.Id(), w);
    }
  }

  lemma LiveIsCarried(rows: seq<Row>, p: Parameters, prev: Watch, now: Option<Watch>)
    requires 0 < |rows| && 0 <= prev.anchorEnd
    ensures Carry(rows, p, prev, now).Some? <==> |rows| - 1 - prev.boxEnd <= p.secondMaxBars && ZoneIsFree(rows, prev)
  {
    if ZoneIsFree(rows, prev) {
      assert !Touched(rows, prev.direction, prev.fibonacci1618, prev.anchorEnd + 1, |rows|);
    } else {
      var i :| 0 <= i < |rows| && prev.anchorEnd < i
               && !(if prev.direction.Short? then rows[i].high < prev.fibonacci1618 else prev.fibonacci1618 < rows[i].low);
      assert Reaches(rows[i], prev.direction, prev.fibonacci1618);
    }
  }

  /** Some shelf of this setup, no older than the longest second leg, yields this observation, and no later one any. */
  ghost predicate LatestFound(rows: seq<Row>, p: Parameters, id: Identity, w: Watch) {
    exists e ::
      && |rows| - 1 - p.secondMaxBars <= e < |rows| && 0 <= e && Candidate(rows, p, id, e) == Some(w)
      && forall later :: e < later < |rows| ==> Candidate(rows, p, id, later).None?
  }

  ghost predicate NothingFound(rows: seq<Row>, p: Parameters, id: Identity) {
    forall e :: |rows| - 1 - p.secondMaxBars <= e < |rows| && 0 <= e ==> Candidate(rows, p, id, e).None?
  }

  lemma FreshIsLatest(rows: seq<Row>, p: Parameters, id: Identity)
    ensures Fresh(rows, p, id).Some? ==> LatestFound(rows, p, id, Fresh(rows, p, id).value)
    ensures Fresh(rows, p, id).None? ==> NothingFound(rows, p, id)
  {
    if Fresh(rows, p, id).Some? {
      var e := LatestShelf(rows, p, id, OldestShelfEnd(rows, p));
    } else {
      NoLaterCandidate(rows, p, id, OldestShelfEnd(rows, p));
    }
  }

  /** The newest candle closes out of the observed shelf on the impulse side. */
  predicate LeavesNow(rows: seq<Row>, prev: Watch)
    requires 0 < |rows|
  {
    if prev.direction.Short? then prev.boxHigh < rows[|rows| - 1].close else rows[|rows| - 1].close < prev.boxLow
  }

  /** What becomes of an observed setup: a breakout is kept, a READY shelf breaks by the newest close alone, and otherwise
      gives way to the latest shelf found, if any. */
  lemma WhatBecomesOf(rows: seq<Row>, p: Parameters, previous: seq<Watch>, out: seq<Watch>, prev: Watch, w: Watch)
    requires 0 < |rows| && Detects(rows, p, previous, out) && prev in previous && w in out && w.Id() == prev.Id()
    ensures prev.phase.BoxBreakObserved? ==> w == prev.(asOf := |rows| - 1)
    ensures prev.phase.BoxReady? && LeavesNow(rows, prev) ==>
              w == prev.(phase := BoxBreakObserved, asOf := |rows| - 1, firstExit := Some(|rows| - 1))
    ensures prev.phase.BoxReady? && !LeavesNow(rows, prev) ==>
              || LatestFound(rows, p, prev.Id(), w)
              || (NothingFound(rows, p, prev.Id()) && w == prev.(asOf := |rows| - 1))
  {
    AcceptedIsWellPlaced(rows, previous);
    LookupFinds(out, w.Id(), w);
    FreshIsLatest(rows, p, prev.Id());
  }

  /** A setup not observed before is reported exactly when the search finds it, as its latest shelf. */
  lemma NewIsFound(rows: seq<Row>, p: Parameters, previous: seq<Watch>, out: seq<Watch>, id: Identity)
    requires 0 < |rows| && Searchable(rows, p) && Detects(rows, p, previous, out)
    requires forall prev :: prev in previous ==> prev.Id() != id
    ensures forall w :: w in out && w.Id() == id ==> LatestFound(rows, p, id, w)
    ensures (forall w :: w in out ==> w.Id() != id) ==> NothingFound(rows, p, id)
  {
    AcceptedIsWellPlaced(rows, previous);
    FreshIsLatest(rows, p, id);
    LookupHasId(out, id);
    forall w | w in out && w.Id() == id ensures LatestFound(rows, p, id, w) {
      LookupFinds(out, id, w);
    }
  }

  /** Observed before, and broken then or now. */
  predicate CarriedBreak(rows: seq<Row>, previous: seq<Watch>, w: Watch)
    requires 0 < |rows|
  {
    exists prev :: prev in previous && prev.Id() == w.Id() && (prev.phase.BoxBreakObserved? || LeavesNow(rows, prev))
  }

  function Bars(w: Watch): int {
    w.boxEnd - w.boxStart + 1
  }

  lemma RankOfReport(rows: seq<Row>, p: Parameters, previous: seq<Watch>, out: seq<Watch>, w: Watch)
    requires 0 < |rows| && Detects(rows, p, previous, out) && WellPlaced(ById(previous)) && w in out
    ensures DetectedRank(rows, p, ById(previous), w) ==
              if CarriedBreak(rows, previous, w) then Rank(|rows| - 1, 0, 0)
              else if NothingFound(rows, p, w.Id()) then Rank(w.boxEnd, 0, 0)
              else Rank(w.boxEnd, Bars(w), if w.phase.BoxBreakObserved? then 1 else 0)
    ensures !CarriedBreak(rows, previous, w) && !NothingFound(rows, p, w.Id()) ==> 0 < Bars(w)
  {
    var id := w.Id();
    AcceptedIsWellPlaced(rows, previous);
    LookupFinds(out, id, w);
    FreshIsLatest(rows, p, id);
    if Fresh(rows, p, id).Some? { FoundRank(rows, p, id); }
    if id in ById(previous) {
      CarriedRank(rows, p, ById(previous)[id], Fresh(rows, p, id), w);
    } else {
      assert forall prev :: prev in previous ==> prev.Id() != id;
    }
  }

  lemma FoundRank(rows: seq<Row>, p: Parameters, id: Identity)
    requires Fresh(rows, p, id).Some?
    ensures var w := Fresh(rows, p, id).value;
            FreshRank(w) == Rank(w.boxEnd, Bars(w), if w.phase.BoxBreakObserved? then 1 else 0) && 0 < Bars(w)
  {
    FreshIsSound(rows, p, id);
  }

  lemma CarriedRank(rows: seq<Row>, p: Parameters, prev: Watch, now: Option<Watch>, w: Watch)
    requires 0 < |rows| && 0 <= prev.anchorEnd && Carry(rows, p, prev, now) == Some(w)
    ensures CarryRank(rows, prev, now) ==
              if prev.phase.BoxBreakObserved? || LeavesNow(rows, prev) then Rank(|rows| - 1, 0, 0)
              else if now.None? then Rank(w.boxEnd, 0, 0) else FreshRank(w)
    ensures !(prev.phase.BoxBreakObserved? || LeavesNow(rows, prev)) && now.Some? ==> now == Some(w)
  {
  }

  /** The order of an answer: later shelves first, breakouts observed before among those of the newest candle; at one shelf
      end the longer shelf found now, then the broken one, and records merely kept behind them. */
  lemma AnswerIsOrdered(rows: seq<Row>, p: Parameters, previous: seq<Watch>, out: seq<Watch>, i: int, j: int)
    requires 0 < |rows| && Detects(rows, p, previous, out) && WellPlaced(ById(previous)) && ByRank(rows, p, ById(previous), out)
    requires 0 <= i < j < |out|
    ensures CarriedBreak(rows, previous, out[j]) ==> CarriedBreak(rows, previous, out[i]) || |rows| - 1 <= out[i].boxEnd
    ensures !CarriedBreak(rows, previous, out[i]) && !CarriedBreak(rows, previous, out[j]) ==> out[j].boxEnd <= out[i].boxEnd
    ensures !CarriedBreak(rows, previous, out[i]) && !CarriedBreak(rows, previous, out[j]) && out[i].boxEnd == out[j].boxEnd
            && !NothingFound(rows, p, out[j].Id()) ==>
              && !NothingFound(rows, p, out[i].Id()) && Bars(out[j]) <= Bars(out[i])
              && (Bars(out[j]) == Bars(out[i]) && out[j].phase.BoxBreakObserved? ==> out[i].phase.BoxBreakObserved?)
  {
    RankOfReport(rows, p, previous, out, out[i]);
    RankOfReport(rows, p, previous, out, out[j]);
  }

  // ----- whole runs over one history -----

  datatype Window = Window(start: int, stop: int)

  /** Each window ends one bar later than the one before; its start may move either way. */
  ghost predicate WindowsAdvance(history: seq<Row>, windows: seq<Window>) {
    forall k :: 0 <= k < |windows| ==>
      0 <= windows[k].start < windows[k].stop <= |history| && windows[k].stop == windows[0].stop + k
  }

  function Frame(history: seq<Row>, w: Window): seq<Row>
    requires 0 <= w.start < w.stop <= |history|
  {
    history[w.start..w.stop]
  }

  /** fed[k] is the previous output in the coordinates of window k; outs[k] what the detector makes of it. */
  ghost predicate DetectionRun(history: seq<Row>, p: Parameters, windows: seq<Window>,
                               fed: seq<seq<Watch>>, outs: seq<seq<Watch>>) {
    && WindowsAdvance(history, windows)
    && |fed| == |outs| == |windows|
    && (|windows| > 0 ==> fed[0] == [])
    && (forall j, k :: 0 <= j < |outs| && 0 <= k < |fed| && k == j + 1 ==>
          fed[k] == Shifted(outs[j], windows[j].start - windows[k].start))
    && forall k :: 0 <= k < |windows| ==> Detects(Frame(history, windows[k]), p, fed[k], outs[k])
  }

  lemma NextFrameExtends(history: seq<Row>, windows: seq<Window>, k: int)
    requires WindowsAdvance(history, windows) && 0 <= k < |windows| - 1
    ensures var rows, next := Frame(history, windows[k]), Frame(history, windows[k + 1]);
            Extends(rows, next) && |next| - 1 - |rows| == windows[k].start - windows[k + 1].start
  {
  }

  lemma StepIsSound(rows: seq<Row>, next: seq<Row>, p: Parameters,
                    prior: seq<Watch>, fed: seq<Watch>, out: seq<Watch>)
    requires Extends(rows, next) && AllSound(rows, |rows| - 1, prior)
    requires fed == Shifted(prior, |next| - 1 - |rows|) && Detects(next, p, fed, out)
    ensures AllSound(next, |next| - 2, fed) && AllSound(next, |next| - 1, out)
  {
    ShiftedIsSound(rows, next, prior);
    OutputIsSound(next, p, fed, out);
  }

  /** One step of a run, apart from the others. */
  lemma StepOfRun(history: seq<Row>, p: Parameters, windows: seq<Window>,
                  fed: seq<seq<Watch>>, outs: seq<seq<Watch>>, k: int)
    requires DetectionRun(history, p, windows, fed, outs) && 0 <= k < |windows|
    ensures Detects(Frame(history, windows[k]), p, fed[k], outs[k])
    ensures k == 0 ==> fed[k] == []
    ensures k > 0 ==> fed[k] == Shifted(outs[k - 1], windows[k - 1].start - windows[k].start)
  {
  }

  /** Every fed-back state and every output of a run is sound for its frame. */
  lemma {:induction false} RunStaysSound(history: seq<Row>, p: Parameters, windows: seq<Window>,
    fed: seq<seq<Watch>>, outs: seq<seq<Watch>>, k: int)
    requires DetectionRun(history, p, windows, fed, outs) && 0 <= k < |windows|
    ensures var rows := Frame(history, windows[k]);
            AllSound(rows, |rows| - 2, fed[k]) && AllSound(rows, |rows| - 1, outs[k])
    decreases k
  {
    if k > 0 { RunStaysSound(history, p, windows, fed, outs, k - 1); }
    StepOfRun(history, p, windows, fed, outs, k);
    StepFrom(history, p, windows, k, if k > 0 then outs[k - 1] else [], fed[k], outs[k]);
  }

  lemma StepFrom(history: seq<Row>, p: Parameters, windows: seq<Window>, k: int,
                 prior: seq<Watch>, fed: seq<Watch>, out: seq<Watch>)
    requires WindowsAdvance(history, windows) && 0 <= k < |windows|
    requires Detects(Frame(history, windows[k]), p, fed, out)
    requires k == 0 ==> fed == []
    requires k > 0 ==> fed == Shifted(prior, windows[k - 1].start - windows[k].start)
    requires k > 0 ==> var last := Frame(history, windows[k - 1]); AllSound(last, |last| - 1, prior)
    ensures var rows := Frame(history, windows[k]);
            AllSound(rows, |rows| - 2, fed) && AllSound(rows, |rows| - 1, out)
  {
    var rows := Frame(history, windows[k]);
    if k == 0 {
      OutputIsSound(rows, p, [], out);
    } else {
      NextFrameExtends(history, windows, k - 1);
      StepIsSound(Frame(history, windows[k - 1]), rows, p, prior, fed, out);
    }
  }

  // ----- runs whose steps may reject -----

  /** What one call of the detector may answer: an output, or the first objection to the previous state. */
  ghost predicate Answers(rows: seq<Row>, p: Parameters, previous: seq<Watch>, r: Result<seq<Watch>, PriorError>) {
    match r
    case Success(out) => Detects(rows, p, previous, out)
    case Failure(e) => Searchable(rows, p) && 0 < |rows| && FirstObjection(rows, previous) == Some(e)
  }

  method Answer(rows: seq<Row>, p: Parameters, previous: seq<Watch>) returns (r: Result<seq<Watch>, PriorError>)
    requires ValidParameters(p)
    ensures Answers(rows, p, previous, r)
  {
    r := DetectWatches(rows, p, previous);
  }

  /** The detector called on window after window, each time with its own last output. Every call may be rejected,
      and after a rejection anything may be fed. */
  ghost predicate AttemptedRun(history: seq<Row>, p: Parameters, windows: seq<Window>,
                               fed: seq<seq<Watch>>, answers: seq<Result<seq<Watch>, PriorError>>) {
    && WindowsAdvance(history, windows)
    && |fed| == |answers| == |windows|
    && (|windows| > 0 ==> fed[0] == [])
    && (forall j, k :: 0 <= j < |answers| && 0 <= k < |fed| && k == j + 1 && answers[j].Success? ==>
          fed[k] == Shifted(answers[j].value, windows[j].start - windows[k].start))
    && forall k :: 0 <= k < |windows| ==> Answers(Frame(history, windows[k]), p, fed[k], answers[k])
  }

  lemma FirstAnswer(rows: seq<Row>, p: Parameters, r: Result<seq<Watch>, PriorError>)
    requires 0 < |rows| && Answers(rows, p, [], r)
    ensures r.Success? && AllSound(rows, |rows| - 1, r.value)
  {
    assert FirstObjection(rows, []).None?;
    OutputIsSound(rows, p, [], r.value);
  }

  lemma NextAnswer(rows: seq<Row>, next: seq<Row>, p: Parameters, prior: seq<Watch>, fed: seq<Watch>,
                   r: Result<seq<Watch>, PriorError>)
    requires Extends(rows, next) && AllSound(rows, |rows| - 1, prior)
    requires fed == Shifted(prior, |next| - 1 - |rows|) && Answers(next, p, fed, r)
    ensures r.Success? && AllSound(next, |next| - 1, r.value)
  {
    StepNeverRejects(rows, next, p, prior, if r.Success? then r.value else []);
  }

  /** No call of such a run is rejected: whatever the detector returns passes its own validation on the next
      candle, in whatever window it is fed back. */
  lemma {:induction false} RunNeverRejects(history: seq<Row>, p: Parameters, windows: seq<Window>,
    fed: seq<seq<Watch>>, answers: seq<Result<seq<Watch>, PriorError>>, k: int)
    requires AttemptedRun(history, p, windows, fed, answers) && 0 <= k < |windows|
    ensures answers[k].Success?
    ensures var rows := Frame(history, windows[k]); AllSound(rows, |rows| - 1, answers[k].value)
    decreases k
  {
    var rows := Frame(history, windows[k]);
    assert Answers(rows, p, fed[k], answers[k]);
    if k == 0 {
      FirstAnswer(rows, p, answers[0]);
    } else {
      RunNeverRejects(history, p, windows, fed, answers, k - 1);
      NextFrameExtends(history, windows, k - 1);
      NextAnswer(Frame(history, windows[k - 1]), rows, p, answers[k - 1].value, fed[k], answers[k]);
    }
  }

  function Outputs(answers: seq<Result<seq<Watch>, PriorError>>): seq<seq<Watch>> {
    seq(|answers|, k requires 0 <= k < |answers| => if answers[k].Success? then answers[k].value else [])
  }

  /** So the runs studied here are all the runs there are. */
  lemma AttemptsAreDetections(history: seq<Row>, p: Parameters, windows: seq<Window>,
                              fed: seq<seq<Watch>>, answers: seq<Result<seq<Watch>, PriorError>>)
    requires AttemptedRun(history, p, windows, fed, answers)
    ensures DetectionRun(history, p, windows, fed, Outputs(answers))
  {
    forall k | 0 <= k < |windows| ensures answers[k].Success? {
      RunNeverRejects(history, p, windows, fed, answers, k);
    }
  }

  /** Every sequence of windows has a run: the detector called on each of them in turn. */
  method DetectThrough(history: seq<Row>, p: Parameters, windows: seq<Window>)
    returns (fed: seq<seq<Watch>>, outs: seq<seq<Watch>>)
    requires ValidParameters(p) && WindowsAdvance(history, windows)
    ensures DetectionRun(history, p, windows, fed, outs)
  {
    var answers: seq<Result<seq<Watch>, PriorError>>;
    ghost var allowed := (rows: seq<Row>, previous: seq<Watch>, r: Result<seq<Watch>, PriorError>) => Answers(rows, p, previous, r);
    fed, answers := AnswerThrough(history, p, windows, allowed);
    forall k | 0 <= k < |windows| ensures Answers(Frame(history, windows[k]), p, fed[k], answers[k]) {
      assert allowed(Frame(history, windows[k]), fed[k], answers[k]);
    }
    AttemptsAreDetections(history, p, windows, fed, answers);
    outs := Outputs(answers);
  }

  method AnswerThrough(history: seq<Row>, p: Parameters, windows: seq<Window>,
                       ghost allowed: (seq<Row>, seq<Watch>, Result<seq<Watch>, PriorError>) -> bool)
    returns (fed: seq<seq<Watch>>, answers: seq<Result<seq<Watch>, PriorError>>)
    requires ValidParameters(p) && WindowsAdvance(history, windows)
    requires forall rows, previous, r {:trigger Answers(rows, p, previous, r)} ::
               Answers(rows, p, previous, r) ==> allowed(rows, previous, r)
    ensures |fed| == |answers| == |windows| && (|windows| > 0 ==> fed[0] == [])
    ensures forall j, k :: 0 <= j < |answers| && 0 <= k < |fed| && k == j + 1 && answers[j].Success? ==>
              fed[k] == Shifted(answers[j].value, windows[j].start - windows[k].start)
    ensures forall k :: 0 <= k < |windows| ==> allowed(Frame(history, windows[k]), fed[k], answers[k])
  {
    fed, answers := [], [];
    for n := 0 to |windows|
      invariant |fed| == |answers| == n
      invariant n > 0 ==> fed[0] == []
      invariant forall j, k :: 0 <= j < |answers| && 0 <= k < |fed| && k == j + 1 && answers[j].Success? ==>
        fed[k] == Shifted(answers[j].value, windows[j].start - windows[k].start)
      invariant forall k :: 0 <= k < n ==> allowed(Frame(history, windows[k]), fed[k], answers[k])
    {
      var previous: seq<Watch> := [];
      if n > 0 && answers[n - 1].Success? {
        previous := Shift(answers[n - 1].value, windows[n - 1].start - windows[n].start);
      }
      var r := Answer(Frame(history, windows[n]), p, previous);
      fed, answers := fed + [previous], answers + [r];
    }
  }

  /** A watch in history positions instead of window positions. */
  function Absolute(window: Window, w: Watch): Watch {
    Translate(w, window.start)
  }

  lemma FrozenAcross(next: seq<Row>, p: Parameters, watches: seq<Watch>, k: int, previous: seq<Watch>,
                     out: seq<Watch>, v: Watch, w: Watch)
    requires 0 < |next| && previous == Shifted(watches, k) && AllSound(next, |next| - 2, previous)
    requires Detects(next, p, previous, out)
    requires v in watches && v.phase.BoxBreakObserved?
    requires w in out && w.Id() == Translate(v, k).Id()
    ensures w == Translate(v, k).(asOf := |next| - 1)
  {
    OutputIsSound(next, p, previous, out);
    assert Sound(next, |next| - 1, w);
    ShiftedMembers(watches, k, Translate(v, k));
    assert Translate(Translate(v, k), -k) == v;
    BreakoutIsFrozen(next, p, previous, out, Translate(v, k), w);
  }

  lemma FedBackIsSound(history: seq<Row>, p: Parameters, windows: seq<Window>,
    fed: seq<seq<Watch>>, outs: seq<seq<Watch>>, k: int)
    requires DetectionRun(history, p, windows, fed, outs) && 0 <= k < |windows|
    ensures AllSound(Frame(history, windows[k]), windows[k].stop - windows[k].start - 2, fed[k])
  {
    RunStaysSound(history, p, windows, fed, outs, k);
  }

  /** The frozen record, read off one step of a run. */
  lemma FrozenOneStep(history: seq<Row>, p: Parameters, windows: seq<Window>,
    fed: seq<seq<Watch>>, outs: seq<seq<Watch>>, j: int, k: int, v: Watch, w: Watch)
    requires DetectionRun(history, p, windows, fed, outs) && 0 <= j < |windows| - 1 && k == j + 1
    requires v in outs[j] && v.phase.BoxBreakObserved? && w in outs[k]
    requires Absolute(windows[j], v).Id() == Absolute(windows[k], w).Id()
    ensures w == Translate(v, windows[j].start - windows[k].start).(asOf := windows[k].stop - windows[k].start - 1)
  {
    FedBackIsSound(history, p, windows, fed, outs, k);
    FrozenAcross(Frame(history, windows[k]), p, outs[j], windows[j].start - windows[k].start, fed[k], outs[k], v, w);
  }

  /** While an identity stays in consecutive outputs, its frozen box and exit bar never change. */
  lemma {:induction false} FrozenThroughRun(history: seq<Row>, p: Parameters, windows: seq<Window>,
    fed: seq<seq<Watch>>, outs: seq<seq<Watch>>, seen: seq<Watch>, i: int, j: int)
    requires DetectionRun(history, p, windows, fed, outs) && 0 <= i <= j < |windows| == |seen|
    requires forall k :: i <= k <= j ==> seen[k] in outs[k]
    requires forall k :: i <= k <= j ==> Absolute(windows[k], seen[k]).Id() == Absolute(windows[i], seen[i]).Id()
    requires seen[i].phase.BoxBreakObserved?
    ensures Absolute(windows[j], seen[j]) == Absolute(windows[i], seen[i]).(asOf := windows[j].stop - 1)
    decreases j
  {
    if i < j {
      FrozenThroughRun(history, p, windows, fed, outs, seen, i, j - 1);
      FrozenOneStep(history, p, windows, fed, outs, j - 1, j, seen[j - 1], seen[j]);
    } else {
      RunStaysSound(history, p, windows, fed, outs, i);
    }
  }

  /** The zone of an (A, B) pair of the history was reached by some bar after B and before `stop`. */
  ghost predicate ZoneTouched(history: seq<Row>, id: Identity, stop: int)
    requires 0 <= id.start < id.end < |history| && stop <= |history|
  {
    var zone := Fibonacci(AnchorStart(history[id.start], id.direction), AnchorEnd(history[id.end], id.direction), 1.618);
    Touched(history, id.direction, zone, id.end + 1, stop)
  }

  lemma SoundIsUntouched(history: seq<Row>, window: Window, w: Watch)
    requires 0 <= window.start < window.stop <= |history|
    requires Sound(Frame(history, window), window.stop - window.start - 1, w)
    ensures var id := Absolute(window, w).Id();
            0 <= id.start < id.end < |history| && !ZoneTouched(history, id, window.stop)
  {
  }

  /** Once the zone was touched, no later output of the run reports that identity again. */
  lemma TouchedNeverReturns(history: seq<Row>, p: Parameters, windows: seq<Window>,
    fed: seq<seq<Watch>>, outs: seq<seq<Watch>>, k: int, j: int, id: Identity)
    requires DetectionRun(history, p, windows, fed, outs) && 0 <= k <= j < |windows|
    requires 0 <= id.start < id.end < windows[k].stop && ZoneTouched(history, id, windows[k].stop)
    ensures forall w :: w in outs[j] ==> Absolute(windows[j], w).Id() != id
  {
    RunStaysSound(history, p, windows, fed, outs, j);
    forall w | w in outs[j] ensures Absolute(windows[j], w).Id() != id {
      SoundIsUntouched(history, windows[j], w);
    }
  }

  /** Over a whole run nothing is reported whose shelf ended more than the longest second leg ago. */
  lemma RunIsRecent(history: seq<Row>, p: Parameters, windows: seq<Window>,
    fed: seq<seq<Watch>>, outs: seq<seq<Watch>>, k: int, w: Watch)
    requires DetectionRun(history, p, windows, fed, outs) && 0 <= k < |windows| && w in outs[k]
    ensures windows[k].stop - 1 - Absolute(windows[k], w).boxEnd <= p.secondMaxBars
  {
    StepOfRun(history, p, windows, fed, outs, k);
    AnswerIsRecent(Frame(history, windows[k]), p, fed[k], outs[k], w);
  }

  /** And a setup still inside the window stays reported on the next candle exactly while its shelf is recent and its
      zone free. */
  lemma RunReportsWhileLive(history: seq<Row>, p: Parameters, windows: seq<Window>,
    fed: seq<seq<Watch>>, outs: seq<seq<Watch>>, j: int, k: int, v: Watch)
    requires DetectionRun(history, p, windows, fed, outs) && 0 <= j < |windows| - 1 && k == j + 1
    requires v in outs[j] && windows[k].start <= Absolute(windows[j], v).anchorStart
    requires Searchable(Frame(history, windows[k]), p)
    ensures (exists w :: w in outs[k] && Absolute(windows[k], w).Id() == Absolute(windows[j], v).Id()) <==>
            && windows[k].stop - 1 - Absolute(windows[j], v).boxEnd <= p.secondMaxBars
            && ZoneIsFree(history[..windows[k].stop], Absolute(windows[j], v))
  {
    var shift, rows := windows[j].start - windows[k].start, Frame(history, windows[k]);
    var moved := Translate(v, shift);
    StepOfRun(history, p, windows, fed, outs, k);
    assert Translate(moved, -shift) == v;
    ShiftedMembers(outs[j], shift, moved);
    ReportedWhileLive(rows, p, fed[k], outs[k], moved);
    AnchorsAreOrdered(history, p, windows, fed, outs, j, v);
    ZoneInHistory(history, windows[k], moved, Absolute(windows[j], v));
    SameReport(windows[j], windows[k], v, outs[k]);
  }

  lemma AnchorsAreOrdered(history: seq<Row>, p: Parameters, windows: seq<Window>,
    fed: seq<seq<Watch>>, outs: seq<seq<Watch>>, j: int, v: Watch)
    requires DetectionRun(history, p, windows, fed, outs) && 0 <= j < |windows| && v in outs[j]
    ensures v.anchorStart < v.anchorEnd
  {
    RunStaysSound(history, p, windows, fed, outs, j);
  }

  lemma ZoneInHistory(history: seq<Row>, window: Window, moved: Watch, absolute: Watch)
    requires 0 <= window.start < window.stop <= |history| && 0 <= moved.anchorStart
    requires absolute.anchorEnd == moved.anchorEnd + window.start && 0 <= moved.anchorEnd
    requires absolute.direction == moved.direction && absolute.fibonacci1618 == moved.fibonacci1618
    ensures ZoneIsFree(Frame(history, window), moved) <==> ZoneIsFree(history[..window.stop], absolute)
  {
    var rows, all := Frame(history, window), history[..window.stop];
    if ZoneIsFree(rows, moved) {
      forall i | 0 <= i < |all| && absolute.anchorEnd < i
        ensures if absolute.direction.Short? then all[i].high < absolute.fibonacci1618 else absolute.fibonacci1618 < all[i].low
      {
        assert all[i] == rows[i - window.start];
      }
    } else {
      var i :| 0 <= i < |rows| && moved.anchorEnd < i
               && !(if moved.direction.Short? then rows[i].high < moved.fibonacci1618 else moved.fibonacci1618 < rows[i].low);
      assert rows[i] == all[i + window.start];
    }
  }

  lemma SameReport(from: Window, to: Window, v: Watch, out: seq<Watch>)
    ensures (exists w :: w in out && w.Id() == Translate(v, from.start - to.start).Id()) <==>
            (exists w :: w in out && Absolute(to, w).Id() == Absolute(from, v).Id())
  {
    forall w: Watch ensures w.Id() == Translate(v, from.start - to.start).Id() <==> Absolute(to, w).Id() == Absolute(from, v).Id() {}
  }
}
