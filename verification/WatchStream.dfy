/**
  The process-local WATCH cursor: one slot per (symbol, timeframe), advanced by
  polls. A poll sees the candles of the moment, the last of which is still
  forming; whether the message service accepts a card is the poll's `accepted`.
 */
module WatchStream {
  import opened Market
  import opened Wrappers
  import opened IkigaiBox
  import opened IkigaiWatch
  import opened WatchRun

  datatype Bar = Bar(time: int, row: Row)

  datatype Cursor = Cursor(time: int, lastOhlc: Row, endIndex: int, watches: seq<Watch>, pending: Option<Watch>)

  datatype Outcome = Quiet | Attempted(card: Watch, delivered: bool)

  const MINUTE_MS := 60_000

  /** The closed bars of a poll, if they are equally spaced by the timeframe. */
  function ClosedFrame(candles: seq<Bar>, minutes: int): Option<seq<Bar>> {
    if |candles| < 2 || minutes <= 0 then None
    else
      var closed := candles[..|candles| - 1];
      if forall i :: 0 <= i < |closed| - 1 ==> closed[i + 1].time - closed[i].time == minutes * MINUTE_MS
      then Some(closed) else None
  }

  function Rows(bars: seq<Bar>): seq<Row> {
    seq(|bars|, i requires 0 <= i < |bars| => bars[i].row)
  }

  /** The card to announce for the first time: a new shelf on the newest bar, or its first breakout there. */
  predicate Announces(previous: seq<Watch>, now: int, w: Watch) {
    var before := Lookup(previous, w.Id());
    || (before.None? && w.phase.BoxReady? && w.boxEnd == now)
    || (before.Some? && before.value.phase.BoxReady? && w.phase.BoxBreakObserved? && w.firstExit == Some(now))
  }

  predicate AnchorsBefore(v: Watch, w: Watch) {
    v.anchorEnd < w.anchorEnd || (v.anchorEnd == w.anchorEnd && v.anchorStart < w.anchorStart)
  }

  /** The announced watch with the latest anchors, if any. */
  ghost predicate IsNewest(previous: seq<Watch>, current: seq<Watch>, now: int, choice: Option<Watch>) {
    match choice
    case None => forall w :: w in current ==> !Announces(previous, now, w)
    case Some(c) => c in current && Announces(previous, now, c)
                    && forall w :: w in current && Announces(previous, now, w) && w != c ==> AnchorsBefore(w, c)
  }

  method NewestAnnounced(rows: seq<Row>, previous: seq<Watch>, current: seq<Watch>)
    returns (choice: Option<Watch>)
    requires AllSound(rows, |rows| - 1, current)
    ensures IsNewest(previous, current, |rows| - 1, choice)
  {
    var now := |rows| - 1;
    choice := None;
    for i := 0 to |current|
      invariant IsNewest(previous, current[..i], now, choice)
    {
      assert current[..i + 1] == current[..i] + [current[i]];
      if Announces(previous, now, current[i]) {
        if choice.None? || AnchorsBefore(choice.value, current[i]) {
          choice := Some(current[i]);
        } else if !AnchorsBefore(current[i], choice.value) {
          OneDirectionPerAnchors(rows, |rows| - 1, choice.value, current[i]);
        }
      }
    }
    assert current[..|current|] == current;
  }

  /** The card chosen on a new candle. A card still pending is looked up under the identity
      it had in the previous window. */
  ghost predicate Chooses(pending: Option<Watch>, previous: seq<Watch>, current: seq<Watch>, now: int, choice: Option<Watch>) {
    if pending.Some? then choice == Lookup(current, pending.value.Id())
    else IsNewest(previous, current, now, choice)
  }

  method Choose(pending: Option<Watch>, rows: seq<Row>, previous: seq<Watch>, current: seq<Watch>)
    returns (choice: Option<Watch>)
    requires AllSound(rows, |rows| - 1, current)
    ensures Chooses(pending, previous, current, |rows| - 1, choice)
    ensures choice.Some? ==> choice.value in current
  {
    if pending.Some? {
      choice := Lookup(current, pending.value.Id());
      LookupHasId(current, pending.value.Id());
    } else {
      choice := NewestAnnounced(rows, previous, current);
    }
  }

  // ----- slots -----

  datatype Slot = Empty | Held(cursor: Cursor, rows: seq<Row>)

  /** A cursor describes the frame it was computed on. */
  ghost predicate SlotSound(slot: Slot) {
    slot.Held? ==>
      && 0 < |slot.rows|
      && slot.cursor.endIndex == |slot.rows| - 1
      && slot.cursor.lastOhlc == slot.rows[|slot.rows| - 1]
      && AllSound(slot.rows, |slot.rows| - 1, slot.cursor.watches)
      && (slot.cursor.pending.Some? ==> slot.cursor.pending.value in slot.cursor.watches)
  }

  /** The frame's newest bar directly follows the cursor's, which it repeats unchanged. */
  predicate Continues(c: Cursor, frame: seq<Bar>, minutes: int) {
    var n := |frame|;
    && 2 <= n
    && frame[n - 2].time == c.time
    && frame[n - 1].time - c.time == minutes * MINUTE_MS
    && frame[n - 2].row == c.lastOhlc
  }

  /** Closed history is append-only: a continuing frame repeats the bars it shares with the slot. */
  ghost predicate AppendOnly(slot: Slot, candles: seq<Bar>, minutes: int) {
    var frame := ClosedFrame(candles, minutes);
    slot.Held? && frame.Some? && Continues(slot.cursor, frame.value, minutes) ==> Extends(slot.rows, Rows(frame.value))
  }

  ghost predicate Bootstraps(p: Parameters, frame: seq<Bar>, after: Slot, outcome: Outcome)
    requires 0 < |frame|
  {
    var last := frame[|frame| - 1];
    && after.Held? && after.rows == Rows(frame)
    && after.cursor == Cursor(last.time, last.row, |frame| - 1, after.cursor.watches, None)
    && Detects(Rows(frame), p, [], after.cursor.watches)
    && outcome == Quiet
  }

  function AfterAttempt(choice: Option<Watch>, accepted: bool): Option<Watch> {
    if accepted then None else choice
  }

  function AttemptOutcome(choice: Option<Watch>, accepted: bool): Outcome {
    if choice.None? then Quiet else Attempted(choice.value, accepted)
  }

  /** The cursor stored for a frame that continues the slot, before any card is attempted. */
  ghost predicate Prepares(p: Parameters, before: Slot, frame: seq<Bar>, stored: Cursor)
    requires 0 < |frame| && before.Held?
  {
    var last := frame[|frame| - 1];
    var previous := Shifted(before.cursor.watches, |frame| - 2 - before.cursor.endIndex);
    && stored == Cursor(last.time, last.row, |frame| - 1, stored.watches, stored.pending)
    && Detects(Rows(frame), p, previous, stored.watches)
    && Chooses(before.cursor.pending, previous, stored.watches, |frame| - 1, stored.pending)
  }

  /** The slot and outcome once the prepared card was attempted. */
  function Attempt(stored: Cursor, rows: seq<Row>, accepted: bool): (Slot, Outcome) {
    (Held(stored.(pending := AfterAttempt(stored.pending, accepted)), rows), AttemptOutcome(stored.pending, accepted))
  }

  lemma StoredIsPrepared(p: Parameters, before: Slot, frame: seq<Bar>, previous: seq<Watch>, stored: Cursor)
    requires 0 < |frame| && before.Held?
    requires previous == Shifted(before.cursor.watches, |frame| - 2 - before.cursor.endIndex)
    requires Detects(Rows(frame), p, previous, stored.watches)
    requires Chooses(before.cursor.pending, previous, stored.watches, |frame| - 1, stored.pending)
    requires var last := frame[|frame| - 1];
             stored == Cursor(last.time, last.row, |frame| - 1, stored.watches, stored.pending)
    ensures Prepares(p, before, frame, stored)
  {
  }

  lemma StoredIsSound(frame: seq<Bar>, stored: Cursor)
    requires 0 < |frame| && AllSound(Rows(frame), |frame| - 1, stored.watches)
    requires stored.pending.Some? ==> stored.pending.value in stored.watches
    requires var last := frame[|frame| - 1];
             stored == Cursor(last.time, last.row, |frame| - 1, stored.watches, stored.pending)
    ensures SlotSound(Held(stored, Rows(frame)))
  {
  }

  ghost predicate Advances(p: Parameters, before: Slot, frame: seq<Bar>, accepted: bool, after: Slot, outcome: Outcome)
    requires 0 < |frame| && before.Held?
  {
    exists stored :: Prepares(p, before, frame, stored) && (after, outcome) == Attempt(stored, Rows(frame), accepted)
  }

  /** One poll of one slot. */
  ghost predicate Steps(p: Parameters, before: Slot, candles: seq<Bar>, minutes: int, accepted: bool,
                        after: Slot, outcome: Outcome) {
    match ClosedFrame(candles, minutes)
    case None => after == Empty && outcome == Quiet
    case Some(frame) =>
      var last := frame[|frame| - 1];
      if before.Empty? then Bootstraps(p, frame, after, outcome)
      else
        var c := before.cursor;
        if c.time == last.time then
          if last.row != c.lastOhlc then Bootstraps(p, frame, after, outcome)
          else
            (after, outcome) == Attempt(c, before.rows, accepted)
        else if !Continues(c, frame, minutes) then Bootstraps(p, frame, after, outcome)
        else Advances(p, before, frame, accepted, after, outcome)
  }

  // ----- the cursor table -----

  type Key = (string, string)

  ghost predicate SameElsewhere<V>(before: map<Key, V>, after: map<Key, V>, key: Key) {
    forall other :: other != key ==>
      (other in before <==> other in after) && (other in before ==> before[other] == after[other])
  }

  ghost predicate TableSound(cursors: map<Key, Cursor>, frames: map<Key, seq<Row>>) {
    && cursors.Keys == frames.Keys
    && forall key :: key in cursors ==> SlotSound(Held(cursors[key], frames[key]))
  }

  lemma TableUpdate(cursors: map<Key, Cursor>, frames: map<Key, seq<Row>>, key: Key, c: Cursor, rows: seq<Row>)
    requires TableSound(cursors, frames) && SlotSound(Held(c, rows))
    ensures TableSound(cursors[key := c], frames[key := rows])
  {
  }

  lemma TableClear(cursors: map<Key, Cursor>, frames: map<Key, seq<Row>>, key: Key)
    requires TableSound(cursors, frames) && key in cursors
    ensures TableSound(cursors[key := cursors[key].(pending := None)], frames)
  {
  }

  lemma TableRemove(cursors: map<Key, Cursor>, frames: map<Key, seq<Row>>, key: Key)
    requires TableSound(cursors, frames)
    ensures TableSound(cursors - {key}, frames - {key})
  {
  }

  class Stream {
    const p: Parameters
    var cursors: map<Key, Cursor>
    /** Rows each cursor was computed on. */
    ghost var frames: map<Key, seq<Row>>

    ghost function At(key: Key): Slot
      reads this
    {
      if key in cursors && key in frames then Held(cursors[key], frames[key]) else Empty
    }

    ghost predicate Valid()
      reads this
    {
      && ValidParameters(p)
      && TableSound(cursors, frames)
    }

    constructor (p: Parameters)
      requires ValidParameters(p)
      ensures Valid() && this.p == p && cursors == map[]
    {
      this.p := p;
      cursors := map[];
      frames := map[];
    }

    method Scan(rows: seq<Row>) returns (watches: seq<Watch>)
      requires ValidParameters(p) && 0 < |rows|
      ensures Detects(rows, p, [], watches)
      ensures AllSound(rows, |rows| - 1, watches)
    {
      var detected := DetectWatches(rows, p, []);
      watches := detected.value;
      OutputIsSound(rows, p, [], watches);
    }

    method Bootstrap(key: Key, frame: seq<Bar>)
      requires Valid() && 0 < |frame|
      modifies this
      ensures Valid()
      ensures Bootstraps(p, frame, At(key), Quiet)
      ensures cursors.Keys == old(cursors.Keys) + {key}
      ensures SameElsewhere(old(cursors), cursors, key) && SameElsewhere(old(frames), frames, key)
    {
      var rows := Rows(frame);
      var watches := Scan(rows);
      var last := frame[|frame| - 1];
      var stored := Cursor(last.time, last.row, |frame| - 1, watches, None);
      Store(key, stored, rows);
    }

    method Store(key: Key, stored: Cursor, ghost rows: seq<Row>)
      requires Valid() && SlotSound(Held(stored, rows))
      modifies this
      ensures Valid() && At(key) == Held(stored, rows) && cursors == old(cursors)[key := stored]
      ensures SameElsewhere(old(frames), frames, key)
    {
      TableUpdate(cursors, frames, key, stored, rows);
      cursors := cursors[key := stored];
      frames := frames[key := rows];
    }

    /** Detection fed with the cursor's own watches: never rejected, and sound for the new frame. */
    method Redetect(c: Cursor, ghost before: seq<Row>, rows: seq<Row>) returns (previous: seq<Watch>, current: seq<Watch>)
      requires ValidParameters(p) && SlotSound(Held(c, before)) && Extends(before, rows)
      ensures previous == Shifted(c.watches, |rows| - 2 - c.endIndex)
      ensures Detects(rows, p, previous, current)
      ensures AllSound(rows, |rows| - 1, current)
    {
      previous := Shift(c.watches, |rows| - 2 - c.endIndex);
      assert FirstObjection(rows, previous).None? by {
        ShiftedIsSound(before, rows, c.watches);
        SoundIsAccepted(rows, previous);
      }
      var detected := DetectWatches(rows, p, previous);
      current := detected.value;
      assert AllSound(rows, |rows| - 1, current) by {
        ShiftedIsSound(before, rows, c.watches);
        OutputIsSound(rows, p, previous, current);
      }
    }

    /** Detection on the new candle, and the card it calls for. */
    method Evaluate(c: Cursor, ghost before: seq<Row>, rows: seq<Row>)
      returns (previous: seq<Watch>, current: seq<Watch>, candidate: Option<Watch>)
      requires ValidParameters(p) && SlotSound(Held(c, before)) && Extends(before, rows)
      ensures previous == Shifted(c.watches, |rows| - 2 - c.endIndex)
      ensures Detects(rows, p, previous, current) && AllSound(rows, |rows| - 1, current)
      ensures Chooses(c.pending, previous, current, |rows| - 1, candidate)
      ensures candidate.Some? ==> candidate.value in current
    {
      previous, current := Redetect(c, before, rows);
      candidate := Choose(c.pending, rows, previous, current);
    }

    method Prepare(c: Cursor, ghost before: seq<Row>, frame: seq<Bar>) returns (stored: Cursor)
      requires ValidParameters(p) && SlotSound(Held(c, before)) && 0 < |frame| && Extends(before, Rows(frame))
      ensures Prepares(p, Held(c, before), frame, stored)
      ensures SlotSound(Held(stored, Rows(frame)))
    {
      var last, rows, now := frame[|frame| - 1], Rows(frame), |frame| - 1;
      var previous, current, candidate := Evaluate(c, before, rows);
      stored := Cursor(last.time, last.row, now, current, candidate);
      StoredIsSound(frame, stored);
      StoredIsPrepared(p, Held(c, before), frame, previous, stored);
    }

    method Advance(key: Key, frame: seq<Bar>, minutes: int, accepted: bool) returns (outcome: Outcome)
      requires Valid() && key in cursors && 0 < |frame|
      requires Continues(cursors[key], frame, minutes) && Extends(frames[key], Rows(frame))
      modifies this
      ensures Valid()
      ensures Advances(p, old(At(key)), frame, accepted, At(key), outcome)
      ensures SameElsewhere(old(cursors), cursors, key) && SameElsewhere(old(frames), frames, key)
    {
      var stored := Prepare(cursors[key], frames[key], frame);
      Store(key, stored, Rows(frame));
      outcome := Deliver(key, accepted);
    }

    /** Attempts the pending card, if any, and forgets it once it is accepted. */
    method Deliver(key: Key, accepted: bool) returns (outcome: Outcome)
      requires Valid() && key in cursors
      modifies this`cursors
      ensures Valid()
      ensures (At(key), outcome) == Attempt(old(cursors[key]), frames[key], accepted)
      ensures SameElsewhere(old(cursors), cursors, key)
    {
      var c := cursors[key];
      if c.pending.None? {
        return Quiet;
      }
      if accepted {
        TableClear(cursors, frames, key);
        cursors := cursors[key := c.(pending := None)];
      }
      return Attempted(c.pending.value, accepted);
    }

    /** One poll. The outcome tells whether a card was attempted and whether it was accepted. */
    method Process(key: Key, candles: seq<Bar>, minutes: int, accepted: bool) returns (outcome: Outcome)
      requires Valid()
      requires AppendOnly(At(key), candles, minutes)
      modifies this
      ensures Valid()
      ensures Steps(p, old(At(key)), candles, minutes, accepted, At(key), outcome)
      ensures SameElsewhere(old(cursors), cursors, key) && SameElsewhere(old(frames), frames, key)
    {
      var validated := ClosedFrame(candles, minutes);
      if validated.None? {
        TableRemove(cursors, frames, key);
        cursors := cursors - {key};
        frames := frames - {key};
        return Quiet;
      }
      var frame := validated.value;
      var last := frame[|frame| - 1];
      if key !in cursors {
        Bootstrap(key, frame);
        return Quiet;
      }
      var c := cursors[key];
      if c.time == last.time {
        if last.row != c.lastOhlc {
          Bootstrap(key, frame);
          return Quiet;
        }
        outcome := Deliver(key, accepted);
        return;
      }
      if !Continues(c, frame, minutes) {
        Bootstrap(key, frame);
        return Quiet;
      }
      outcome := Advance(key, frame, minutes, accepted);
    }
  }

  // ----- one poll, read off its candles -----

  /** A card is called for: a setup not known before whose shelf ends on this candle, or one known as READY that this
      candle is the first to leave. */
  predicate CalledFor(previous: seq<Watch>, now: int, w: Watch) {
    || (w.phase.BoxReady? && w.boxEnd == now && forall v :: v in previous ==> v.Id() != w.Id())
    || (w.phase.BoxBreakObserved? && w.firstExit == Some(now) && exists v :: v in previous && v.Id() == w.Id() && v.phase.BoxReady?)
  }

  lemma AnnouncedIsCalledFor(previous: seq<Watch>, now: int, w: Watch)
    requires DistinctIdentities(previous)
    ensures Announces(previous, now, w) <==> CalledFor(previous, now, w)
  {
    LookupHasId(previous, w.Id());
    forall v | v in previous && v.Id() == w.Id() ensures Lookup(previous, w.Id()) == Some(v) {
      LookupFinds(previous, w.Id(), v);
    }
  }

  /** With nothing pending, the card chosen is called for, and of all such cards the one with the latest end of impulse,
      then the latest start; no choice means that no card is called for. */
  lemma LatestAnchorsWin(previous: seq<Watch>, current: seq<Watch>, now: int, choice: Option<Watch>)
    requires DistinctIdentities(previous) && Chooses(None, previous, current, now, choice)
    ensures choice.None? ==> forall w :: w in current ==> !CalledFor(previous, now, w)
    ensures choice.Some? ==>
              && choice.value in current && CalledFor(previous, now, choice.value)
              && forall w :: w in current && CalledFor(previous, now, w) ==>
                   w.anchorEnd < choice.value.anchorEnd
                   || (w.anchorEnd == choice.value.anchorEnd && w.anchorStart <= choice.value.anchorStart)
  {
    forall w | w in current ensures Announces(previous, now, w) <==> CalledFor(previous, now, w) {
      AnnouncedIsCalledFor(previous, now, w);
    }
  }

  /** Closed candles of a poll are those before the last; they must follow each other by the timeframe. */
  ghost predicate Regular(candles: seq<Bar>, minutes: int) {
    2 <= |candles| && 0 < minutes
    && forall i, j :: 0 <= i && j == i + 1 && j < |candles| - 1 ==> candles[j].time == candles[i].time + minutes * 60_000
  }

  /** The newest closed candle is the one the slot has already seen. */
  predicate Repeats(slot: Slot, candles: seq<Bar>)
    requires 2 <= |candles|
  {
    slot.Held? && candles[|candles| - 2] == Bar(slot.cursor.time, slot.cursor.lastOhlc)
  }

  /** The newest closed candle directly follows the one the slot has seen, which is unchanged. */
  predicate Follows(slot: Slot, candles: seq<Bar>, minutes: int)
    requires 2 <= |candles|
  {
    && slot.Held? && 3 <= |candles| && candles[|candles| - 3] == Bar(slot.cursor.time, slot.cursor.lastOhlc)
    && candles[|candles| - 2].time == slot.cursor.time + minutes * 60_000
  }

  lemma RegularFrame(candles: seq<Bar>, minutes: int)
    ensures Regular(candles, minutes) <==> ClosedFrame(candles, minutes).Some?
    ensures Regular(candles, minutes) ==> ClosedFrame(candles, minutes).value == candles[..|candles| - 1]
  {
    if 2 <= |candles| && 0 < minutes {
      var closed := candles[..|candles| - 1];
      forall i | 0 <= i < |closed| - 1
        ensures closed[i + 1].time - closed[i].time == minutes * MINUTE_MS <==>
                candles[i + 1].time == candles[i].time + minutes * 60_000
      {
        assert closed[i] == candles[i] && closed[i + 1] == candles[i + 1];
      }
      if Regular(candles, minutes) {
        forall i | 0 <= i < |closed| - 1 ensures closed[i + 1].time - closed[i].time == minutes * MINUTE_MS {
          var j := i + 1;
          assert candles[j].time == candles[i].time + minutes * 60_000;
        }
      }
    }
  }

  /** What a poll leaves: an irregular one nothing; one that neither repeats nor follows a silent restart; one that repeats
      the slot as it was, with its pending card tried again; and one that follows the new frame, a card of which is pending
      exactly when it was tried and not accepted. */
  lemma PollLeaves(p: Parameters, before: Slot, candles: seq<Bar>, minutes: int, accepted: bool, after: Slot, outcome: Outcome)
    requires Steps(p, before, candles, minutes, accepted, after, outcome)
    ensures !Regular(candles, minutes) ==> after == Empty && outcome == Quiet
    ensures Regular(candles, minutes) ==>
      var last := candles[|candles| - 2];
      && after.Held? && after.cursor.time == last.time
      && (!Repeats(before, candles) ==> after.rows == Rows(candles[..|candles| - 1]) && after.cursor.lastOhlc == last.row)
      && (!Repeats(before, candles) && !Follows(before, candles, minutes) ==> after.cursor.pending == None && outcome == Quiet)
      && (Repeats(before, candles) ==>
            && after.rows == before.rows && after.cursor.watches == before.cursor.watches
            && outcome == (if before.cursor.pending.None? then Quiet else Attempted(before.cursor.pending.value, accepted)))
      && (after.cursor.pending.Some? <==> outcome.Attempted? && !outcome.delivered)
      && (outcome.Attempted? ==> (outcome.delivered <==> accepted))
  {
    RegularFrame(candles, minutes);
    if Regular(candles, minutes) {
      var frame := candles[..|candles| - 1];
      assert frame[|frame| - 1] == candles[|candles| - 2];
      assert 3 <= |candles| ==> frame[|frame| - 2] == candles[|candles| - 3];
    }
  }

  // ----- whole runs of one slot -----

  datatype Poll = Poll(candles: seq<Bar>, accepted: bool)

  ghost predicate StepAt(p: Parameters, minutes: int, polls: seq<Poll>, slots: seq<Slot>, outcomes: seq<Outcome>, i: int)
    requires 0 <= i < |polls| == |outcomes| && |slots| == |polls| + 1
  {
    && AppendOnly(slots[i], polls[i].candles, minutes)
    && Steps(p, slots[i], polls[i].candles, minutes, polls[i].accepted, slots[i + 1], outcomes[i])
  }

  /** A slot that starts empty and is polled over append-only history, with any answers. */
  ghost predicate StreamRun(p: Parameters, minutes: int, polls: seq<Poll>, slots: seq<Slot>, outcomes: seq<Outcome>) {
    && |polls| == |outcomes| && |slots| == |polls| + 1
    && slots[0] == Empty
    && forall i :: 0 <= i < |polls| ==> StepAt(p, minutes, polls, slots, outcomes, i)
  }

  lemma BootstrapIsSound(p: Parameters, frame: seq<Bar>, after: Slot, outcome: Outcome)
    requires 0 < |frame| && Bootstraps(p, frame, after, outcome)
    ensures SlotSound(after)
  {
    OutputIsSound(Rows(frame), p, [], after.cursor.watches);
  }

  lemma RedetectedIsSound(rows: seq<Row>, next: seq<Row>, p: Parameters, watches: seq<Watch>, previous: seq<Watch>, out: seq<Watch>)
    requires Extends(rows, next) && AllSound(rows, |rows| - 1, watches)
    requires previous == Shifted(watches, |next| - 1 - |rows|) && Detects(next, p, previous, out)
    ensures AllSound(next, |next| - 1, out)
  {
    ShiftedIsSound(rows, next, watches);
    OutputIsSound(next, p, previous, out);
  }

  lemma PrepareIsSound(p: Parameters, before: Slot, frame: seq<Bar>, stored: Cursor)
    requires SlotSound(before) && before.Held? && 0 < |frame| && Extends(before.rows, Rows(frame))
    requires Prepares(p, before, frame, stored)
    ensures SlotSound(Held(stored, Rows(frame)))
  {
    var previous := Shifted(before.cursor.watches, |frame| - 2 - before.cursor.endIndex);
    RedetectedIsSound(before.rows, Rows(frame), p, before.cursor.watches, previous, stored.watches);
    if before.cursor.pending.Some? {
      LookupHasId(stored.watches, before.cursor.pending.value.Id());
    }
  }

  /** An attempted card is one of the slot's watches. */
  ghost predicate CardIsHeld(slot: Slot, outcome: Outcome) {
    outcome.Attempted? ==> slot.Held? && outcome.card in slot.cursor.watches
  }

  lemma AttemptIsSound(stored: Cursor, rows: seq<Row>, accepted: bool, after: Slot, outcome: Outcome)
    requires SlotSound(Held(stored, rows)) && (after, outcome) == Attempt(stored, rows, accepted)
    ensures SlotSound(after) && CardIsHeld(after, outcome)
  {
  }

  lemma AdvanceIsSound(p: Parameters, before: Slot, frame: seq<Bar>, accepted: bool, after: Slot, outcome: Outcome)
    requires SlotSound(before) && before.Held? && 0 < |frame| && Extends(before.rows, Rows(frame))
    requires Advances(p, before, frame, accepted, after, outcome)
    ensures SlotSound(after) && CardIsHeld(after, outcome)
  {
    var stored :| Prepares(p, before, frame, stored) && (after, outcome) == Attempt(stored, Rows(frame), accepted);
    PrepareIsSound(p, before, frame, stored);
    AttemptIsSound(stored, Rows(frame), accepted, after, outcome);
  }

  lemma StepIsSound(p: Parameters, before: Slot, candles: seq<Bar>, minutes: int, accepted: bool, after: Slot, outcome: Outcome)
    requires SlotSound(before) && AppendOnly(before, candles, minutes)
    requires Steps(p, before, candles, minutes, accepted, after, outcome)
    ensures SlotSound(after) && CardIsHeld(after, outcome)
  {
    var validated := ClosedFrame(candles, minutes);
    if validated.Some? {
      var frame := validated.value;
      if Bootstraps(p, frame, after, outcome) {
        BootstrapIsSound(p, frame, after, outcome);
      } else if before.cursor.time == frame[|frame| - 1].time {
        AttemptIsSound(before.cursor, before.rows, accepted, after, outcome);
      } else {
        AdvanceIsSound(p, before, frame, accepted, after, outcome);
      }
    }
  }

  lemma {:induction false} SlotsAreSound(p: Parameters, minutes: int, polls: seq<Poll>, slots: seq<Slot>, outcomes: seq<Outcome>, i: int)
    requires StreamRun(p, minutes, polls, slots, outcomes) && 0 <= i < |slots|
    ensures SlotSound(slots[i])
    decreases i
  {
    if i > 0 {
      SlotsAreSound(p, minutes, polls, slots, outcomes, i - 1);
      assert StepAt(p, minutes, polls, slots, outcomes, i - 1);
      StepIsSound(p, slots[i - 1], polls[i - 1].candles, minutes, polls[i - 1].accepted, slots[i], outcomes[i - 1]);
    }
  }

  /** Every card ever attempted is sound for the frame then held: its anchors and shelf are those of the
      candles, and no bar after B, up to the newest closed one, has reached its entry zone. */
  lemma AttemptedCardIsLive(p: Parameters, minutes: int, polls: seq<Poll>, slots: seq<Slot>, outcomes: seq<Outcome>, i: int)
    requires StreamRun(p, minutes, polls, slots, outcomes) && 0 <= i < |polls| && outcomes[i].Attempted?
    ensures slots[i + 1].Held? && outcomes[i].card in slots[i + 1].cursor.watches
    ensures Sound(slots[i + 1].rows, |slots[i + 1].rows| - 1, outcomes[i].card)
  {
    SlotsAreSound(p, minutes, polls, slots, outcomes, i);
    SlotsAreSound(p, minutes, polls, slots, outcomes, i + 1);
    assert StepAt(p, minutes, polls, slots, outcomes, i);
    StepIsSound(p, slots[i], polls[i].candles, minutes, polls[i].accepted, slots[i + 1], outcomes[i]);
  }

  // ----- at most one delivery per closed candle -----

  function NewestTime(poll: Poll, minutes: int): Option<int> {
    var frame := ClosedFrame(poll.candles, minutes);
    if frame.None? then None else Some(frame.value[|frame.value| - 1].time)
  }

  /** Polls never go back to an older newest candle. */
  predicate TimeOrdered(minutes: int, polls: seq<Poll>) {
    forall i, j :: 0 <= i < j < |polls| ==>
      var s, t := NewestTime(polls[i], minutes), NewestTime(polls[j], minutes);
      s.Some? && t.Some? ==> s.value <= t.value
  }

  /** Nothing is left to deliver for candles up to `t`. */
  predicate Settled(slot: Slot, t: int) {
    slot.Empty? || t < slot.cursor.time || (slot.cursor.time == t && slot.cursor.pending.None?)
  }

  lemma SettledStays(p: Parameters, before: Slot, poll: Poll, minutes: int, after: Slot, outcome: Outcome, t: int)
    requires Steps(p, before, poll.candles, minutes, poll.accepted, after, outcome) && Settled(before, t)
    requires NewestTime(poll, minutes).Some? ==> t <= NewestTime(poll, minutes).value
    ensures Settled(after, t)
    ensures outcome.Attempted? && outcome.delivered ==> after.Held? && t < after.cursor.time
  {
  }

  lemma DeliverySettles(p: Parameters, before: Slot, poll: Poll, minutes: int, after: Slot, outcome: Outcome)
    requires Steps(p, before, poll.candles, minutes, poll.accepted, after, outcome)
    requires outcome.Attempted? && outcome.delivered
    ensures after.Held? && Settled(after, after.cursor.time)
    ensures NewestTime(poll, minutes) == Some(after.cursor.time)
  {
  }

  lemma {:induction false} SettledThrough(p: Parameters, minutes: int, polls: seq<Poll>, slots: seq<Slot>,
                                          outcomes: seq<Outcome>, i: int, j: int)
    requires StreamRun(p, minutes, polls, slots, outcomes) && TimeOrdered(minutes, polls)
    requires 0 <= i < j <= |polls| && outcomes[i].Attempted? && outcomes[i].delivered
    ensures slots[i + 1].Held? && Settled(slots[j], slots[i + 1].cursor.time)
    ensures NewestTime(polls[i], minutes) == Some(slots[i + 1].cursor.time)
    decreases j
  {
    assert StepAt(p, minutes, polls, slots, outcomes, i);
    DeliverySettles(p, slots[i], polls[i], minutes, slots[i + 1], outcomes[i]);
    if i + 1 < j {
      SettledThrough(p, minutes, polls, slots, outcomes, i, j - 1);
      assert StepAt(p, minutes, polls, slots, outcomes, j - 1);
      SettledStays(p, slots[j - 1], polls[j - 1], minutes, slots[j], outcomes[j - 1], slots[i + 1].cursor.time);
    }
  }

  /** Two deliveries of a run always belong to different closed candles. */
  lemma OneDeliveryPerCandle(p: Parameters, minutes: int, polls: seq<Poll>, slots: seq<Slot>,
                             outcomes: seq<Outcome>, i: int, j: int)
    requires StreamRun(p, minutes, polls, slots, outcomes) && TimeOrdered(minutes, polls)
    requires 0 <= i < j < |polls|
    requires outcomes[i].Attempted? && outcomes[i].delivered && outcomes[j].Attempted? && outcomes[j].delivered
    ensures slots[i + 1].Held? && slots[j + 1].Held?
    ensures slots[i + 1].cursor.time < slots[j + 1].cursor.time
  {
    SettledThrough(p, minutes, polls, slots, outcomes, i, j);
    assert StepAt(p, minutes, polls, slots, outcomes, j);
    SettledStays(p, slots[j], polls[j], minutes, slots[j + 1], outcomes[j], slots[i + 1].cursor.time);
  }

  // ----- the retry of a failed delivery -----

  /** A card whose delivery failed, and whose setup the next candle still observes, is retried then
      exactly when the window did not move: the pending identity is not translated with the window. */
  lemma RetryNeedsFixedWindow(p: Parameters, before: Slot, frame: seq<Bar>, stored: Cursor, card: Watch)
    requires SlotSound(before) && before.Held? && before.cursor.pending == Some(card)
    requires 0 < |frame| && Extends(before.rows, Rows(frame)) && Prepares(p, before, frame, stored)
    requires Lookup(stored.watches, Translate(card, |frame| - 2 - before.cursor.endIndex).Id()).Some?
    ensures var k := |frame| - 2 - before.cursor.endIndex;
            stored.pending == Lookup(stored.watches, Translate(card, k).Id()) <==> k == 0
  {
    SameLookupIffFixed(stored.watches, card, |frame| - 2 - before.cursor.endIndex);
  }

  lemma SameLookupIffFixed(current: seq<Watch>, card: Watch, k: int)
    requires Lookup(current, Translate(card, k).Id()).Some?
    ensures Lookup(current, card.Id()) == Lookup(current, Translate(card, k).Id()) <==> k == 0
  {
    LookupHasId(current, Translate(card, k).Id());
    LookupHasId(current, card.Id());
  }

  /** A slide by one bar forgets the pending setup: a step that brings a new candle in a window of the same length
      never attempts it. */
  lemma SlideForgetsPending(p: Parameters, before: Slot, poll: Poll, minutes: int, after: Slot, outcome: Outcome, card: Watch)
    requires SlotSound(before) && before.Held? && before.cursor.pending == Some(card)
    requires Steps(p, before, poll.candles, minutes, poll.accepted, after, outcome)
    requires after.Held? && after.cursor.time != before.cursor.time && |after.rows| == |before.rows|
    ensures outcome.Attempted? ==> outcome.card.Id() != Translate(card, -1).Id()
    ensures after.cursor.pending.Some? ==> after.cursor.pending.value.Id() != Translate(card, -1).Id()
  {
    var frame := ClosedFrame(poll.candles, minutes).value;
    if Advances(p, before, frame, poll.accepted, after, outcome) {
      var stored :| Prepares(p, before, frame, stored) && (after, outcome) == Attempt(stored, Rows(frame), poll.accepted);
      LookupHasId(stored.watches, card.Id());
    }
  }

  /** So in no run is a failed card attempted again on a candle that slid the window by one bar. */
  lemma RunForgetsPending(p: Parameters, minutes: int, polls: seq<Poll>, slots: seq<Slot>, outcomes: seq<Outcome>, i: int)
    requires StreamRun(p, minutes, polls, slots, outcomes) && 0 < i < |polls|
    requires outcomes[i - 1].Attempted? && !outcomes[i - 1].delivered
    requires slots[i + 1].Held? && slots[i].Held? && slots[i + 1].cursor.time != slots[i].cursor.time
    requires |slots[i + 1].rows| == |slots[i].rows|
    ensures outcomes[i].Attempted? ==> outcomes[i].card.Id() != Translate(outcomes[i - 1].card, -1).Id()
  {
    SlotsAreSound(p, minutes, polls, slots, outcomes, i);
    assert StepAt(p, minutes, polls, slots, outcomes, i - 1) && StepAt(p, minutes, polls, slots, outcomes, i);
    FailureStaysPending(p, slots[i - 1], polls[i - 1], minutes, slots[i], outcomes[i - 1]);
    SlideForgetsPending(p, slots[i], polls[i], minutes, slots[i + 1], outcomes[i], outcomes[i - 1].card);
  }

  lemma FailureStaysPending(p: Parameters, before: Slot, poll: Poll, minutes: int, after: Slot, outcome: Outcome)
    requires Steps(p, before, poll.candles, minutes, poll.accepted, after, outcome)
    requires outcome.Attempted? && !outcome.delivered && after.Held?
    ensures after.cursor.pending == Some(outcome.card)
  {
  }
}
