/**
  One concrete run of the WATCH stream whose window slides by one bar after a failed delivery:
  the setup is still observed, and its card is not attempted again.
 */
module WatchSlide {
  import opened Market
  import opened Wrappers
  import opened IkigaiBox
  import opened IkigaiWatch
  import opened WatchRun
  import opened WatchStream

  /** What the stream's caller leaves unset. */
  const P := Parameters(4, 16, 4, 14, 2, 15, 3.0, 0.01, 0.55, 0.60, 0.70, 0.35, 0.30, 0.30, 1.90, 0.25)

  /** Fourteen quiet bars, an impulse from 9 to 22, its shelf of four bars, and quiet bars inside the shelf. */
  function RowAt(i: int): Row {
    if i < 14 then Row(10.0, 10.5, 9.5, 10.0)
    else if i == 14 then Row(10.0, 10.4, 9.0, 10.3)
    else if i == 15 then Row(10.5, 14.0, 10.2, 13.8)
    else if i == 16 then Row(14.0, 18.0, 13.5, 17.8)
    else if i == 17 then Row(18.0, 22.0, 17.5, 21.5)
    else Row(21.0, 21.8, 20.0, 21.0)
  }

  function History(): seq<Bar> {
    seq(24, i requires 0 <= i < 24 => Bar(i * MINUTE_MS, RowAt(i)))
  }

  /** `rows` is the history from bar `start` on. */
  predicate Shows(rows: seq<Row>, start: int) {
    forall i :: 0 <= i < |rows| ==> rows[i] == RowAt(start + i)
  }

  lemma ClosedPart(a: nat, b: nat)
    requires a + 2 <= b <= 24
    ensures ClosedFrame(History()[a..b], 1) == Some(History()[a..b - 1])
    ensures Shows(Rows(History()[a..b - 1]), a) && |Rows(History()[a..b - 1])| == b - 1 - a
  {
    var candles := History()[a..b];
    assert candles[..|candles| - 1] == History()[a..b - 1];
  }

  function Card(): Watch {
    Watch(Short, BoxReady, 21, 14, 17, 9.0, 22.0, 18, 21, 20.0, 21.8, None, 22.0,
          Fibonacci(9.0, 22.0, 1.618), Fibonacci(9.0, 22.0, 2.618))
  }

  /** `rows` begins with the quiet bars and the impulse. */
  predicate Opens(rows: seq<Row>) {
    22 <= |rows| && forall i :: 0 <= i < 18 ==> rows[i] == RowAt(i)
  }

  lemma QuietAtr(rows: seq<Row>, lo: int)
    requires Opens(rows) && 0 <= lo <= 14
    ensures SumTrueRange(rows, lo, 14) == (14 - lo) as real
    decreases 14 - lo
  {
    if lo < 14 { QuietAtr(rows, lo + 1); }
  }

  lemma ImpulseQualifies(rows: seq<Row>, boxHigh: real)
    requires Opens(rows) && (forall j :: 18 <= j < 22 ==> 9.0 < rows[j].low) && 20.0 <= boxHigh <= 22.0
    ensures QualifiedImpulseAndBox(rows, 14, 17, 20.0, boxHigh, Short, P) == Some(Impulse(9.0, 22.0, 13.0, 1.0))
  {
    QuietAtr(rows, 0);
    assert IsReversalOrigin(rows, 14, Short);
    assert rows[16].high == 18.0 && rows[17].high == 22.0;
    assert !IsReversalOrigin(rows, 15, Long) && !IsReversalOrigin(rows, 16, Long);
    assert !GivesBackAt(rows, 14, 15, Short, P) && !GivesBackAt(rows, 14, 16, Short, P);
    assert !HasMaterialCounterClose(rows, 14, 17, Short, P);
    assert MinLow(rows, 14, 18) == 9.0 && MaxHigh(rows, 14, 17) == 18.0;
    assert ForwardBars(rows, 14, 18, Short) == 4;
  }

  // ----- the candle that shows the shelf -----

  lemma CardIsCandidate(rows: seq<Row>)
    requires |rows| == 22 && Shows(rows, 0)
    ensures Candidate(rows, P, Identity(Short, 14, 17), 21) == Some(Card())
  {
    ImpulseQualifies(rows, 21.8);
    assert MinLow(rows, 18, 22) == 20.0 && MaxHigh(rows, 18, 22) == 21.8;
    assert MaxHigh(rows, 18, 21) == 21.8;
  }

  lemma CardIsFresh(rows: seq<Row>)
    requires |rows| == 22 && Shows(rows, 0)
    ensures Fresh(rows, P, Identity(Short, 14, 17)) == Some(Card())
  {
    CardIsCandidate(rows);
    LatestIs(rows, P, Identity(Short, 14, 17), OldestShelfEnd(rows, P), 21);
  }

  /** The frame has room for one pair of anchors only. */
  lemma OneAnchorPair(rows: seq<Row>, id: Identity)
    requires |rows| == 22 && Fresh(rows, P, id).Some?
    ensures id.start == 14 && id.end == 17
  {
    var e := LatestShelf(rows, P, id, OldestShelfEnd(rows, P));
  }

  lemma OnlyCard(rows: seq<Row>, out: seq<Watch>, w: Watch)
    requires |rows| == 22 && Shows(rows, 0) && Detects(rows, P, [], out) && w in out
    ensures w == Card()
  {
    var short := Identity(Short, 14, 17);
    LookupFinds(out, w.Id(), w);
    assert Fresh(rows, P, w.Id()) == Some(w);
    OneAnchorPair(rows, w.Id());
    CardIsFresh(rows);
    FreshIsSound(rows, P, w.Id());
    FreshIsSound(rows, P, short);
    OneDirectionPerAnchors(rows, 21, w, Card());
  }

  /** The card of the new shelf is the one chosen. */
  lemma CardIsChosen(rows: seq<Row>, out: seq<Watch>, choice: Option<Watch>)
    requires |rows| == 22 && Shows(rows, 0) && Detects(rows, P, [], out) && IsNewest([], out, 21, choice)
    ensures choice == Some(Card()) && out == [Card()]
  {
    CardIsFresh(rows);
    assert Searchable(rows, P);
    assert Lookup(out, Card().Id()) == Some(Card());
    LookupHasId(out, Card().Id());
    if choice.Some? { OnlyCard(rows, out, choice.value); }
    assert Announces([], 21, Card());
    OnlyCard(rows, out, out[0]);
    if |out| > 1 {
      OnlyCard(rows, out, out[1]);
    }
    assert out == [Card()];
    assert out[..0] == [];
  }

  // ----- the candle that slides the window -----

  lemma NoFreshAnchors(rows: seq<Row>, id: Identity)
    requires |rows| == 22 && Shows(rows, 1) && (id == Identity(Short, 13, 16) || id == Identity(Short, 14, 17))
    ensures Fresh(rows, P, id) == None
  {
    assert rows[14].low == 10.2 && rows[13].low == 9.0;
    assert !IsReversalOrigin(rows, 14, Short);
    if Fresh(rows, P, id).Some? {
      var e := LatestShelf(rows, P, id, OldestShelfEnd(rows, P));
    }
  }

  /** The setup is still observed one bar further left, and nothing is observed under its old indices. */
  lemma CardIsCarried(rows: seq<Row>, out: seq<Watch>)
    requires |rows| == 22 && Shows(rows, 1) && Detects(rows, P, [Translate(Card(), -1)], out)
    ensures Lookup(out, Translate(Card(), -1).Id()) == Some(Translate(Card(), -1).(asOf := 21))
    ensures Lookup(out, Card().Id()) == None
  {
    var moved := Translate(Card(), -1);
    assert Searchable(rows, P);
    assert [moved][..0] == [];
    assert ById([moved]) == map[moved.Id() := moved];
    NoFreshAnchors(rows, moved.Id());
    NoFreshAnchors(rows, Card().Id());
    assert !Touched(rows, Short, moved.fibonacci1618, 17, 22);
  }

  // ----- the run -----

  function Polls(): seq<Poll> {
    [Poll(History()[0..22], true), Poll(History()[0..23], false), Poll(History()[1..24], true)]
  }

  const Opened := Held(Cursor(20 * MINUTE_MS, RowAt(20), 20, [], None), Rows(History()[0..21]))

  const Failed := Held(Cursor(21 * MINUTE_MS, RowAt(21), 21, [Card()], Some(Card())), Rows(History()[0..22]))

  /** Forgotten: the window has slid, the setup is still observed, and no card is pending. */
  ghost predicate IsForgotten(slot: Slot) {
    && slot.Held? && |slot.rows| == |Failed.rows| && slot.cursor.pending == None
    && Lookup(slot.cursor.watches, Translate(Card(), -1).Id()).Some?
  }

  lemma FirstPoll(after: Slot, outcome: Outcome)
    requires Steps(P, Empty, Polls()[0].candles, 1, true, after, outcome)
    ensures outcome == Quiet && after == Opened
  {
    ClosedPart(0, 22);
  }

  lemma Continuing(slot: Slot, a: nat, b: nat, n: nat)
    requires a + 2 <= b <= 24 && n + 1 == b - 1 && a < n
    requires slot.Held? && slot.cursor.time == (n - 1) * MINUTE_MS && slot.cursor.lastOhlc == RowAt(n - 1)
    requires slot.rows == Rows(History()[0..n])
    ensures Continues(slot.cursor, History()[a..b - 1], 1) && Extends(slot.rows, Rows(History()[a..b - 1]))
  {
    var frame := History()[a..b - 1];
    assert frame[|frame| - 2] == Bar((n - 1) * MINUTE_MS, RowAt(n - 1));
    assert frame[|frame| - 1] == Bar(n * MINUTE_MS, RowAt(n));
  }

  lemma CardFails(stored: Cursor, after: Slot, outcome: Outcome)
    requires stored == Cursor(21 * MINUTE_MS, RowAt(21), 21, [Card()], Some(Card()))
    requires (after, outcome) == Attempt(stored, Rows(History()[0..22]), false)
    ensures outcome == Attempted(Card(), false) && after == Failed
  {
  }

  lemma SecondPoll(after: Slot, outcome: Outcome)
    ensures AppendOnly(Opened, Polls()[1].candles, 1)
    ensures Steps(P, Opened, Polls()[1].candles, 1, false, after, outcome) ==>
      outcome == Attempted(Card(), false) && after == Failed
  {
    var frame := History()[0..22];
    ClosedPart(0, 23);
    Continuing(Opened, 0, 23, 21);
    if Steps(P, Opened, Polls()[1].candles, 1, false, after, outcome) {
      var stored :| Prepares(P, Opened, frame, stored) && (after, outcome) == Attempt(stored, Rows(frame), false);
      assert Shifted([], 0) == [];
      CardIsChosen(Rows(frame), stored.watches, stored.pending);
      CardFails(stored, after, outcome);
    }
  }

  lemma CardIsShifted()
    ensures Shifted([Card()], -1) == [Translate(Card(), -1)]
  {
    assert [Card()][..0] == [];
  }

  lemma ThirdPoll(after: Slot, outcome: Outcome)
    ensures AppendOnly(Failed, Polls()[2].candles, 1)
    ensures Steps(P, Failed, Polls()[2].candles, 1, true, after, outcome) ==> outcome == Quiet && IsForgotten(after)
  {
    var frame := History()[1..23];
    ClosedPart(1, 24);
    Continuing(Failed, 1, 24, 22);
    if Steps(P, Failed, Polls()[2].candles, 1, true, after, outcome) {
      var stored :| Prepares(P, Failed, frame, stored) && (after, outcome) == Attempt(stored, Rows(frame), true);
      CardIsShifted();
      CardIsCarried(Rows(frame), stored.watches);
    }
  }

  /** One poll over append-only history takes one slot to the next. */
  ghost predicate Goes(minutes: int, poll: Poll, before: Slot, after: Slot, outcome: Outcome) {
    AppendOnly(before, poll.candles, minutes) && Steps(P, before, poll.candles, minutes, poll.accepted, after, outcome)
  }

  method PollFirst(stream: Stream, key: Key) returns (outcome: Outcome)
    requires stream.Valid() && stream.p == P && stream.At(key) == Empty
    modifies stream
    ensures stream.Valid() && stream.At(key) == Opened
    ensures Goes(1, Polls()[0], Empty, Opened, outcome) && outcome == Quiet
  {
    var poll := Polls()[0];
    outcome := stream.Process(key, poll.candles, 1, poll.accepted);
    FirstPoll(stream.At(key), outcome);
  }

  method PollSecond(stream: Stream, key: Key) returns (outcome: Outcome)
    requires stream.Valid() && stream.p == P && stream.At(key) == Opened
    modifies stream
    ensures stream.Valid() && stream.At(key) == Failed
    ensures Goes(1, Polls()[1], Opened, Failed, outcome) && outcome == Attempted(Card(), false)
  {
    var poll := Polls()[1];
    SecondPoll(Opened, Quiet);
    outcome := stream.Process(key, poll.candles, 1, poll.accepted);
    SecondPoll(stream.At(key), outcome);
  }

  method PollThird(stream: Stream, key: Key) returns (outcome: Outcome)
    requires stream.Valid() && stream.p == P && stream.At(key) == Failed
    modifies stream
    ensures stream.Valid() && IsForgotten(stream.At(key))
    ensures Goes(1, Polls()[2], Failed, stream.At(key), outcome) && outcome == Quiet
  {
    var poll := Polls()[2];
    ThirdPoll(Failed, Quiet);
    outcome := stream.Process(key, poll.candles, 1, poll.accepted);
    ThirdPoll(stream.At(key), outcome);
  }

  /** A run whose second poll attempts a card that fails, and whose third slides the window by one bar: the setup is
      still observed, one index further left, and although the service would now accept the card, nothing is attempted. */
  ghost predicate ForgetfulRun(slots: seq<Slot>, outcomes: seq<Outcome>) {
    && StreamRun(P, 1, Polls(), slots, outcomes)
    && outcomes == [Quiet, Attempted(Card(), false), Quiet]
    && slots[2] == Failed && IsForgotten(slots[3])
  }

  lemma ThreePollsAreARun(minutes: int, polls: seq<Poll>, a: Slot, b: Slot, c: Slot, first: Outcome, second: Outcome, third: Outcome)
    requires |polls| == 3
    requires Goes(minutes, polls[0], Empty, a, first) && Goes(minutes, polls[1], a, b, second) && Goes(minutes, polls[2], b, c, third)
    ensures StreamRun(P, minutes, polls, [Empty, a, b, c], [first, second, third])
  {
    var slots, outcomes := [Empty, a, b, c], [first, second, third];
    forall i | 0 <= i < 3 ensures StepAt(P, minutes, polls, slots, outcomes, i) {
      assert Goes(minutes, polls[i], slots[i], slots[i + 1], outcomes[i]);
    }
  }

  method PollAll(stream: Stream, key: Key) returns (ghost forgotten: Slot, outcomes: seq<Outcome>)
    requires stream.Valid() && stream.p == P && stream.At(key) == Empty
    modifies stream
    ensures outcomes == [Quiet, Attempted(Card(), false), Quiet] && IsForgotten(forgotten)
    ensures StreamRun(P, 1, Polls(), [Empty, Opened, Failed, forgotten], outcomes)
  {
    var first := PollFirst(stream, key);
    var second := PollSecond(stream, key);
    var third := PollThird(stream, key);
    forgotten := stream.At(key);
    ThreePollsAreARun(1, Polls(), Opened, Failed, forgotten, first, second, third);
    outcomes := [first, second, third];
  }

  method FailedCardIsForgotten() returns (ghost slots: seq<Slot>, outcomes: seq<Outcome>)
    ensures ForgetfulRun(slots, outcomes) && outcomes == [Quiet, Attempted(Card(), false), Quiet]
  {
    var stream := new Stream(P);
    ghost var forgotten;
    forgotten, outcomes := PollAll(stream, ("SYMBOL", "1"));
    slots := [Empty, Opened, Failed, forgotten];
  }
}
