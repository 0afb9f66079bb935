/**
  Breakout/retest lifecycle over frozen geometry: closed one-minute candles move a
  candidate from waiting for a breakout to a detected retest, or to expiry at the apex.
 */
module Lifecycle {
  import opened Market
  import opened Wrappers

  datatype Geometry = Geometry(direction: Direction, upper: Line, lower: Line, apex: real, currentIndex: int)

  datatype Candle = Candle(index: int, high: real, low: real, close: real)

  datatype Phase = WaitingBreakout | WaitingRetest | RetestDetected | ExpiredAtApex

  datatype Event = Initialized | NoTransition | Breakout | Retest | Expired | IgnoredStale | Resumed | TerminalState

  datatype State = State(phase: Phase, cursor: int, breakout: Option<int>, retest: Option<int>, lastEvent: Event)
  {
    predicate Terminal() {
      phase.RetestDetected? || phase.ExpiredAtApex?
    }
  }

  datatype LifecycleError = LowExceedsHigh | CursorBackwards

  predicate Reached(g: Geometry, index: int) {
    g.apex <= index as real
  }

  function PriceAt(line: Line, index: int): real {
    ValueAt(line, index as real)
  }

  /** The frozen line a candidate trades against. */
  function Boundary(g: Geometry, index: int): real {
    PriceAt(if g.direction.Long? then g.upper else g.lower, index)
  }

  predicate BreaksOut(g: Geometry, c: Candle) {
    if g.direction.Long? then c.close > Boundary(g, c.index) else c.close < Boundary(g, c.index)
  }

  predicate TouchesBoundary(g: Geometry, c: Candle) {
    if g.direction.Long? then c.low <= Boundary(g, c.index) else c.high >= Boundary(g, c.index)
  }

  function Initialize(g: Geometry): State {
    if Reached(g, g.currentIndex) then State(ExpiredAtApex, g.currentIndex, None, None, Expired)
    else State(WaitingBreakout, g.currentIndex, None, None, Initialized)
  }

  function ProcessCandle(g: Geometry, st: State, c: Candle): Result<(State, Event), LifecycleError> {
    if st.Terminal() then Success((st, TerminalState))
    else if c.index <= st.cursor then Success((st, IgnoredStale))
    else if c.low > c.high then Failure(LowExceedsHigh)
    else
      var moved := st.(cursor := c.index);
      if Reached(g, c.index) then
        Success((moved.(phase := ExpiredAtApex, lastEvent := Expired), Expired))
      else if st.phase.WaitingBreakout? then
        if BreaksOut(g, c) then
          Success((moved.(phase := WaitingRetest, breakout := Some(c.index), lastEvent := Breakout), Breakout))
        else Success((moved.(lastEvent := NoTransition), NoTransition))
      else
        if TouchesBoundary(g, c) then
          Success((moved.(phase := RetestDetected, retest := Some(c.index), lastEvent := Retest), Retest))
        else Success((moved.(lastEvent := NoTransition), NoTransition))
  }

  /** The cursor moves over missed candles without evaluating them. */
  function ResumeWithoutReplay(g: Geometry, st: State, latest: int): Result<(State, Event), LifecycleError> {
    if st.Terminal() then Success((st, TerminalState))
    else if latest < st.cursor then Failure(CursorBackwards)
    else if latest == st.cursor then Success((st, IgnoredStale))
    else
      var moved := st.(cursor := latest);
      if Reached(g, latest) then Success((moved.(phase := ExpiredAtApex, lastEvent := Expired), Expired))
      else Success((moved.(lastEvent := Resumed), Resumed))
  }

  // ----- replay -----

  predicate ValidCandles(cs: seq<Candle>) {
    forall i :: 0 <= i < |cs| ==> cs[i].low <= cs[i].high
  }

  /** State and events of a replay that stops at the first terminal state. */
  function Replayed(g: Geometry, st: State, cs: seq<Candle>): Result<(State, seq<Event>), LifecycleError>
    decreases |cs|
  {
    if cs == [] then Success((st, []))
    else
      match ProcessCandle(g, st, cs[0])
      case Failure(e) => Failure(e)
      case Success((next, event)) =>
        if next.Terminal() then Success((next, [event]))
        else
          match Replayed(g, next, cs[1..])
          case Failure(e) => Failure(e)
          case Success((final, events)) => Success((final, [event] + events))
  }

  method ReplayClosedCandles(g: Geometry, st: State, cs: seq<Candle>) returns (r: Result<(State, seq<Event>), LifecycleError>)
    ensures r == Replayed(g, st, cs)
  {
    var state := st;
    var events: seq<Event> := [];
    var i := 0;
    assert cs[0..] == cs;
    assert forall rest: seq<Event> :: events + rest == rest;
    while i < |cs|
      invariant 0 <= i <= |cs|
      invariant Replayed(g, st, cs) == match Replayed(g, state, cs[i..])
                                       case Failure(e) => Failure(e)
                                       case Success((final, rest)) => Success((final, events + rest))
    {
      var step := ProcessCandle(g, state, cs[i]);
      if step.Failure? {
        return Failure(step.error);
      }
      var before := events;
      state := step.value.0;
      events := events + [step.value.1];
      assert cs[i..][1..] == cs[i + 1..];
      if state.Terminal() {
        return Success((state, events));
      }
      assert forall rest: seq<Event> :: before + ([step.value.1] + rest) == events + rest;
      i := i + 1;
    }
    assert cs[i..] == [] && events + [] == events;
    return Success((state, events));
  }

  /** Final state of a replay of well-formed candles. */
  function Final(g: Geometry, st: State, cs: seq<Candle>): State
    requires ValidCandles(cs)
    decreases |cs|
  {
    if cs == [] then st
    else Final(g, ProcessCandle(g, st, cs[0]).value.0, cs[1..])
  }

  /** A terminal state absorbs every further candle, so stopping early loses nothing. */
  lemma {:induction false} TerminalAbsorbs(g: Geometry, st: State, cs: seq<Candle>)
    requires ValidCandles(cs) && st.Terminal()
    ensures Final(g, st, cs) == st
    decreases |cs|
  {
    if cs != [] {
      TerminalAbsorbs(g, st, cs[1..]);
    }
  }

  lemma {:induction false} ReplayEndsInFinal(g: Geometry, st: State, cs: seq<Candle>)
    requires ValidCandles(cs)
    ensures Replayed(g, st, cs).Success? && Replayed(g, st, cs).value.0 == Final(g, st, cs)
    decreases |cs|
  {
    if cs != [] {
      var next := ProcessCandle(g, st, cs[0]).value.0;
      if next.Terminal() {
        TerminalAbsorbs(g, next, cs[1..]);
      } else {
        ReplayEndsInFinal(g, next, cs[1..]);
      }
    }
  }

  /** Replay may be cut anywhere: the rest continues from the state reached. */
  lemma {:induction false} ReplaySplits(g: Geometry, st: State, a: seq<Candle>, b: seq<Candle>)
    requires ValidCandles(a) && ValidCandles(b)
    ensures ValidCandles(a + b)
    ensures Final(g, st, a + b) == Final(g, Final(g, st, a), b)
    decreases |a|
  {
    if a == [] {
      assert a + b == b;
    } else {
      ReplaySplits(g, ProcessCandle(g, st, a[0]).value.0, a[1..], b);
      assert (a + b)[1..] == a[1..] + b;
    }
  }

  // ----- what a replay means -----

  /** The candle is newer than the cursor and than every candle before it. */
  predicate Newest(cs: seq<Candle>, cursor: int, i: int)
    requires 0 <= i < |cs|
  {
    cursor < cs[i].index && forall j :: 0 <= j < i ==> cs[j].index < cs[i].index
  }

  predicate BreakAt(g: Geometry, cs: seq<Candle>, cursor: int, i: int)
    requires 0 <= i < |cs|
  {
    Newest(cs, cursor, i) && !Reached(g, cs[i].index) && BreaksOut(g, cs[i])
  }

  predicate TouchAt(g: Geometry, cs: seq<Candle>, cursor: int, i: int)
    requires 0 <= i < |cs|
  {
    Newest(cs, cursor, i) && !Reached(g, cs[i].index) && TouchesBoundary(g, cs[i])
  }

  predicate ApexAt(g: Geometry, cs: seq<Candle>, cursor: int, i: int)
    requires 0 <= i < |cs|
  {
    Newest(cs, cursor, i) && Reached(g, cs[i].index)
  }

  /** A breakout close, then a later touch, both by candles before the apex. */
  predicate HasRetest(g: Geometry, cs: seq<Candle>, cursor: int) {
    exists b, r :: 0 <= b < r < |cs| && BreakAt(g, cs, cursor, b) && TouchAt(g, cs, cursor, r)
  }

  predicate HasApex(g: Geometry, cs: seq<Candle>, cursor: int) {
    exists x :: 0 <= x < |cs| && ApexAt(g, cs, cursor, x)
  }

  predicate IsFirstBreak(g: Geometry, cs: seq<Candle>, cursor: int, b: int) {
    && 0 <= b < |cs| && BreakAt(g, cs, cursor, b)
    && forall j :: 0 <= j < b ==> !BreakAt(g, cs, cursor, j)
  }

  /** r is the first touch after the first breakout b. */
  predicate IsFirstRetest(g: Geometry, cs: seq<Candle>, cursor: int, b: int, r: int) {
    && IsFirstBreak(g, cs, cursor, b)
    && b < r < |cs| && TouchAt(g, cs, cursor, r)
    && forall j :: b < j < r ==> !TouchAt(g, cs, cursor, j)
  }

  /** The outcome candles should have from a state waiting for a breakout, read off the candles alone. */
  ghost predicate Outcome(g: Geometry, cs: seq<Candle>, cursor: int, s: State) {
    && (s.phase.RetestDetected? <==> HasRetest(g, cs, cursor))
    && (s.phase.ExpiredAtApex? <==> HasApex(g, cs, cursor) && !HasRetest(g, cs, cursor))
    && (s.breakout.None? ==> forall b :: 0 <= b < |cs| ==> !BreakAt(g, cs, cursor, b))
    && (s.breakout.Some? ==> exists b :: IsFirstBreak(g, cs, cursor, b) && s.breakout == Some(cs[b].index))
    && (s.phase.WaitingBreakout? ==> s.breakout.None?) && (s.phase.WaitingRetest? ==> s.breakout.Some?)
    && (s.retest.Some? <==> s.phase.RetestDetected?)
    && (s.retest.Some? ==> exists b, r :: IsFirstRetest(g, cs, cursor, b, r)
                                          && s.breakout == Some(cs[b].index) && s.retest == Some(cs[r].index))
  }

  /** What holds after the first n candles: the first breakout b and first retest r found so far, if any. */
  ghost predicate Progress(g: Geometry, cs: seq<Candle>, cursor: int, n: int, s: State, b: Option<int>, r: Option<int>)
    requires 0 <= n <= |cs|
  {
    && (b.Some? ==> b.value < n && IsFirstBreak(g, cs, cursor, b.value) && s.breakout == Some(cs[b.value].index))
    && (b.None? ==> s.breakout.None? && forall j :: 0 <= j < n ==> !BreakAt(g, cs, cursor, j))
    && (r.Some? ==> b.Some? && r.value < n && IsFirstRetest(g, cs, cursor, b.value, r.value)
                    && s.retest == Some(cs[r.value].index) && s.phase.RetestDetected?)
    && (r.None? ==> s.retest.None? && !s.phase.RetestDetected?
                    && (b.Some? ==> forall j :: b.value < j < n ==> !TouchAt(g, cs, cursor, j)))
    && (s.phase.WaitingBreakout? ==> b.None?) && (s.phase.WaitingRetest? ==> b.Some?)
    && (s.phase.ExpiredAtApex? ==> exists x :: 0 <= x < n && ApexAt(g, cs, cursor, x))
    && (!s.Terminal() ==> IsLatest(cs, cursor, n, s.cursor) && forall j :: 0 <= j < n ==> !ApexAt(g, cs, cursor, j))
  }

  /** The latest index seen in the first n candles, starting from the cursor. */
  ghost predicate IsLatest(cs: seq<Candle>, cursor: int, n: int, latest: int)
    requires 0 <= n <= |cs|
  {
    && cursor <= latest && (forall j :: 0 <= j < n ==> cs[j].index <= latest)
    && (latest == cursor || exists j :: 0 <= j < n && cs[j].index == latest)
  }

  lemma NewestIsPastLatest(cs: seq<Candle>, cursor: int, n: int, latest: int)
    requires 0 <= n < |cs| && IsLatest(cs, cursor, n, latest)
    ensures Newest(cs, cursor, n) <==> latest < cs[n].index
    ensures IsLatest(cs, cursor, n + 1, if latest < cs[n].index then cs[n].index else latest)
  {
  }

  lemma ProgressStep(g: Geometry, cs: seq<Candle>, cursor: int, n: int, s: State,
                     b: Option<int>, r: Option<int>) returns (b': Option<int>, r': Option<int>)
    requires ValidCandles(cs) && 0 <= n < |cs| && Progress(g, cs, cursor, n, s, b, r)
    ensures Progress(g, cs, cursor, n + 1, ProcessCandle(g, s, cs[n]).value.0, b', r')
  {
    b', r' := b, r;
    if s.phase.ExpiredAtApex? {
      var x :| 0 <= x < n && ApexAt(g, cs, cursor, x);
      assert Newest(cs, cursor, n) ==> cs[x].index < cs[n].index;
    } else if !s.Terminal() {
      NewestIsPastLatest(cs, cursor, n, s.cursor);
      if s.cursor < cs[n].index {
        b', r' := FreshStep(g, cs, cursor, n, s, b, r);
      }
    }
  }

  lemma FreshStep(g: Geometry, cs: seq<Candle>, cursor: int, n: int, s: State,
                  b: Option<int>, r: Option<int>) returns (b': Option<int>, r': Option<int>)
    requires ValidCandles(cs) && 0 <= n < |cs| && Progress(g, cs, cursor, n, s, b, r)
    requires !s.Terminal() && s.cursor < cs[n].index && Newest(cs, cursor, n)
    ensures Progress(g, cs, cursor, n + 1, ProcessCandle(g, s, cs[n]).value.0, b', r')
  {
    var next := ProcessCandle(g, s, cs[n]).value.0;
    b' := if b.None? && next.phase.WaitingRetest? then Some(n) else b;
    r' := if r.None? && next.phase.RetestDetected? then Some(n) else r;
    NewestIsPastLatest(cs, cursor, n, s.cursor);
    if next.phase.ExpiredAtApex? { assert ApexAt(g, cs, cursor, n); }
  }

  lemma {:induction false} ProgressThrough(g: Geometry, st: State, cs: seq<Candle>, n: int)
    returns (b: Option<int>, r: Option<int>)
    requires ValidCandles(cs) && 0 <= n <= |cs|
    requires st.phase.WaitingBreakout? && st.breakout.None? && st.retest.None?
    ensures ValidCandles(cs[..n]) && Progress(g, cs, st.cursor, n, Final(g, st, cs[..n]), b, r)
    decreases n
  {
    if n == 0 {
      b, r := None, None;
    } else {
      b, r := ProgressThrough(g, st, cs, n - 1);
      var s := Final(g, st, cs[..n - 1]);
      b, r := ProgressStep(g, cs, st.cursor, n - 1, s, b, r);
      assert cs[..n] == cs[..n - 1] + [cs[n - 1]];
      ReplaySplits(g, st, cs[..n - 1], [cs[n - 1]]);
      assert Final(g, s, [cs[n - 1]]) == ProcessCandle(g, s, cs[n - 1]).value.0;
    }
  }

  /** Replay from a waiting state has exactly the outcome its candles show. */
  lemma ReplayMeaning(g: Geometry, st: State, cs: seq<Candle>)
    requires ValidCandles(cs)
    requires st.phase.WaitingBreakout? && st.breakout.None? && st.retest.None?
    ensures Outcome(g, cs, st.cursor, Final(g, st, cs))
  {
    var b, r := ProgressThrough(g, st, cs, |cs|);
    assert cs[..|cs|] == cs;
    var s := Final(g, st, cs);
    if s.phase.ExpiredAtApex? {
      assert HasApex(g, cs, st.cursor);
    }
  }

  // ----- the same in prices -----

  /** Newer than the anchor and than every candle before it, and short of the apex. */
  predicate Counts(g: Geometry, cs: seq<Candle>, i: int)
    requires 0 <= i < |cs|
  {
    && g.currentIndex < cs[i].index && cs[i].index as real < g.apex
    && forall j :: 0 <= j < i ==> cs[j].index < cs[i].index
  }

  /** LONG: a close above the upper line; SHORT: below the lower one. */
  predicate ClosesOut(g: Geometry, c: Candle) {
    if g.direction.Long? then g.upper.slope * c.index as real + g.upper.intercept < c.close
    else c.close < g.lower.slope * c.index as real + g.lower.intercept
  }

  /** LONG: a low at or below the upper line; SHORT: a high at or above the lower one. */
  predicate ComesBack(g: Geometry, c: Candle) {
    if g.direction.Long? then c.low <= g.upper.slope * c.index as real + g.upper.intercept
    else g.lower.slope * c.index as real + g.lower.intercept <= c.high
  }

  predicate BrokenAndRetested(g: Geometry, cs: seq<Candle>, b: int, r: int) {
    0 <= b < r < |cs| && Counts(g, cs, b) && ClosesOut(g, cs[b]) && Counts(g, cs, r) && ComesBack(g, cs[r])
  }

  /** From the anchor, a replay detects a retest exactly when a candle closes out and a later one comes back, both before
      the apex; otherwise it expires exactly when the anchor or some newer candle is at or past the apex; and it waits for
      a retest only after a candle that closed out, and for the breakout only without one. */
  lemma ReplayInPrices(g: Geometry, cs: seq<Candle>)
    requires ValidCandles(cs)
    ensures InPrices(g, cs, Final(g, Initialize(g), cs).phase)
  {
    var st := Initialize(g);
    if Reached(g, g.currentIndex) {
      TerminalAbsorbs(g, st, cs);
    } else {
      ReplayMeaning(g, st, cs);
      OutcomeInPrices(g, cs, Final(g, st, cs));
    }
  }

  ghost predicate InPrices(g: Geometry, cs: seq<Candle>, phase: Phase) {
    && (phase.RetestDetected? <==> g.currentIndex as real < g.apex && exists b, r :: BrokenAndRetested(g, cs, b, r))
    && (phase.ExpiredAtApex? <==> !phase.RetestDetected? && (g.apex <= g.currentIndex as real || SomeAtApex(g, cs)))
    && (phase.WaitingRetest? ==> exists b :: BrokenAt(g, cs, b))
    && (phase.WaitingBreakout? ==> forall b :: !BrokenAt(g, cs, b))
  }

  predicate SomeAtApex(g: Geometry, cs: seq<Candle>) {
    exists x :: 0 <= x < |cs| && g.currentIndex < cs[x].index && g.apex <= cs[x].index as real
  }

  predicate BrokenAt(g: Geometry, cs: seq<Candle>, b: int) {
    0 <= b < |cs| && Counts(g, cs, b) && ClosesOut(g, cs[b])
  }

  lemma OutcomeInPrices(g: Geometry, cs: seq<Candle>, s: State)
    requires Outcome(g, cs, g.currentIndex, s) && g.currentIndex as real < g.apex
    ensures InPrices(g, cs, s.phase)
  {
    RetestIsBrokenAndRetested(g, cs);
    ApexIsReached(g, cs);
    if s.breakout.Some? {
      var b :| IsFirstBreak(g, cs, g.currentIndex, b) && s.breakout == Some(cs[b].index);
      CandleAgrees(g, cs, b);
    } else {
      forall b ensures !BrokenAt(g, cs, b) {
        if 0 <= b < |cs| { CandleAgrees(g, cs, b); }
      }
    }
  }

  lemma CandleAgrees(g: Geometry, cs: seq<Candle>, i: int)
    requires 0 <= i < |cs|
    ensures BreakAt(g, cs, g.currentIndex, i) <==> BrokenAt(g, cs, i)
    ensures TouchAt(g, cs, g.currentIndex, i) <==> Counts(g, cs, i) && ComesBack(g, cs[i])
  {
  }

  lemma RetestIsBrokenAndRetested(g: Geometry, cs: seq<Candle>)
    ensures HasRetest(g, cs, g.currentIndex) <==> exists b, r :: BrokenAndRetested(g, cs, b, r)
  {
    forall i | 0 <= i < |cs|
      ensures BreakAt(g, cs, g.currentIndex, i) <==> BrokenAt(g, cs, i)
      ensures TouchAt(g, cs, g.currentIndex, i) <==> Counts(g, cs, i) && ComesBack(g, cs[i])
    {
      CandleAgrees(g, cs, i);
    }
    if b, r :| 0 <= b < r < |cs| && BreakAt(g, cs, g.currentIndex, b) && TouchAt(g, cs, g.currentIndex, r) {
      assert BrokenAndRetested(g, cs, b, r);
    }
    if b, r :| BrokenAndRetested(g, cs, b, r) {
      assert BreakAt(g, cs, g.currentIndex, b) && TouchAt(g, cs, g.currentIndex, r);
    }
  }

  /** Some newer candle reaches the apex exactly when the first to do so is newer than all before it. */
  lemma ApexIsReached(g: Geometry, cs: seq<Candle>)
    ensures HasApex(g, cs, g.currentIndex) <==> SomeAtApex(g, cs)
  {
    if x :| 0 <= x < |cs| && g.currentIndex < cs[x].index && g.apex <= cs[x].index as real {
      var first := FirstAtApex(g, cs, x);
      assert ApexAt(g, cs, g.currentIndex, first);
    }
  }

  lemma {:induction false} FirstAtApex(g: Geometry, cs: seq<Candle>, x: int) returns (first: int)
    requires 0 <= x < |cs| && g.currentIndex < cs[x].index && g.apex <= cs[x].index as real
    ensures 0 <= first <= x && ApexAt(g, cs, g.currentIndex, first)
    decreases x
  {
    if j :| 0 <= j < x && cs[x].index <= cs[j].index {
      first := FirstAtApex(g, cs, j);
    } else {
      first := x;
    }
  }

  /** Only an inverted candle that would be read is an error. */
  lemma ErrorIsInverted(g: Geometry, st: State, c: Candle)
    ensures ProcessCandle(g, st, c).Failure? <==>
            !st.phase.RetestDetected? && !st.phase.ExpiredAtApex? && st.cursor < c.index && c.high < c.low
  {
  }

  // ----- stale candles -----

  /** The candles that are newer than everything before them. */
  function Records(cs: seq<Candle>, cursor: int): (f: seq<Candle>)
    ensures ValidCandles(cs) ==> ValidCandles(f)
    decreases |cs|
  {
    if cs == [] then []
    else if cs[0].index <= cursor then Records(cs[1..], cursor)
    else [cs[0]] + Records(cs[1..], cs[0].index)
  }

  /** Stale and repeated candles never influence the result. */
  lemma {:induction false} StaleCandlesAreNoOps(g: Geometry, st: State, cs: seq<Candle>)
    requires ValidCandles(cs)
    ensures Final(g, st, cs) == Final(g, st, Records(cs, st.cursor))
    decreases |cs|
  {
    if cs != [] {
      var next := ProcessCandle(g, st, cs[0]).value.0;
      if cs[0].index <= st.cursor {
        StaleCandlesAreNoOps(g, st, cs[1..]);
      } else {
        var tail := Records(cs[1..], cs[0].index);
        assert Records(cs, st.cursor) == [cs[0]] + tail;
        assert ([cs[0]] + tail)[1..] == tail;
        if st.Terminal() {
          TerminalAbsorbs(g, st, cs);
          TerminalAbsorbs(g, st, Records(cs, st.cursor));
        } else {
          StaleCandlesAreNoOps(g, next, cs[1..]);
        }
      }
    }
  }

  // ----- every reachable state -----

  datatype Input = Closed(candle: Candle) | Restart(latest: int)

  /** A rejected input leaves the stored state as it was. */
  function Accept(g: Geometry, st: State, input: Input): State {
    var r := if input.Closed? then ProcessCandle(g, st, input.candle) else ResumeWithoutReplay(g, st, input.latest);
    if r.Success? then r.value.0 else st
  }

  function Run(g: Geometry, inputs: seq<Input>): State {
    if inputs == [] then Initialize(g)
    else Accept(g, Run(g, inputs[..|inputs| - 1]), inputs[|inputs| - 1])
  }

  predicate Ordered(g: Geometry, s: State) {
    && (s.phase.WaitingBreakout? ==> s.breakout.None? && s.retest.None?)
    && (s.phase.WaitingRetest? ==> s.breakout.Some? && s.retest.None?)
    && (s.phase.RetestDetected? ==> s.breakout.Some? && s.retest.Some?)
    && (s.phase.ExpiredAtApex? <==> Reached(g, s.cursor))
    && (s.phase.ExpiredAtApex? ==> s.retest.None?)
    && g.currentIndex <= s.cursor
    && (s.breakout.Some? ==> g.currentIndex < s.breakout.value <= s.cursor && !Reached(g, s.breakout.value))
    && (s.retest.Some? ==> s.breakout.Some? && s.breakout.value < s.retest.value == s.cursor && !Reached(g, s.retest.value))
  }

  /** From initialization, through any candles and restarts in any order, a detected retest lies strictly
      after its breakout, the breakout strictly after the anchor, and both before the apex. */
  lemma {:induction false} RunsStayOrdered(g: Geometry, inputs: seq<Input>)
    ensures Ordered(g, Run(g, inputs))
  {
    if inputs != [] {
      RunsStayOrdered(g, inputs[..|inputs| - 1]);
    }
  }

  /** Once terminal, no continuation of the run changes the state. */
  lemma {:induction false} TerminalIsForever(g: Geometry, inputs: seq<Input>, more: seq<Input>)
    requires Run(g, inputs).Terminal()
    ensures Run(g, inputs + more) == Run(g, inputs)
    decreases |more|
  {
    if more == [] {
      assert inputs + more == inputs;
    } else {
      TerminalIsForever(g, inputs, more[..|more| - 1]);
      assert (inputs + more)[..|inputs + more| - 1] == inputs + more[..|more| - 1];
    }
  }

  // ----- what a restart skips -----

  /** What holds after the first n candles from a state waiting for its retest. */
  ghost predicate RetestProgress(g: Geometry, cs: seq<Candle>, cursor: int, n: int, s: State)
    requires 0 <= n <= |cs|
  {
    && !s.phase.WaitingBreakout?
    && (s.phase.RetestDetected? <==> exists r :: 0 <= r < n && TouchAt(g, cs, cursor, r))
    && (s.phase.ExpiredAtApex? ==> exists x :: 0 <= x < n && ApexAt(g, cs, cursor, x))
    && (!s.Terminal() ==> IsLatest(cs, cursor, n, s.cursor) && forall j :: 0 <= j < n ==> !ApexAt(g, cs, cursor, j))
  }

  lemma RetestStep(g: Geometry, cs: seq<Candle>, cursor: int, n: int, s: State)
    requires ValidCandles(cs) && 0 <= n < |cs| && RetestProgress(g, cs, cursor, n, s)
    ensures RetestProgress(g, cs, cursor, n + 1, ProcessCandle(g, s, cs[n]).value.0)
  {
    var next := ProcessCandle(g, s, cs[n]).value.0;
    if s.phase.ExpiredAtApex? {
      var x :| 0 <= x < n && ApexAt(g, cs, cursor, x);
      assert Newest(cs, cursor, n) ==> cs[x].index < cs[n].index;
    } else if !s.Terminal() {
      NewestIsPastLatest(cs, cursor, n, s.cursor);
      if next.phase.ExpiredAtApex? { assert ApexAt(g, cs, cursor, n); }
      if next.phase.RetestDetected? { assert TouchAt(g, cs, cursor, n); }
    }
  }

  lemma {:induction false} RetestThrough(g: Geometry, st: State, cs: seq<Candle>, n: int)
    requires ValidCandles(cs) && 0 <= n <= |cs| && st.phase.WaitingRetest?
    ensures ValidCandles(cs[..n]) && RetestProgress(g, cs, st.cursor, n, Final(g, st, cs[..n]))
    decreases n
  {
    if n > 0 {
      RetestThrough(g, st, cs, n - 1);
      var s := Final(g, st, cs[..n - 1]);
      RetestStep(g, cs, st.cursor, n - 1, s);
      assert cs[..n] == cs[..n - 1] + [cs[n - 1]];
      ReplaySplits(g, st, cs[..n - 1], [cs[n - 1]]);
      assert Final(g, s, [cs[n - 1]]) == ProcessCandle(g, s, cs[n - 1]).value.0;
    }
  }

  predicate HasBreak(g: Geometry, cs: seq<Candle>, cursor: int) {
    exists b :: 0 <= b < |cs| && BreakAt(g, cs, cursor, b)
  }

  predicate HasTouch(g: Geometry, cs: seq<Candle>, cursor: int) {
    exists r :: 0 <= r < |cs| && TouchAt(g, cs, cursor, r)
  }

  /** The skipped candles held an event that changes the phase the restart leaves behind. */
  predicate SkipsEvent(g: Geometry, st: State, cs: seq<Candle>)
    requires cs != []
  {
    if st.phase.WaitingRetest? then HasTouch(g, cs, st.cursor)
    else if Reached(g, cs[|cs| - 1].index) then HasRetest(g, cs, st.cursor)
    else HasBreak(g, cs, st.cursor)
  }

  /** Jumping over missed candles to the newest of them ends in the phase of replaying them exactly when they held
      no touch (waiting for the retest), no breakout (waiting for it, before the apex), or no breakout followed by a
      retest (waiting for it, at the apex). */
  lemma RestartAgreesUnlessSkipped(g: Geometry, st: State, cs: seq<Candle>)
    requires ValidCandles(cs) && cs != [] && Newest(cs, st.cursor, |cs| - 1)
    requires st.phase.WaitingRetest? || (st.phase.WaitingBreakout? && st.breakout.None? && st.retest.None?)
    ensures var resumed := ResumeWithoutReplay(g, st, cs[|cs| - 1].index);
            && resumed.Success?
            && (resumed.value.0.phase == Final(g, st, cs).phase <==> !SkipsEvent(g, st, cs))
  {
    var n := |cs| - 1;
    assert Reached(g, cs[n].index) ==> ApexAt(g, cs, st.cursor, n);
    assert !Reached(g, cs[n].index) ==> forall j :: 0 <= j < |cs| ==> !ApexAt(g, cs, st.cursor, j);
    if st.phase.WaitingRetest? {
      RetestThrough(g, st, cs, |cs|);
      assert cs[..|cs|] == cs;
    } else {
      ReplayMeaning(g, st, cs);
    }
  }
}
