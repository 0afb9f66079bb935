/**
  The Robot's side of the L-shape contract: which frozen plans it accepts, the
  horizontal retest machine, and the reward/risk gate in front of the retest order.
 */
module LShapeRobot {
  import opened Market
  import opened Wrappers
  import opened LShape
  import A = Arithmetic

  datatype Terms = Terms(direction: Direction, breakoutTime: int, reference: real, target: real, stop: real)

  datatype TermsError = NotPositive | InvalidGeometry | PotentialTooLow | RewardRiskTooLow

  /** `frozen_terms` on the snapshot the Scanner builds from a plan. */
  function FrozenTerms(d: Direction, breakoutTime: int, plan: Plan): Result<Terms, TermsError> {
    if plan.reference <= 0.0 || plan.target <= 0.0 || plan.stop <= 0.0 || plan.structuralStop <= 0.0
      || plan.potential <= 0.0 || plan.rewardRisk <= 0.0 then Failure(NotPositive)
    else if !(if d.Long? then plan.stop < plan.reference < plan.target else plan.target < plan.reference < plan.stop)
      then Failure(InvalidGeometry)
    else if plan.potential < MIN_POTENTIAL_PERCENT then Failure(PotentialTooLow)
    else if plan.rewardRisk < MIN_REWARD_RISK then Failure(RewardRiskTooLow)
    else Success(Terms(d, breakoutTime, plan.reference, plan.target, plan.stop))
  }

  /** Why a snapshot is refused, in the order of the checks. */
  lemma TermsErrors(d: Direction, breakoutTime: int, plan: Plan)
    ensures var r := FrozenTerms(d, breakoutTime, plan);
            var positive := 0.0 < plan.reference && 0.0 < plan.target && 0.0 < plan.stop && 0.0 < plan.structuralStop
                            && 0.0 < plan.potential && 0.0 < plan.rewardRisk;
            var ordered := if d.Long? then plan.stop < plan.reference < plan.target else plan.target < plan.reference < plan.stop;
            && (r == Failure(NotPositive) <==> !positive)
            && (r == Failure(InvalidGeometry) <==> positive && !ordered)
            && (r == Failure(PotentialTooLow) <==> positive && ordered && plan.potential < 0.8)
            && (r == Failure(RewardRiskTooLow) <==> positive && ordered && 0.8 <= plan.potential && plan.rewardRisk < 2.0)
            && (r.Success? ==> r.value == Terms(d, breakoutTime, plan.reference, plan.target, plan.stop))
  {
  }

  /** The target lies ahead of the breakout level, and a structural STOP lies behind it. */
  predicate Oriented(f: Formation)
    requires f.level != 0.0
  {
    && 0.0 < Signed(f.direction, f.target - f.level)
    && (SignalPlan(f).kind.Structural? ==> 0.0 < Signed(f.direction, f.level - f.troughExtreme))
  }

  /** For every figure with positive prices the Robot accepts the plan exactly when the Scanner
      calls it eligible and the figure is oriented. */
  lemma RobotAcceptsEligiblePlans(f: Formation, breakoutTime: int)
    requires 0.0 < f.level && 0.0 < f.target && 0.0 < f.troughExtreme
    ensures FrozenTerms(f.direction, breakoutTime, SignalPlan(f)).Success? <==>
            SignalPlan(f).rejection == None && Oriented(f)
  {
  }

  /** Every figure the detector builds is oriented, so there the two sides agree outright. */
  lemma DetectedFiguresAgree(rows: seq<Row>, atr: real, p: Parameters, d: Direction, e: int,
                             breakout: int, breakoutTime: int)
    requires ValidRows(rows) && ValidParameters(p) && 0 <= e && e + 1 < breakout < |rows|
    requires Qualify(rows, atr, p, d, e, breakout).Some?
    ensures var f := Qualify(rows, atr, p, d, e, breakout).value;
            && f.level != 0.0
            && (FrozenTerms(d, breakoutTime, SignalPlan(f)).Success? <==> SignalPlan(f).rejection == None)
            && (SignalPlan(f).rejection == None <==> MIN_POTENTIAL_PERCENT * f.level <= 100.0 * f.depth)
  {
    var f := Qualify(rows, atr, p, d, e, breakout).value;
    FormationIsShaped(rows, atr, p, d, e, breakout);
    PlanIsAlwaysTheFallback(f);
    RobotAcceptsEligiblePlans(f, breakoutTime);
  }

  // ----- the retest machine -----

  datatype Candle = Candle(time: int, high: real, low: real)

  datatype Phase = WaitingRetest | RetestDetected | Invalidated

  datatype Event = Initialized | NoTransition | Retest | TargetReached | StopReached | BothReached | IgnoredStale | Terminal

  datatype State = State(phase: Phase, cursor: int, retestTime: Option<int>, lastEvent: Event)

  /** `frozen_terms` admits only ordered prices. */
  predicate Ordered(t: Terms) {
    if t.direction.Long? then t.stop < t.reference < t.target else t.target < t.reference < t.stop
  }

  /** Candle parsing admits only positive prices with low at most high. */
  predicate ValidCandle(c: Candle) {
    0.0 < c.low <= c.high
  }

  predicate HitsTarget(t: Terms, c: Candle) {
    if t.direction.Long? then c.high >= t.target else c.low <= t.target
  }

  predicate HitsStop(t: Terms, c: Candle) {
    if t.direction.Long? then c.low <= t.stop else c.high >= t.stop
  }

  predicate Touches(t: Terms, c: Candle) {
    if t.direction.Long? then c.low <= t.reference else c.high >= t.reference
  }

  function Invalidation(t: Terms, c: Candle): Option<Event> {
    if HitsTarget(t, c) && HitsStop(t, c) then Some(BothReached)
    else if HitsTarget(t, c) then Some(TargetReached)
    else if HitsStop(t, c) then Some(StopReached)
    else None
  }

  function Initialize(t: Terms): State {
    State(WaitingRetest, t.breakoutTime, None, Initialized)
  }

  /** The candle crosses the level, strictly inside the STOP and the target. */
  predicate CrossesLevelOnly(t: Terms, c: Candle) {
    if t.direction.Long? then t.stop < c.low <= t.reference && c.high < t.target
    else t.target < c.low && t.reference <= c.high < t.stop
  }

  /** The candle stays strictly between the level and the target. */
  predicate StaysBeyondLevel(t: Terms, c: Candle) {
    if t.direction.Long? then t.reference < c.low && c.high < t.target else t.target < c.low && c.high < t.reference
  }

  /** One closed candle. Only a waiting machine reads it, and only if it is newer than the cursor; then the cursor
      moves to it, and its range alone decides between retest, waiting on, and invalidation. */
  method ProcessClosedCandle(t: Terms, st: State, c: Candle) returns (next: State, event: Event)
    requires ValidCandle(c) && Ordered(t)
    ensures (next, event) == Process(t, st, c)
    ensures !st.phase.WaitingRetest? || c.time <= st.cursor ==> next == st && (event == Terminal || event == IgnoredStale)
    ensures st.phase.WaitingRetest? && st.cursor < c.time ==>
      && next.cursor == c.time && next.lastEvent == event
      && (next.phase.RetestDetected? <==> CrossesLevelOnly(t, c))
      && (next.phase.WaitingRetest? <==> StaysBeyondLevel(t, c))
      && next.retestTime == (if CrossesLevelOnly(t, c) then Some(c.time) else st.retestTime)
  {
    next := st;
    if st.phase != WaitingRetest {
      return next, Terminal;
    }
    if c.time <= next.cursor {
      return next, IgnoredStale;
    }
    next := next.(cursor := c.time);
    var invalidated := Invalidation(t, c);
    if invalidated.Some? {
      next := next.(phase := Invalidated, lastEvent := invalidated.value);
      return next, invalidated.value;
    }
    if Touches(t, c) {
      next := next.(phase := RetestDetected, retestTime := Some(c.time), lastEvent := Retest);
      return next, Retest;
    }
    next := next.(lastEvent := NoTransition);
    return next, NoTransition;
  }

  function Process(t: Terms, st: State, c: Candle): (State, Event) {
    if !st.phase.WaitingRetest? then (st, Terminal)
    else if c.time <= st.cursor then (st, IgnoredStale)
    else match Invalidation(t, c)
      case Some(reason) => (State(Invalidated, c.time, st.retestTime, reason), reason)
      case None =>
        if Touches(t, c) then (State(RetestDetected, c.time, Some(c.time), Retest), Retest)
        else (State(WaitingRetest, c.time, st.retestTime, NoTransition), NoTransition)
  }

  /** One candle that is read, in prices: what its range reaches decides the phase and the event. */
  lemma CandleInPrices(t: Terms, st: State, c: Candle)
    requires st.phase.WaitingRetest? && st.cursor < c.time
    ensures var (next, event) := Process(t, st, c);
            var stopped := if t.direction.Long? then c.low <= t.stop else t.stop <= c.high;
            var gained := if t.direction.Long? then t.target <= c.high else c.low <= t.target;
            var touched := if t.direction.Long? then c.low <= t.reference else t.reference <= c.high;
            && next.cursor == c.time && next.lastEvent == event
            && (next.phase == if stopped || gained then Invalidated else if touched then RetestDetected else WaitingRetest)
            && (event == if stopped && gained then BothReached else if gained then TargetReached else if stopped then StopReached
                         else if touched then Retest else NoTransition)
            && next.retestTime == (if touched && !stopped && !gained then Some(c.time) else st.retestTime)
  {
  }

  /** Candles a run reads: later than the breakout and than every candle before. */
  predicate IsRead(t: Terms, cs: seq<Candle>, i: int)
    requires 0 <= i < |cs|
  {
    t.breakoutTime < cs[i].time && forall j :: 0 <= j < i ==> cs[j].time < cs[i].time
  }

  predicate ReachesAny(t: Terms, c: Candle) {
    if t.direction.Long? then c.low <= t.stop || t.target <= c.high || c.low <= t.reference
    else t.stop <= c.high || c.low <= t.target || t.reference <= c.high
  }

  /** It reaches the level and neither the STOP nor the target. */
  predicate ReachesLevelOnly(t: Terms, c: Candle) {
    if t.direction.Long? then t.stop < c.low <= t.reference && c.high < t.target
    else t.reference <= c.high < t.stop && t.target < c.low
  }

  predicate FirstToReach(t: Terms, cs: seq<Candle>, i: int) {
    && 0 <= i < |cs| && IsRead(t, cs, i) && ReachesAny(t, cs[i])
    && forall j :: 0 <= j < i && IsRead(t, cs, j) ==> !ReachesAny(t, cs[j])
  }

  /** A whole run, in prices: it waits exactly while no candle read reaches any of the three prices; the first that does
      leaves a retest exactly when it reaches the level alone. */
  lemma RunInPrices(t: Terms, cs: seq<Candle>)
    ensures var st := Run(t, cs);
            && (st.phase.WaitingRetest? <==> forall i :: 0 <= i < |cs| && IsRead(t, cs, i) ==> !ReachesAny(t, cs[i]))
            && (st.phase.RetestDetected? <==>
                  exists i :: FirstToReach(t, cs, i) && ReachesLevelOnly(t, cs[i]))
            && (st.phase.RetestDetected? ==> exists i :: FirstToReach(t, cs, i) && st.retestTime == Some(cs[i].time))
  {
    var st := Run(t, cs);
    RunMeaning(t, cs);
    forall i | 0 <= i < |cs|
      ensures IsRead(t, cs, i) <==> IsFresh(t, cs, i)
      ensures ReachesAny(t, cs[i]) <==> Decides(t, cs[i])
      ensures ReachesLevelOnly(t, cs[i]) <==> Invalidation(t, cs[i]).None? && Touches(t, cs[i])
    {
    }
    if !st.phase.WaitingRetest? {
      var i :| 0 <= i < |cs| && IsDecision(t, cs, i) && Decided(t, cs[i], st);
      assert FirstToReach(t, cs, i);
      forall k | FirstToReach(t, cs, k) ensures k == i {
        assert IsDecision(t, cs, k);
        DecisionIsUnique(t, cs, i, k);
      }
    } else {
      forall k ensures !FirstToReach(t, cs, k) {}
    }
  }

  function Run(t: Terms, cs: seq<Candle>): State {
    if cs == [] then Initialize(t) else Process(t, Run(t, cs[..|cs| - 1]), cs[|cs| - 1]).0
  }

  /** Later than the breakout and than every candle before it: the only candles that are read. */
  predicate IsFresh(t: Terms, cs: seq<Candle>, i: int)
    requires 0 <= i < |cs|
  {
    t.breakoutTime < cs[i].time && forall j :: 0 <= j < i ==> cs[j].time < cs[i].time
  }

  predicate Decides(t: Terms, c: Candle) {
    HitsTarget(t, c) || HitsStop(t, c) || Touches(t, c)
  }

  /** The first fresh candle that reaches any of the three prices. */
  predicate IsDecision(t: Terms, cs: seq<Candle>, i: int)
    requires 0 <= i < |cs|
  {
    && IsFresh(t, cs, i) && Decides(t, cs[i])
    && forall j :: 0 <= j < i && IsFresh(t, cs, j) ==> !Decides(t, cs[j])
  }

  predicate Undecided(t: Terms, cs: seq<Candle>) {
    forall j :: 0 <= j < |cs| && IsFresh(t, cs, j) ==> !Decides(t, cs[j])
  }

  ghost predicate IsLatestTime(since: int, cs: seq<Candle>, cursor: int) {
    && since <= cursor && (forall j :: 0 <= j < |cs| ==> cs[j].time <= cursor)
    && (cursor == since || exists j :: 0 <= j < |cs| && cs[j].time == cursor)
  }

  /** No fresh candle has decided, and the cursor is the latest time seen. */
  ghost predicate StillWaiting(t: Terms, cs: seq<Candle>, cursor: int) {
    Undecided(t, cs) && IsLatestTime(t.breakoutTime, cs, cursor)
  }

  /** What the deciding candle makes of the run. */
  predicate Decided(t: Terms, c: Candle, st: State) {
    match Invalidation(t, c)
    case None => st.phase.RetestDetected? && st.retestTime == Some(c.time)
    case Some(reason) => st.phase.Invalidated? && st.lastEvent == reason
  }

  /** What a run means, without stepping through it. */
  ghost predicate Meaning(t: Terms, cs: seq<Candle>, st: State) {
    if st.phase.WaitingRetest? then StillWaiting(t, cs, st.cursor)
    else exists i :: 0 <= i < |cs| && IsDecision(t, cs, i) && Decided(t, cs[i], st)
  }

  /** Every run ends as its first deciding fresh candle says: RETEST when that candle only touches
      the level, INVALIDATED when it also reaches the STOP or the target, WAITING when there is none. */
  lemma {:induction false} RunMeaning(t: Terms, cs: seq<Candle>)
    ensures Meaning(t, cs, Run(t, cs))
  {
    if cs != [] {
      var n := |cs| - 1;
      RunMeaning(t, cs[..n]);
      StepMeaning(t, cs, Run(t, cs[..n]));
    }
  }

  lemma StepMeaning(t: Terms, cs: seq<Candle>, st: State)
    requires cs != [] && Meaning(t, cs[..|cs| - 1], st)
    ensures Meaning(t, cs, Process(t, st, cs[|cs| - 1]).0)
  {
    var n := |cs| - 1;
    if st.phase.WaitingRetest? {
      WaitingStep(t, cs, st);
    } else {
      var i :| 0 <= i < n && IsDecision(t, cs[..n], i) && Decided(t, cs[..n][i], st);
      FreshInPrefix(t, cs, n);
      assert IsDecision(t, cs, i) && Decided(t, cs[i], st);
    }
  }

  lemma WaitingStep(t: Terms, cs: seq<Candle>, st: State)
    requires cs != [] && st.phase.WaitingRetest? && StillWaiting(t, cs[..|cs| - 1], st.cursor)
    ensures Meaning(t, cs, Process(t, st, cs[|cs| - 1]).0)
  {
    var n := |cs| - 1;
    FreshInPrefix(t, cs, n);
    FreshIsPastCursor(t, cs, st.cursor);
    var next := Process(t, st, cs[n]).0;
    if IsFresh(t, cs, n) && Decides(t, cs[n]) {
      assert IsDecision(t, cs, n) && Decided(t, cs[n], next);
    } else {
      assert next.phase.WaitingRetest?;
      StaysUndecided(t, cs);
      CursorIsLatest(t.breakoutTime, cs, st.cursor);
    }
  }

  lemma StaysUndecided(t: Terms, cs: seq<Candle>)
    requires cs != [] && Undecided(t, cs[..|cs| - 1])
    requires IsFresh(t, cs, |cs| - 1) ==> !Decides(t, cs[|cs| - 1])
    ensures Undecided(t, cs)
  {
    var n := |cs| - 1;
    FreshInPrefix(t, cs, n);
    forall j | 0 <= j < |cs| && IsFresh(t, cs, j) ensures !Decides(t, cs[j]) {
      if j < n { assert IsFresh(t, cs[..n], j); }
    }
  }

  lemma CursorIsLatest(since: int, cs: seq<Candle>, cursor: int)
    requires cs != [] && IsLatestTime(since, cs[..|cs| - 1], cursor)
    ensures IsLatestTime(since, cs, if cs[|cs| - 1].time <= cursor then cursor else cs[|cs| - 1].time)
  {
    var n := |cs| - 1;
    assert forall j :: 0 <= j < n ==> cs[..n][j] == cs[j];
    if cs[n].time <= cursor && cursor != since {
      var j :| 0 <= j < n && cs[..n][j].time == cursor;
      assert cs[j].time == cursor;
    }
  }

  lemma FreshIsPastCursor(t: Terms, cs: seq<Candle>, cursor: int)
    requires cs != [] && StillWaiting(t, cs[..|cs| - 1], cursor)
    ensures IsFresh(t, cs, |cs| - 1) <==> cursor < cs[|cs| - 1].time
  {
    var n := |cs| - 1;
    assert forall j :: 0 <= j < n ==> cs[..n][j] == cs[j];
    if cursor != t.breakoutTime {
      var j :| 0 <= j < n && cs[..n][j].time == cursor;
      assert cs[j].time == cursor;
    }
  }

  lemma FreshInPrefix(t: Terms, cs: seq<Candle>, n: int)
    requires 0 <= n <= |cs|
    ensures forall j :: 0 <= j < n ==> (IsFresh(t, cs[..n], j) <==> IsFresh(t, cs, j))
  {
  }

  lemma DecisionIsUnique(t: Terms, cs: seq<Candle>, i: int, j: int)
    requires 0 <= i < |cs| && 0 <= j < |cs| && IsDecision(t, cs, i) && IsDecision(t, cs, j)
    ensures i == j
  {
  }

  /** A run that reaches RETEST_DETECTED saw no fresh candle at the STOP or the target up to and
      including the retest candle, whose range crosses the level strictly inside them. */
  lemma RetestSawNoStopOrTarget(t: Terms, cs: seq<Candle>) returns (i: int)
    requires Ordered(t) && (forall k :: 0 <= k < |cs| ==> ValidCandle(cs[k]))
    requires Run(t, cs).phase.RetestDetected?
    ensures 0 <= i < |cs| && Run(t, cs).retestTime == Some(cs[i].time)
    ensures forall k :: 0 <= k <= i && IsFresh(t, cs, k) ==> !HitsStop(t, cs[k]) && !HitsTarget(t, cs[k])
    ensures if t.direction.Long? then t.stop < cs[i].low <= t.reference && cs[i].high < t.target
            else t.target < cs[i].low && t.reference <= cs[i].high < t.stop
    ensures forall k :: 0 <= k < i && IsFresh(t, cs, k) ==> !Touches(t, cs[k])
  {
    RunMeaning(t, cs);
    i :| 0 <= i < |cs| && IsDecision(t, cs, i) && Decided(t, cs[i], Run(t, cs));
  }

  /** Conversely the phase is decided by the first deciding candle alone. */
  lemma DecisionFixesPhase(t: Terms, cs: seq<Candle>, i: int)
    requires 0 <= i < |cs| && IsDecision(t, cs, i)
    ensures Run(t, cs).phase == if Invalidation(t, cs[i]) == None then RetestDetected else Invalidated
  {
    RunMeaning(t, cs);
    var st := Run(t, cs);
    if !st.phase.WaitingRetest? {
      var j :| 0 <= j < |cs| && IsDecision(t, cs, j) && Decided(t, cs[j], st);
      DecisionIsUnique(t, cs, i, j);
    }
  }

  // ----- the entry gate -----

  function FloorTo(x: real, tick: real): real
    requires 0.0 < tick
  {
    (x / tick).Floor as real * tick
  }

  function CeilTo(x: real, tick: real): real
    requires 0.0 < tick
  {
    Ceiling(x / tick) as real * tick
  }

  lemma FloorWithinATick(x: real, tick: real)
    requires 0.0 < tick
    ensures x - tick < FloorTo(x, tick) <= x
  {
    var steps := x / tick;
    Rounding(x, steps, steps.Floor as real, tick);
  }

  lemma CeilWithinATick(x: real, tick: real)
    requires 0.0 < tick
    ensures x <= CeilTo(x, tick) < x + tick
  {
    var steps := x / tick;
    var lower := (-steps).Floor as real;
    A.DivideBack(x, tick);
    A.Negates(steps, tick);
    Rounding(-x, -steps, lower, tick);
    A.Negates(lower, tick);
    var ceiling := Ceiling(steps) as real;
    assert ceiling == -lower;
    A.Commutes(ceiling, tick);
    A.Commutes(-lower, tick);
    A.TimesTo(tick, ceiling, -lower);
  }

  lemma Rounding(x: real, steps: real, whole: real, tick: real)
    requires 0.0 < tick && steps * tick == x && whole <= steps < whole + 1.0
    ensures x - tick < whole * tick <= x
  {
    var slack := steps - whole;
    assert slack * tick == x - whole * tick;
    assert (1.0 - slack) * tick == tick - slack * tick;
    assert 0.0 <= slack * tick && 0.0 < (1.0 - slack) * tick;
  }

  /** The retest LIMIT: two ticks through the level, rounded back towards it. */
  function LimitPrice(t: Terms, tick: real): Option<real>
    requires 0.0 < tick
  {
    var raw := t.reference + Signed(t.direction, 2.0 * tick);
    if raw <= 0.0 then None
    else Some(if t.direction.Long? then FloorTo(raw, tick) else CeilTo(raw, tick))
  }

  function NetReward(t: Terms, entry: real, fee: real): real {
    Signed(t.direction, t.target - entry) - entry * fee - t.target * fee
  }

  function NetRisk(t: Terms, entry: real, fee: real): real {
    Signed(t.direction, entry - t.stop) + entry * fee + t.stop * fee
  }

  /** Fee-aware reward/risk of an entry; none when fees leave no positive side. */
  function NetRewardRisk(t: Terms, entry: real, fee: real): Option<real> {
    var reward, risk := NetReward(t, entry, fee), NetRisk(t, entry, fee);
    if reward <= 0.0 || risk <= 0.0 then None else Some(reward / risk)
  }

  /** The monitor places the retest order only behind this gate. */
  predicate EntryAllowed(t: Terms, tick: real, fee: real)
    requires 0.0 < tick
  {
    var entry := LimitPrice(t, tick);
    && entry.Some? && 0.0 < entry.value
    && var rr := NetRewardRisk(t, entry.value, fee);
       rr.Some? && MIN_REWARD_RISK <= rr.value
  }

  /** The LIMIT is always past the level, towards the target. */
  lemma LimitIsThroughTheLevel(t: Terms, tick: real)
    requires 0.0 < tick && LimitPrice(t, tick).Some?
    ensures tick < Signed(t.direction, LimitPrice(t, tick).value - t.reference) <= 2.0 * tick
  {
    var raw := t.reference + Signed(t.direction, 2.0 * tick);
    if t.direction.Long? { FloorWithinATick(raw, tick); } else { CeilWithinATick(raw, tick); }
  }

  /** Only a SHORT level within two ticks of nothing has no LIMIT. */
  lemma LimitExists(t: Terms, tick: real)
    requires 0.0 < tick
    ensures LimitPrice(t, tick).None? <==> if t.direction.Long? then t.reference + 2.0 * tick <= 0.0 else t.reference <= 2.0 * tick
  {
  }

  /** What one unit nets from the entry to an exit, a fee paid on both. */
  function CashFlow(t: Terms, entry: real, exit: real, fee: real): real {
    if t.direction.Long? then exit * (1.0 - fee) - entry * (1.0 + fee) else entry * (1.0 - fee) - exit * (1.0 + fee)
  }

  /** The gate in cash flows: the target nets something, the STOP loses something, and the target at least twice as much. */
  lemma GateInCash(t: Terms, tick: real, fee: real)
    requires 0.0 < tick
    ensures EntryAllowed(t, tick, fee) <==>
              && LimitPrice(t, tick).Some? && 0.0 < LimitPrice(t, tick).value
              && var entry := LimitPrice(t, tick).value;
                 && 0.0 < CashFlow(t, entry, t.target, fee) && CashFlow(t, entry, t.stop, fee) < 0.0
                 && -2.0 * CashFlow(t, entry, t.stop, fee) <= CashFlow(t, entry, t.target, fee)
  {
    if LimitPrice(t, tick).Some? {
      var entry := LimitPrice(t, tick).value;
      NetsAreCash(t, entry, fee);
      if 0.0 < NetRisk(t, entry, fee) { A.QuotientOrder(NetReward(t, entry, fee), NetRisk(t, entry, fee), 2.0); }
    }
  }

  lemma NetsAreCash(t: Terms, entry: real, fee: real)
    ensures NetReward(t, entry, fee) == CashFlow(t, entry, t.target, fee)
    ensures NetRisk(t, entry, fee) == -CashFlow(t, entry, t.stop, fee)
  {
  }

  /** When the level offers no more than twice its risk, entering past the level and paying fees
      cannot reach 2:1: the gate refuses. */
  lemma GateNeedsMoreThanTwo(t: Terms, tick: real, fee: real)
    requires 0.0 < tick && 0.0 <= fee < 1.0
    requires 0.0 < t.reference && 0.0 < t.target && 0.0 < t.stop && Ordered(t)
    requires Signed(t.direction, t.target - t.reference) <= 2.0 * Signed(t.direction, t.reference - t.stop)
    ensures !EntryAllowed(t, tick, fee)
  {
    var limit := LimitPrice(t, tick);
    if limit.Some? && 0.0 < limit.value {
      LimitIsThroughTheLevel(t, tick);
      FeesOnlyHurt(t, limit.value, fee);
      var reward, risk := NetReward(t, limit.value, fee), NetRisk(t, limit.value, fee);
      if 0.0 < risk { BelowTwo(reward, risk); }
    }
  }

  lemma FeesOnlyHurt(t: Terms, entry: real, fee: real)
    requires 0.0 < entry && 0.0 < t.target && 0.0 < t.stop && 0.0 <= fee
    requires 0.0 < Signed(t.direction, entry - t.reference)
    requires Signed(t.direction, t.target - t.reference) <= 2.0 * Signed(t.direction, t.reference - t.stop)
    ensures NetReward(t, entry, fee) < 2.0 * NetRisk(t, entry, fee)
  {
  }

  lemma BelowTwo(reward: real, risk: real)
    requires 0.0 < risk && reward < 2.0 * risk
    ensures reward / risk < 2.0
  {
  }

  /** Detector, Scanner plan and Robot gate together: no figure the detector can build ever gets a
      retest order, whatever the tick and the fee, although the Robot accepted its terms. */
  lemma NoDetectedFigureIsEntered(rows: seq<Row>, atr: real, p: Parameters, d: Direction, e: int,
                                  breakout: int, breakoutTime: int, tick: real, fee: real)
    requires ValidRows(rows) && ValidParameters(p) && 0 <= e && e + 1 < breakout < |rows|
    requires Qualify(rows, atr, p, d, e, breakout).Some?
    requires 0.0 < tick && 0.0 <= fee < 1.0
    ensures var f := Qualify(rows, atr, p, d, e, breakout).value;
            f.level != 0.0 &&
            var terms := FrozenTerms(d, breakoutTime, SignalPlan(f));
            terms.Success? ==> !EntryAllowed(terms.value, tick, fee)
  {
    var f := Qualify(rows, atr, p, d, e, breakout).value;
    FormationIsShaped(rows, atr, p, d, e, breakout);
    PlanIsAlwaysTheFallback(f);
    var terms := FrozenTerms(d, breakoutTime, SignalPlan(f));
    if terms.Success? {
      GateNeedsMoreThanTwo(terms.value, tick, fee);
    }
  }
}
