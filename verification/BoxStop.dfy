/**
  Tick-rounded, fee-aware tightening of the Ikigai Box STOP after the actual fill.
  Prices are exact reals; rounding to the tick is the only rounding modelled.
 */
module BoxStop {
  import opened Market
  import opened Wrappers

  /** Frozen Box terms plus the authoritative fill; fees are per side, as fractions. */
  datatype Terms = Terms(
    direction: Direction, p4: real, take: real, frozenStop: real, entry: real, tick: real,
    entryFee: real, targetFee: real, stopFee: real)

  /** Decimal parsing accepts only positive prices and fees in [0, 1). */
  predicate WellFormed(t: Terms) {
    && 0.0 < t.p4 && 0.0 < t.take && 0.0 < t.frozenStop && 0.0 < t.entry && 0.0 < t.tick
    && 0.0 <= t.entryFee < 1.0 && 0.0 <= t.targetFee < 1.0 && 0.0 <= t.stopFee < 1.0
  }

  datatype StopError =
    | EntryBeyondTake
    | InvalidGeometry
    | WidensFrozenRisk
    | NoPositiveReward
    | NoPositiveStop
    | NoCompliantTick

  function Reward(t: Terms): real {
    Sign(t.direction) * (t.take - t.entry) - t.entry * t.entryFee - t.take * t.targetFee
  }

  function Risk(t: Terms, stop: real): real {
    Sign(t.direction) * (t.entry - stop) + t.entry * t.entryFee + stop * t.stopFee
  }

  predicate Aligned(x: real, tick: real)
    requires tick != 0.0
  {
    (x / tick).Floor as real * tick == x
  }

  /** A STOP the fee-aware 2:1 contract allows: positive, on the tick, beyond P4, net reward/risk at least 2. */
  predicate Acceptable(t: Terms, stop: real)
    requires WellFormed(t)
  {
    && 0.0 < stop
    && Aligned(stop, t.tick)
    && 0.0 < Sign(t.direction) * (t.p4 - stop)
    && 0.0 < Risk(t, stop)
    && 2.0 * Risk(t, stop) <= Reward(t)
  }

  function Current(t: Terms, existing: Option<real>): real {
    if existing.None? then t.frozenStop else existing.value
  }

  /** First objection before any price is computed. */
  function GuardError(t: Terms, existing: Option<real>): Option<StopError> {
    var current := Current(t, existing);
    if Sign(t.direction) * (t.take - t.entry) <= 0.0 then Some(EntryBeyondTake)
    else if !(if t.direction.Long? then current < t.p4 < t.entry else t.entry < t.p4 < current) then Some(InvalidGeometry)
    else if existing.Some? && !NotWider(t.direction, current, t.frozenStop) then Some(WidensFrozenRisk)
    else if Reward(t) <= 0.0 then Some(NoPositiveReward)
    else None
  }

  /** The price at which the net ratio is exactly 2. */
  function Bound(t: Terms): real
    requires WellFormed(t)
  {
    (Reward(t) / 2.0 - t.entry * (Sign(t.direction) + t.entryFee)) / (t.stopFee - Sign(t.direction))
  }

  /** First tick at or inside a price, seen from outside. */
  function TickInside(d: Direction, x: real, tick: real): real
    requires 0.0 < tick
  {
    (if d.Long? then Ceiling(x / tick) else (x / tick).Floor) as real * tick
  }

  /** The bound rounded towards the entry. */
  function RoundedBound(t: Terms): real
    requires WellFormed(t)
  {
    TickInside(t.direction, Bound(t), t.tick)
  }

  function StopForActualEntry(t: Terms, existing: Option<real>): Result<real, StopError>
    requires WellFormed(t) && (existing.Some? ==> 0.0 < existing.value)
  {
    var guard := GuardError(t, existing);
    if guard.Some? then Failure(guard.value)
    else
      var current := Current(t, existing);
      if Acceptable(t, current) then Success(current)
      else if Bound(t) <= 0.0 then Failure(NoPositiveStop)
      else
        var rounded := RoundedBound(t);
        var tightened := if t.direction.Long? then (if rounded >= current then rounded else current)
                         else (if rounded <= current then rounded else current);
        if Acceptable(t, tightened) then Success(tightened) else Failure(NoCompliantTick)
  }

  // ----- arithmetic of the bound -----

  /** risk(stop) == entry cost - stop * rate, with a rate of known sign. */
  lemma RiskIsLinear(t: Terms, stop: real)
    ensures Risk(t, stop) == t.entry * (Sign(t.direction) + t.entryFee) + stop * (t.stopFee - Sign(t.direction))
  {
  }

  lemma DivideBound(x: real, rate: real, stop: real)
    requires rate != 0.0
    ensures rate < 0.0 ==> (stop * rate <= x <==> stop >= x / rate)
    ensures rate > 0.0 ==> (stop * rate <= x <==> stop <= x / rate)
  {
    var q := x / rate;
    assert q * rate == x;
    if rate < 0.0 {
      if stop >= q { assert (stop - q) * rate <= 0.0; }
      else { assert (stop - q) * rate > 0.0; }
    } else {
      if stop <= q { assert (stop - q) * rate <= 0.0; }
      else { assert (stop - q) * rate > 0.0; }
    }
  }

  /** The 2:1 test is a one-sided bound on the price. */
  lemma RatioIsBound(t: Terms, stop: real)
    requires WellFormed(t)
    ensures 2.0 * Risk(t, stop) <= Reward(t) <==> NotWider(t.direction, stop, Bound(t))
  {
    RiskIsLinear(t, stop);
    DivideBound(Reward(t) / 2.0 - t.entry * (Sign(t.direction) + t.entryFee), t.stopFee - Sign(t.direction), stop);
  }

  lemma RiskIsPositive(t: Terms, stop: real)
    requires WellFormed(t) && 0.0 < stop
    requires if t.direction.Long? then stop < t.entry else t.entry < stop
    ensures 0.0 < Risk(t, stop)
  {
    ProductIsNotNegative(t.entry, t.entryFee);
    ProductIsNotNegative(stop, t.stopFee);
    assert Sign(t.direction) * (t.entry - stop) > 0.0;
  }

  lemma ProductIsNotNegative(x: real, y: real)
    requires 0.0 <= x && 0.0 <= y
    ensures 0.0 <= x * y
  {
  }

  lemma TimesTick(a: int, b: int, tick: real)
    requires 0.0 < tick
    ensures a <= b ==> a as real * tick <= b as real * tick
    ensures a < b ==> a as real * tick < b as real * tick
  {
    assert b as real * tick - a as real * tick == (b - a) as real * tick;
    if a < b { assert (b - a) as real * tick > 0.0; }
  }

  lemma MultipleIsAligned(k: int, tick: real)
    requires 0.0 < tick
    ensures Aligned(k as real * tick, tick)
  {
    assert (k as real * tick) / tick == k as real;
  }

  lemma QuotientOrder(x: real, y: real, tick: real)
    requires 0.0 < tick
    ensures x / tick * tick == x
    ensures x <= y <==> x / tick <= y / tick
  {
    var a, b := x / tick, y / tick;
    assert a * tick == x && b * tick == y;
    assert (b - a) * tick == y - x;
    if a <= b { assert (b - a) * tick >= 0.0; } else { assert (b - a) * tick < 0.0; }
  }

  /** An aligned price is its own whole number of ticks. */
  lemma AlignedTicks(x: real, tick: real) returns (m: int)
    requires 0.0 < tick && Aligned(x, tick)
    ensures x / tick == m as real && x == m as real * tick
  {
    m := (x / tick).Floor;
    MultipleIsAligned(m, tick);
    assert (m as real * tick) / tick == m as real;
  }

  /** It is aligned, not wider than the price, and every other such tick lies further inside. */
  lemma TickInsideIsNearest(d: Direction, x: real, tick: real, s: real)
    requires 0.0 < tick
    ensures Aligned(TickInside(d, x, tick), tick)
    ensures NotWider(d, TickInside(d, x, tick), x)
    ensures Aligned(s, tick) && NotWider(d, s, x) ==> NotWider(d, s, TickInside(d, x, tick))
  {
    var k := if d.Long? then Ceiling(x / tick) else (x / tick).Floor;
    var y := k as real * tick;
    assert y == TickInside(d, x, tick);
    MultipleIsAligned(k, tick);
    assert y / tick == k as real;
    QuotientOrder(x, y, tick);
    QuotientOrder(y, x, tick);
    if Aligned(s, tick) && NotWider(d, s, x) {
      var m := AlignedTicks(s, tick);
      QuotientOrder(x, s, tick);
      QuotientOrder(s, x, tick);
      TimesTick(m, k, tick);
      TimesTick(k, m, tick);
    }
  }

  // ----- soundness and optimality -----

  /** A returned STOP satisfies the contract and never widens the current or frozen risk. */
  lemma ReturnedStopIsSound(t: Terms, existing: Option<real>)
    requires WellFormed(t) && (existing.Some? ==> 0.0 < existing.value)
    requires StopForActualEntry(t, existing).Success?
    ensures var stop := StopForActualEntry(t, existing).value;
            && Acceptable(t, stop)
            && NotWider(t.direction, stop, Current(t, existing))
            && NotWider(t.direction, stop, t.frozenStop)
  {
  }

  /** Among the acceptable prices that do not widen the current STOP, `stop` is the farthest from the entry. */
  ghost predicate Loosest(t: Terms, current: real, stop: real)
    requires WellFormed(t)
  {
    && Acceptable(t, stop) && NotWider(t.direction, stop, current)
    && forall s :: Acceptable(t, s) && NotWider(t.direction, s, current) ==> NotWider(t.direction, s, stop)
  }

  lemma ReturnedStopIsLoosest(t: Terms, existing: Option<real>)
    requires WellFormed(t) && (existing.Some? ==> 0.0 < existing.value)
    requires StopForActualEntry(t, existing).Success?
    ensures Loosest(t, Current(t, existing), StopForActualEntry(t, existing).value)
  {
    var current, stop := Current(t, existing), StopForActualEntry(t, existing).value;
    forall s | Acceptable(t, s) && NotWider(t.direction, s, current) ensures NotWider(t.direction, s, stop) {
      RatioIsBound(t, s);
      TickInsideIsNearest(t.direction, Bound(t), t.tick, s);
    }
  }

  /** The guards hold: the geometry is right and the entry leaves a positive net reward. */
  predicate PassesGuards(t: Terms, existing: Option<real>) {
    && WellFormed(t) && (existing.Some? ==> 0.0 < existing.value)
    && GuardError(t, existing).None?
  }

  ghost predicate CompliantExists(t: Terms, current: real)
    requires WellFormed(t)
  {
    exists s :: Acceptable(t, s) && NotWider(t.direction, s, current)
  }

  /** For prices between nothing and P4 the contract is alignment plus the bound. */
  lemma AcceptableIsBounded(t: Terms, stop: real)
    requires WellFormed(t) && (if t.direction.Long? then t.p4 < t.entry else t.entry < t.p4)
    ensures Acceptable(t, stop) <==>
      0.0 < stop && Aligned(stop, t.tick) && 0.0 < Sign(t.direction) * (t.p4 - stop) && NotWider(t.direction, stop, Bound(t))
  {
    RatioIsBound(t, stop);
    if 0.0 < stop && 0.0 < Sign(t.direction) * (t.p4 - stop) {
      RiskIsPositive(t, stop);
    }
  }

  lemma ShortBoundIsPositive(t: Terms)
    requires WellFormed(t) && t.direction.Short? && 0.0 < Reward(t)
    ensures 0.0 < Bound(t)
  {
    var num, den := Reward(t) / 2.0 - t.entry * (-1.0 + t.entryFee), t.stopFee + 1.0;
    assert t.entry * (1.0 - t.entryFee) > 0.0;
    assert num > 0.0 && den > 0.0;
    assert num / den > 0.0;
  }

  /** Whether the procedure returns, in terms of the bound alone: the current STOP is compliant, or the
      rounded bound is inside it and still beyond P4. */
  lemma ReturnsWhen(t: Terms, existing: Option<real>)
    requires PassesGuards(t, existing)
    ensures var current := Current(t, existing);
            StopForActualEntry(t, existing).Success? <==>
              || Acceptable(t, current)
              || (NotWider(t.direction, RoundedBound(t), current) && 0.0 < Bound(t) && Acceptable(t, RoundedBound(t)))
  {
  }

  /** If any compliant price exists at a positive bound, the rounded bound is compliant. */
  lemma RoundedIsCompliant(t: Terms, s: real)
    requires WellFormed(t) && (if t.direction.Long? then t.p4 < t.entry else t.entry < t.p4)
    requires 0.0 < Bound(t) && Acceptable(t, s)
    ensures Acceptable(t, RoundedBound(t))
  {
    AcceptableIsBounded(t, s);
    TickInsideIsNearest(t.direction, Bound(t), t.tick, s);
    AcceptableIsBounded(t, RoundedBound(t));
  }

  /** With a tick-aligned current STOP the procedure returns exactly when a compliant price exists. */
  lemma AlignedIsComplete(t: Terms, existing: Option<real>)
    requires PassesGuards(t, existing) && Aligned(Current(t, existing), t.tick)
    ensures StopForActualEntry(t, existing).Success? <==> CompliantExists(t, Current(t, existing))
  {
    var current := Current(t, existing);
    ReturnsWhen(t, existing);
    AcceptableIsBounded(t, current);
    if s :| Acceptable(t, s) && NotWider(t.direction, s, current) {
      if !Acceptable(t, current) {
        if t.direction.Short? { ShortBoundIsPositive(t); }
        RoundedIsCompliant(t, s);
        TickInsideIsNearest(t.direction, Bound(t), t.tick, s);
      }
    }
    if StopForActualEntry(t, existing).Success? {
      ReturnedStopIsSound(t, existing);
    }
  }

  lemma RoundedAtPositive(t: Terms, current: real)
    requires WellFormed(t) && 0.0 < current && t.direction.Long? && current <= RoundedBound(t)
    ensures 0.0 < Bound(t)
  {
    var k := Ceiling(Bound(t) / t.tick);
    TimesTick(k, 0, t.tick);
    assert 0 < k;
    assert Bound(t) == Bound(t) / t.tick * t.tick;
  }

  /** Exactly when the procedure finds every compliant STOP: the current STOP is on the tick, or the rounded
      bound is at least as tight as it, or no tick lies between it and P4. */
  lemma CompletenessCondition(t: Terms, existing: Option<real>)
    requires PassesGuards(t, existing)
    ensures var current := Current(t, existing);
            (StopForActualEntry(t, existing).Success? <==> CompliantExists(t, current)) <==>
              || Aligned(current, t.tick)
              || NotWider(t.direction, RoundedBound(t), current)
              || Sign(t.direction) * (t.p4 - TickInside(t.direction, current, t.tick)) <= 0.0
  {
    var current := Current(t, existing);
    var inside := TickInside(t.direction, current, t.tick);
    ReturnsWhen(t, existing);
    if Aligned(current, t.tick) {
      AlignedIsComplete(t, existing);
    } else if NotWider(t.direction, RoundedBound(t), current) {
      if t.direction.Short? { ShortBoundIsPositive(t); } else { RoundedAtPositive(t, current); }
      if s :| Acceptable(t, s) && NotWider(t.direction, s, current) {
        RoundedIsCompliant(t, s);
      }
      if StopForActualEntry(t, existing).Success? {
        ReturnedStopIsSound(t, existing);
      }
    } else {
      TickInsideIsNearest(t.direction, current, t.tick, current);
      TickInsideIsNearest(t.direction, Bound(t), t.tick, current);
      AcceptableIsBounded(t, inside);
      if s :| Acceptable(t, s) && NotWider(t.direction, s, current) {
        TickInsideIsNearest(t.direction, current, t.tick, s);
      }
      if 0.0 < Sign(t.direction) * (t.p4 - inside) {
        assert Acceptable(t, inside) && NotWider(t.direction, inside, current);
      }
    }
  }

  /** An existing STOP off the tick grid, the frozen one being on it: tick 1, frozen 99, existing 99.5, P4 105,
      entry 110, take 200, no fees. The STOP 100 is compliant and tighter, and the procedure reports that none exists. */
  lemma OffTickStopIsMissed()
    ensures var t := Terms(Long, 105.0, 200.0, 99.0, 110.0, 1.0, 0.0, 0.0, 0.0);
            && Aligned(t.frozenStop, t.tick) && PassesGuards(t, Some(99.5))
            && Acceptable(t, 100.0) && NotWider(Long, 100.0, 99.5)
            && StopForActualEntry(t, Some(99.5)) == Failure(NoCompliantTick)
  {
    var t := Terms(Long, 105.0, 200.0, 99.0, 110.0, 1.0, 0.0, 0.0, 0.0);
    assert 99.0 / 1.0 == 99.0;
    assert Reward(t) == 90.0;
    assert Bound(t) == 65.0;
    assert !Aligned(99.5, 1.0);
    assert RoundedBound(t) == 65.0;
  }

  // ----- the answer, read as cash flows -----

  /** What one unit nets from the entry to an exit price, both fees paid. */
  function Net(t: Terms, exit: real, exitFee: real): real {
    if t.direction.Long? then exit * (1.0 - exitFee) - t.entry * (1.0 + t.entryFee)
    else t.entry * (1.0 - t.entryFee) - exit * (1.0 + exitFee)
  }

  /** The prices in trading order: STOP, last grid level, entry, TAKE. */
  predicate InOrder(t: Terms, stop: real) {
    if t.direction.Long? then stop < t.p4 < t.entry < t.take else t.take < t.entry < t.p4 < stop
  }

  predicate Inside(t: Terms, stop: real, current: real) {
    if t.direction.Long? then current <= stop else stop <= current
  }

  function Ticks(k: int, tick: real): real {
    k as real * tick
  }

  ghost predicate OnTick(x: real, tick: real) {
    exists k :: x == Ticks(k, tick)
  }

  /** A whole number of ticks beyond the last grid level, where the TAKE nets at least twice what the STOP loses. */
  ghost predicate PaysTwice(t: Terms, stop: real) {
    && OnTick(stop, t.tick) && 0.0 < stop
    && (if t.direction.Long? then stop < t.p4 else t.p4 < stop)
    && -2.0 * Net(t, stop, t.stopFee) <= Net(t, t.take, t.targetFee)
  }

  lemma TickMultiple(x: real, tick: real)
    requires 0.0 < tick
    ensures Aligned(x, tick) <==> OnTick(x, tick)
  {
    if Aligned(x, tick) {
      var m := AlignedTicks(x, tick);
      assert x == Ticks(m, tick);
    }
    if k :| x == Ticks(k, tick) {
      MultipleIsAligned(k, tick);
    }
  }

  lemma NetIsRewardAndRisk(t: Terms, stop: real)
    ensures Reward(t) == Net(t, t.take, t.targetFee) && Risk(t, stop) == -Net(t, stop, t.stopFee)
  {
  }

  lemma PaysTwiceIsAcceptable(t: Terms, stop: real)
    requires WellFormed(t) && (if t.direction.Long? then t.p4 < t.entry else t.entry < t.p4)
    ensures PaysTwice(t, stop) <==> Acceptable(t, stop)
  {
    TickMultiple(stop, t.tick);
    NetIsRewardAndRisk(t, stop);
    if 0.0 < stop && 0.0 < Sign(t.direction) * (t.p4 - stop) { RiskIsPositive(t, stop); }
  }

  /** Each of the four guard errors is reported exactly when its condition is the first to fail. */
  lemma GuardErrorsAreTrue(t: Terms, existing: Option<real>)
    requires WellFormed(t) && (existing.Some? ==> 0.0 < existing.value)
    ensures var r, current := StopForActualEntry(t, existing), if existing.Some? then existing.value else t.frozenStop;
            var ahead := if t.direction.Long? then t.entry < t.take else t.take < t.entry;
            var tight := existing.Some? ==> Inside(t, existing.value, t.frozenStop);
            && (r == Failure(EntryBeyondTake) <==> !ahead)
            && (r == Failure(InvalidGeometry) <==> ahead && !InOrder(t, current))
            && (r == Failure(WidensFrozenRisk) <==> InOrder(t, current) && !tight)
            && (r == Failure(NoPositiveReward) <==> InOrder(t, current) && tight && Net(t, t.take, t.targetFee) <= 0.0)
  {
    NetIsRewardAndRisk(t, t.frozenStop);
  }

  /** The STOP in force may be kept or tightened: prices in order, frozen risk not widened, a TAKE that still pays. */
  predicate Protectable(t: Terms, existing: Option<real>) {
    && InOrder(t, if existing.Some? then existing.value else t.frozenStop)
    && (existing.Some? ==> Inside(t, existing.value, t.frozenStop))
    && 0.0 < Net(t, t.take, t.targetFee)
  }

  lemma ProtectablePasses(t: Terms, existing: Option<real>)
    requires WellFormed(t) && (existing.Some? ==> 0.0 < existing.value)
    ensures Protectable(t, existing) <==> PassesGuards(t, existing)
  {
    NetIsRewardAndRisk(t, t.frozenStop);
  }

  ghost predicate SomePays(t: Terms, current: real) {
    exists s :: PaysTwice(t, s) && Inside(t, s, current)
  }

  /** The whole answer, LONG and SHORT. A STOP returned for a protectable fill pays, is not wider than the STOP in force,
      and is the paying price farthest from the entry; with the STOP in force on the tick it is returned exactly when some
      price pays. */
  lemma FilledStop(t: Terms, existing: Option<real>)
    requires WellFormed(t) && (existing.Some? ==> 0.0 < existing.value)
    ensures var r, current := StopForActualEntry(t, existing), if existing.Some? then existing.value else t.frozenStop;
            && (r.Success? ==> Protectable(t, existing) && PaysTwice(t, r.value) && Inside(t, r.value, current))
            && (r.Success? ==> forall s :: PaysTwice(t, s) && Inside(t, s, current) ==> Inside(t, s, r.value))
            && (Protectable(t, existing) && OnTick(current, t.tick) ==> (r.Success? <==> SomePays(t, current)))
  {
    ProtectablePasses(t, existing);
    if PassesGuards(t, existing) {
      if StopForActualEntry(t, existing).Success? { LoosestPays(t, existing); }
      TickMultiple(Current(t, existing), t.tick);
      if Aligned(Current(t, existing), t.tick) { AlignedPays(t, existing); }
    }
  }

  lemma LoosestPays(t: Terms, existing: Option<real>)
    requires PassesGuards(t, existing) && StopForActualEntry(t, existing).Success?
    ensures var stop := StopForActualEntry(t, existing).value;
            && PaysTwice(t, stop) && Inside(t, stop, Current(t, existing))
            && forall s :: PaysTwice(t, s) && Inside(t, s, Current(t, existing)) ==> Inside(t, s, stop)
  {
    ReturnedStopIsSound(t, existing);
    ReturnedStopIsLoosest(t, existing);
    PaysTwiceIsAcceptable(t, StopForActualEntry(t, existing).value);
    forall s | PaysTwice(t, s) && Inside(t, s, Current(t, existing)) ensures Inside(t, s, StopForActualEntry(t, existing).value) {
      PaysTwiceIsAcceptable(t, s);
    }
  }

  lemma AlignedPays(t: Terms, existing: Option<real>)
    requires PassesGuards(t, existing) && Aligned(Current(t, existing), t.tick)
    ensures StopForActualEntry(t, existing).Success? <==> SomePays(t, Current(t, existing))
  {
    var current := Current(t, existing);
    AlignedIsComplete(t, existing);
    if s :| PaysTwice(t, s) && Inside(t, s, current) {
      PaysTwiceIsAcceptable(t, s);
      assert NotWider(t.direction, s, current);
    }
    if s :| Acceptable(t, s) && NotWider(t.direction, s, current) {
      PaysTwiceIsAcceptable(t, s);
      assert Inside(t, s, current);
    }
  }

  /** "No positive STOP" is reported exactly for a protectable LONG with its STOP off the tick for which even the price
      zero would pay: it is the tick, not the ratio, that was missed. */
  lemma NoPositiveStopMeansOffTick(t: Terms, existing: Option<real>)
    requires WellFormed(t) && (existing.Some? ==> 0.0 < existing.value)
    ensures var current := if existing.Some? then existing.value else t.frozenStop;
            StopForActualEntry(t, existing) == Failure(NoPositiveStop) <==>
              && Protectable(t, existing) && t.direction.Long? && !OnTick(current, t.tick)
              && -2.0 * Net(t, 0.0, t.stopFee) <= Net(t, t.take, t.targetFee)
  {
    ProtectablePasses(t, existing);
    if PassesGuards(t, existing) {
      var current := Current(t, existing);
      if t.direction.Short? { ShortBoundIsPositive(t); }
      RatioIsBound(t, 0.0);
      NetIsRewardAndRisk(t, 0.0);
      TickMultiple(current, t.tick);
      AcceptableIsBounded(t, current);
    }
  }

  // ----- repeated protection -----

  /** The STOP after a sequence of fills, each passing the previous result on as the existing STOP. */
  function AfterFills(t: Terms, existing: Option<real>, entries: seq<real>): Option<real>
    requires WellFormed(t) && (existing.Some? ==> 0.0 < existing.value)
    requires forall i :: 0 <= i < |entries| ==> 0.0 < entries[i]
    decreases |entries|
  {
    if entries == [] then existing
    else
      var next := StopForActualEntry(t.(entry := entries[0]), existing);
      AfterFills(t, if next.Success? then Some(next.value) else existing, entries[1..])
  }

  /** Over any sequence of fills the active STOP never widens, nor passes the frozen risk. */
  lemma {:induction false} FillsNeverWiden(t: Terms, existing: Option<real>, entries: seq<real>)
    requires WellFormed(t) && (existing.Some? ==> 0.0 < existing.value)
    requires forall i :: 0 <= i < |entries| ==> 0.0 < entries[i]
    requires existing.Some? ==> NotWider(t.direction, existing.value, t.frozenStop)
    ensures var final := AfterFills(t, existing, entries);
            && (existing.Some? ==> final.Some? && NotWider(t.direction, final.value, existing.value))
            && (final.Some? ==> 0.0 < final.value && NotWider(t.direction, final.value, t.frozenStop))
    decreases |entries|
  {
    if entries != [] {
      var next := StopForActualEntry(t.(entry := entries[0]), existing);
      if next.Success? {
        ReturnedStopIsSound(t.(entry := entries[0]), existing);
        FillsNeverWiden(t, Some(next.value), entries[1..]);
      } else {
        FillsNeverWiden(t, existing, entries[1..]);
      }
    }
  }
}
