/**
  STOP and TAKE of a filled trendline position: the structural STOP with its 2% cap, tightening
  over top-ups, the frozen TAKE, and the decision taken while the STOP is not yet proven.
 */
module Protection {
  import opened Market
  import opened Wrappers

  const MAX_STOP_DISTANCE := 0.02
  const TAKE_REALIZATION := 0.90
  const DEADLINE_MS := 5_000

  // ----- the structural STOP -----

  function Capped(d: Direction, entry: real): real {
    if d.Long? then entry * (1.0 - MAX_STOP_DISTANCE) else entry * (1.0 + MAX_STOP_DISTANCE)
  }

  function StructuralStop(d: Direction, entry: real, extreme: real, tick: real): real
    requires 0.0 < entry
  {
    if d.Long? then
      var candidate := extreme - tick;
      if candidate <= 0.0 || candidate >= entry then Capped(d, entry)
      else if (entry - candidate) / entry > MAX_STOP_DISTANCE then Capped(d, entry) else candidate
    else
      var candidate := extreme + tick;
      if candidate <= entry then Capped(d, entry)
      else if (candidate - entry) / entry > MAX_STOP_DISTANCE then Capped(d, entry) else candidate
  }

  /** What one unit loses between the entry and the STOP. */
  function Loss(d: Direction, entry: real, stop: real): real {
    Signed(d, entry - stop)
  }

  /** The STOP is on the loss side of the entry, at most 2% away. */
  predicate Guards(d: Direction, entry: real, stop: real) {
    0.0 < stop && 0.0 < Loss(d, entry, stop) <= MAX_STOP_DISTANCE * entry
  }

  lemma DistanceTest(gap: real, entry: real)
    requires 0.0 < entry
    ensures gap / entry > MAX_STOP_DISTANCE <==> gap > MAX_STOP_DISTANCE * entry
  {
    var excess := gap / entry - MAX_STOP_DISTANCE;
    assert excess * entry == gap - MAX_STOP_DISTANCE * entry;
    assert excess > 0.0 <==> excess * entry > 0.0;
  }

  /** Whatever the extreme, a filled position gets a STOP on its loss side within 2%: one tick beyond
      the extreme exactly when that price is such a STOP, and otherwise exactly 2% away. */
  lemma EveryFillGetsAStop(d: Direction, entry: real, extreme: real, tick: real)
    requires 0.0 < entry && 0.0 < extreme && 0.0 < tick
    ensures var stop, beyond := StructuralStop(d, entry, extreme, tick), extreme - Signed(d, tick);
            && Guards(d, entry, stop)
            && (if Guards(d, entry, beyond) then stop == beyond else Loss(d, entry, stop) == MAX_STOP_DISTANCE * entry)
  {
    DistanceTest(Loss(d, entry, extreme - Signed(d, tick)), entry);
  }

  /** The same in prices: one tick beyond the extreme if that is a positive price on the loss side within two percent,
      and otherwise two percent from the entry. */
  lemma StopInPrices(d: Direction, entry: real, extreme: real, tick: real)
    requires 0.0 < entry && 0.0 < extreme && 0.0 < tick
    ensures d.Long? ==> StructuralStop(d, entry, extreme, tick)
                        == if 0.0 < extreme - tick < entry && entry * 0.98 <= extreme - tick then extreme - tick else entry * 0.98
    ensures d.Short? ==> StructuralStop(d, entry, extreme, tick)
                         == if entry < extreme + tick <= entry * 1.02 then extreme + tick else entry * 1.02
  {
    EveryFillGetsAStop(d, entry, extreme, tick);
  }

  // ----- the plan after a fill -----

  function Tighten(d: Direction, existing: Option<real>, proposed: real): real {
    if existing.None? then proposed
    else if d.Long? then Max(existing.value, proposed) else Min(existing.value, proposed)
  }

  /** Terms frozen with the signal. */
  datatype Terms = Terms(direction: Direction, extreme: real, tick: real, reference: real, target: real)

  predicate WellFormed(t: Terms) {
    0.0 < t.extreme && 0.0 < t.tick && 0.0 < t.reference && 0.0 < t.target
  }

  datatype PlanError = TargetNotAhead | InvalidGeometry

  datatype Plan = Plan(stop: real, take: real)

  predicate TargetAhead(t: Terms) {
    0.0 < Signed(t.direction, t.target - t.reference)
  }

  function FrozenTake(t: Terms): real {
    t.reference + (t.target - t.reference) * TAKE_REALIZATION
  }

  function BuildPlan(t: Terms, entry: real, existing: Option<real>): Result<Plan, PlanError>
    requires WellFormed(t) && 0.0 < entry
  {
    var stop := Tighten(t.direction, existing, StructuralStop(t.direction, entry, t.extreme, t.tick));
    if !TargetAhead(t) then Failure(TargetNotAhead)
    else
      var take := FrozenTake(t);
      if !(if t.direction.Long? then stop < entry < take else take < entry < stop) then Failure(InvalidGeometry)
      else Success(Plan(stop, take))
  }

  /** The plan fails only for reasons outside the STOP computation: a target not ahead of the signal, an
      entry past the TAKE, or an entry past the STOP already in force. */
  lemma PlanExistsUnlessOvertaken(t: Terms, entry: real, existing: Option<real>)
    requires WellFormed(t) && 0.0 < entry
    ensures BuildPlan(t, entry, existing).Success? <==>
              && TargetAhead(t)
              && 0.0 < Signed(t.direction, FrozenTake(t) - entry)
              && (existing.Some? ==> 0.0 < Loss(t.direction, entry, existing.value))
  {
  }

  /** The plan in prices: the TAKE nine tenths of the way to the target, the STOP the tighter of the structural one and
      the one in force; no plan for a target that is not ahead or an entry outside STOP and TAKE. */
  lemma PlanInPrices(t: Terms, entry: real, existing: Option<real>)
    requires WellFormed(t) && 0.0 < entry
    ensures var r, take := BuildPlan(t, entry, existing), 0.1 * t.reference + 0.9 * t.target;
            && (r == Failure(TargetNotAhead) <==> if t.direction.Long? then t.target <= t.reference else t.reference <= t.target)
            && (r.Success? ==>
                  var stop := StructuralStop(t.direction, entry, t.extreme, t.tick);
                  && r.value.take == take
                  && (r.value.stop == stop || existing == Some(r.value.stop))
                  && (if t.direction.Long? then stop <= r.value.stop < entry < take else take < entry < r.value.stop <= stop)
                  && (existing.Some? ==>
                        if t.direction.Long? then existing.value <= r.value.stop else r.value.stop <= existing.value))
  {
  }

  /** Exactly nine tenths of the way from the signal reference to the target. */
  lemma TakeIsInsideTarget(t: Terms)
    requires WellFormed(t) && TargetAhead(t)
    ensures Signed(t.direction, FrozenTake(t) - t.reference) == 0.90 * Signed(t.direction, t.target - t.reference)
    ensures 0.0 < Signed(t.direction, FrozenTake(t) - t.reference) < Signed(t.direction, t.target - t.reference)
    ensures 0.0 < FrozenTake(t)
  {
  }

  /** The STOP in force after a sequence of average entries; a failed plan leaves it as it was. */
  function AfterTopUps(t: Terms, existing: Option<real>, entries: seq<real>): Option<real>
    requires WellFormed(t) && forall i :: 0 <= i < |entries| ==> 0.0 < entries[i]
  {
    if entries == [] then existing
    else
      var n := |entries| - 1;
      var before := AfterTopUps(t, existing, entries[..n]);
      var plan := BuildPlan(t, entries[n], before);
      if plan.Success? then Some(plan.value.stop) else before
  }

  /** A successful plan does not widen the STOP in force and risks at most 2% of the average entry. */
  lemma PlanKeepsStop(t: Terms, entry: real, existing: Option<real>)
    requires WellFormed(t) && 0.0 < entry && BuildPlan(t, entry, existing).Success?
    ensures var stop := BuildPlan(t, entry, existing).value.stop;
            && 0.0 < Loss(t.direction, entry, stop) <= MAX_STOP_DISTANCE * entry
            && (existing.Some? ==> NotWider(t.direction, stop, existing.value))
  {
    EveryFillGetsAStop(t.direction, entry, t.extreme, t.tick);
  }

  /** Over any fills and top-ups, failed plans included, the STOP in force never widens. */
  lemma {:induction false} TopUpsNeverWiden(t: Terms, existing: Option<real>, entries: seq<real>, m: nat)
    requires WellFormed(t) && m <= |entries| && forall i :: 0 <= i < |entries| ==> 0.0 < entries[i]
    ensures var early, late := AfterTopUps(t, existing, entries[..m]), AfterTopUps(t, existing, entries);
            early.Some? ==> late.Some? && NotWider(t.direction, late.value, early.value)
    decreases |entries|
  {
    if m == |entries| {
      assert entries[..m] == entries;
    } else {
      var n := |entries| - 1;
      TopUpsNeverWiden(t, existing, entries[..n], m);
      assert entries[..n][..m] == entries[..m];
      var before := AfterTopUps(t, existing, entries[..n]);
      if BuildPlan(t, entries[n], before).Success? {
        PlanKeepsStop(t, entries[n], before);
      }
    }
  }

  // ----- recovery while the STOP is not proven -----

  datatype Poll = Poll(
    now: int, open: bool, flat: bool, stopProven: bool, takeProven: bool,
    dataAuthoritative: bool, stopCrossed: bool, closeInFlight: bool)

  datatype Action = Closed | Protected | TakeRecovery | ClosePending | EmergencyClose | Wait

  datatype RecoveryError = BeforeStart | NotFlatNotOpen

  function Recover(started: int, p: Poll): Result<Action, RecoveryError> {
    if p.now < started then Failure(BeforeStart)
    else if p.flat then Success(Closed)
    else if !p.open then Failure(NotFlatNotOpen)
    else if p.stopProven then Success(if p.takeProven then Protected else TakeRecovery)
    else if p.closeInFlight then Success(ClosePending)
    else if !p.dataAuthoritative || p.stopCrossed || p.now >= started + DEADLINE_MS then Success(EmergencyClose)
    else Success(Wait)
  }

  /** Every answer of a poll that is not before the start, in the order of what settles it: flat, not open, STOP proven
      (with or without the TAKE), a close in flight, a reason to close. */
  lemma RecoveryAnswers(started: int, p: Poll)
    requires started <= p.now
    ensures var r := Recover(started, p);
            && (r == Success(Closed) <==> p.flat)
            && (r == Failure(NotFlatNotOpen) <==> !p.flat && !p.open)
            && (r == Success(Protected) <==> p.open && !p.flat && p.stopProven && p.takeProven)
            && (r == Success(TakeRecovery) <==> p.open && !p.flat && p.stopProven && !p.takeProven)
            && (r == Success(ClosePending) <==> p.open && !p.flat && !p.stopProven && p.closeInFlight)
            && (r == Success(Wait) <==>
                  && p.open && !p.flat && !p.stopProven && !p.closeInFlight
                  && p.dataAuthoritative && !p.stopCrossed && p.now < started + 5_000)
            && (r.Success? || r == Failure(NotFlatNotOpen))
  {
  }

  /** Number of emergency closes requested during these polls. */
  function Requests(started: int, polls: seq<Poll>): nat {
    if polls == [] then 0
    else Requests(started, polls[..|polls| - 1]) + if Recover(started, polls[|polls| - 1]) == Success(EmergencyClose) then 1 else 0
  }

  predicate Exposed(p: Poll) {
    p.open && !p.flat && !p.stopProven
  }

  predicate Urgent(started: int, p: Poll) {
    !p.dataAuthoritative || p.stopCrossed || p.now >= started + DEADLINE_MS
  }

  /** An exposed position with a reason to close, whatever is in flight. */
  predicate NeedsClose(started: int, p: Poll) {
    started <= p.now && Exposed(p) && Urgent(started, p)
  }

  predicate Requesting(started: int, p: Poll) {
    NeedsClose(started, p) && !p.closeInFlight
  }

  function RequestingPolls(started: int, polls: seq<Poll>): set<int> {
    set i | 0 <= i < |polls| && Requesting(started, polls[i])
  }

  lemma OneMorePoll(started: int, polls: seq<Poll>)
    requires polls != []
    ensures var n := |polls| - 1;
            && n !in RequestingPolls(started, polls[..n])
            && RequestingPolls(started, polls)
               == RequestingPolls(started, polls[..n]) + if Requesting(started, polls[n]) then {n} else {}
  {
    var n := |polls| - 1;
    var now, before := RequestingPolls(started, polls), RequestingPolls(started, polls[..n]);
    forall i | i != n ensures i in now <==> i in before {
      assert 0 <= i < n ==> polls[..n][i] == polls[i];
    }
  }

  /** For any flags: one request per poll that finds the position exposed, urgent and no close in flight. */
  lemma {:induction false} RequestsAreCounted(started: int, polls: seq<Poll>)
    ensures Requests(started, polls) == |RequestingPolls(started, polls)|
  {
    if polls != [] {
      var n := |polls| - 1;
      var init := polls[..n];
      RequestsAreCounted(started, init);
      OneMorePoll(started, polls);
    }
  }

  /** For any flags: at most one close is requested exactly when, after the first request, the flag is up at
      every poll that still needs a close. */
  lemma AtMostOneRequest(started: int, polls: seq<Poll>)
    ensures Requests(started, polls) <= 1 <==>
            forall i, j :: 0 <= i < j < |polls| && Requesting(started, polls[i]) && NeedsClose(started, polls[j]) ==>
              polls[j].closeInFlight
  {
    var asked := RequestingPolls(started, polls);
    RequestsAreCounted(started, polls);
    if |asked| <= 1 {
      forall i, j | 0 <= i < j < |polls| && Requesting(started, polls[i]) && NeedsClose(started, polls[j])
        ensures polls[j].closeInFlight
      {
        if !polls[j].closeInFlight { TwoMembers(asked, i, j); }
      }
    } else {
      var i :| i in asked;
      assert |asked - {i}| >= 1;
      var j :| j in asked - {i};
      assert Requesting(started, polls[i]) && Requesting(started, polls[j]);
    }
  }

  lemma TwoMembers(s: set<int>, i: int, j: int)
    requires i in s && j in s && i != j
    ensures 2 <= |s|
  {
    var rest := s - {i};
    assert j in rest && |rest| == |s| - 1;
    assert rest != {};
  }

  /** Polls at most `gap` apart, the first of them not later than one gap past the deadline. */
  ghost predicate PolledEvery(gap: int, started: int, polls: seq<Poll>) {
    && polls != [] && started <= polls[0].now < started + DEADLINE_MS + gap
    && forall i, j :: 0 <= i && j == i + 1 && j < |polls| ==> polls[i].now <= polls[j].now <= polls[i].now + gap
  }

  /** While the position stays exposed, one gap past the deadline at the latest a poll requests the close or
      reports one in flight, and from the deadline on no poll answers anything else. */
  lemma {:induction false} CloseWithinOneGap(started: int, polls: seq<Poll>, gap: int) returns (i: int)
    requires PolledEvery(gap, started, polls) && started + DEADLINE_MS <= polls[|polls| - 1].now
    requires forall k :: 0 <= k < |polls| ==> Exposed(polls[k])
    ensures 0 <= i < |polls| && started + DEADLINE_MS <= polls[i].now < started + DEADLINE_MS + gap
    ensures forall k :: i <= k < |polls| ==>
      Recover(started, polls[k]) == Success(if polls[k].closeInFlight then ClosePending else EmergencyClose)
  {
    var n := |polls| - 1;
    if n == 0 || polls[n - 1].now < started + DEADLINE_MS {
      i := n;
    } else {
      i := CloseWithinOneGap(started, polls[..n], gap);
      forall k | i <= k < |polls|
        ensures Recover(started, polls[k]) == Success(if polls[k].closeInFlight then ClosePending else EmergencyClose)
      {
        assert k < n ==> polls[..n][k] == polls[k];
      }
    }
  }
}
