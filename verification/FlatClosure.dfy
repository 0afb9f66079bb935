/**
  Proof that a stale Robot trade was closed by an aggregate emergency execution.
  The open lot is reconstructed from a signed walk over every execution of the
  symbol; ambiguity yields no evidence rather than a guess.
 */
module FlatClosure {
  import opened Wrappers
  import A = Arithmetic

  datatype Side = Buy | Sell

  datatype Direction = Long | Short | Unsupported

  datatype Execution = Execution(
    execId: string, orderId: string, symbol: string, side: Side,
    price: real, quantity: real, fee: real, timestamp: int)

  /** Executions enter the store only with a positive quantity. */
  predicate ValidExecutions(execs: seq<Execution>) {
    forall i :: 0 <= i < |execs| ==> 0.0 < execs[i].quantity
  }

  datatype Candidate = Candidate(
    id: string, status: string, limitOrderId: Option<string>,
    attemptedAt: Option<int>, closedAt: Option<int>, outcome: Option<string>,
    hasOpenTrade: bool)

  datatype Trade = Trade(
    id: string, candidateId: string, symbol: string, direction: Direction,
    entryQuantity: Option<real>, entryPositionVersion: Option<int>, exitTime: Option<int>, averageEntry: real)

  datatype Position = Position(isFlat: bool, quantity: real, version: int, updatedAt: int)

  datatype Contribution = Contribution(
    execId: string, orderId: string, quantity: real, candidateId: string, candidateStatus: string)

  datatype Attribution = Attribution(
    candidateId: string, attemptedAt: int, closedAt: int, outcome: string, lotQuantity: real)

  datatype Evidence = Evidence(
    tradeId: string, candidateId: string, closingExecId: string, closingOrderId: string,
    closingQuantity: real, exitTime: int, exitPrice: real,
    realizedPnl: real, realizedPnlPercent: real, fees: real,
    openLot: seq<Contribution>, emergency: Attribution)

  const OUTCOME_CLOSED := "CLOSED_EMERGENCY_PROTECTION_FAILURE"
  const STATUS_INVALIDATED := "INVALIDATED"

  function EntrySide(d: Direction): Side {
    if d.Long? then Buy else Sell
  }

  function ExitSide(d: Direction): Side {
    if d.Long? then Sell else Buy
  }

  // ----- the signed walk -----

  function Signed(e: Execution, entry: Side): real {
    if e.side == entry then e.quantity else -e.quantity
  }

  /** Signed exposure after the executions, counted positive on the entry side. */
  function Net(execs: seq<Execution>, entry: Side): real {
    if execs == [] then 0.0
    else Net(execs[..|execs| - 1], entry) + Signed(execs[|execs| - 1], entry)
  }

  lemma {:induction false} NetSplits(a: seq<Execution>, b: seq<Execution>, entry: Side)
    ensures Net(a + b, entry) == Net(a, entry) + Net(b, entry)
  {
    if b == [] {
      assert a + b == a;
    } else {
      NetSplits(a, b[..|b| - 1], entry);
      assert (a + b)[..|a + b| - 1] == a + b[..|b| - 1];
    }
  }

  predicate EntryOnly(window: seq<Execution>, entry: Side) {
    forall i :: 0 <= i < |window| ==> window[i].side == entry
  }

  lemma {:induction false} EntryOnlyIsLong(window: seq<Execution>, entry: Side)
    requires ValidExecutions(window) && EntryOnly(window, entry)
    ensures window != [] ==> 0.0 < Net(window, entry)
    ensures window == [] ==> Net(window, entry) == 0.0
  {
    if window != [] {
      EntryOnlyIsLong(window[..|window| - 1], entry);
    }
  }

  /** `prefix[split..]` is an open lot: the symbol was flat just before it, and it only entered. */
  predicate OpensLot(prefix: seq<Execution>, entry: Side, split: int) {
    && 0 <= split < |prefix|
    && Net(prefix[..split], entry) == 0.0
    && EntryOnly(prefix[split..], entry)
  }

  /** The open lot starts right after the last flat point, so there is at most one. */
  lemma LotIsUnique(prefix: seq<Execution>, entry: Side, s: int, t: int)
    requires ValidExecutions(prefix) && OpensLot(prefix, entry, s)
    requires s < t <= |prefix|
    ensures Net(prefix[..t], entry) > 0.0
    ensures !OpensLot(prefix, entry, t)
  {
    var gap := prefix[s..t];
    assert prefix[..t] == prefix[..s] + gap;
    NetSplits(prefix[..s], gap, entry);
    forall i | 0 <= i < |gap| ensures gap[i].side == entry && 0.0 < gap[i].quantity {
      assert gap[i] == prefix[s..][i];
    }
    EntryOnlyIsLong(gap, entry);
  }

  // ----- ownership -----

  /** entry order -> candidate, later candidates overriding earlier ones. */
  function OrderOwners(candidates: seq<Candidate>): map<string, string> {
    if candidates == [] then map[]
    else
      var last, rest := candidates[|candidates| - 1], OrderOwners(candidates[..|candidates| - 1]);
      if last.limitOrderId.None? then rest else rest[last.limitOrderId.value := last.id]
  }

  function Statuses(candidates: seq<Candidate>): map<string, string> {
    if candidates == [] then map[]
    else
      var last := candidates[|candidates| - 1];
      Statuses(candidates[..|candidates| - 1])[last.id := last.status]
  }

  /** No candidate appears twice and no entry order is claimed by two. */
  predicate Unambiguous(candidates: seq<Candidate>) {
    && (forall i, j :: 0 <= i < j < |candidates| ==> candidates[i].id != candidates[j].id)
    && forall i, j :: 0 <= i < j < |candidates| && candidates[i].limitOrderId.Some? ==>
         candidates[i].limitOrderId != candidates[j].limitOrderId
  }

  lemma {:induction false} OwnersHaveStatuses(candidates: seq<Candidate>)
    ensures forall o :: o in OrderOwners(candidates) ==> OrderOwners(candidates)[o] in Statuses(candidates)
  {
    if candidates != [] {
      OwnersHaveStatuses(candidates[..|candidates| - 1]);
    }
  }

  lemma {:induction false} OwnerAt(candidates: seq<Candidate>, o: string) returns (i: int)
    requires o in OrderOwners(candidates)
    ensures 0 <= i < |candidates| && candidates[i].limitOrderId == Some(o)
  {
    i := |candidates| - 1;
    if candidates[i].limitOrderId != Some(o) {
      i := OwnerAt(candidates[..i], o);
    }
  }

  lemma {:induction false} OwnerOf(candidates: seq<Candidate>, i: int)
    requires 0 <= i < |candidates| && candidates[i].limitOrderId.Some?
    ensures candidates[i].limitOrderId.value in OrderOwners(candidates)
  {
    if i < |candidates| - 1 {
      OwnerOf(candidates[..|candidates| - 1], i);
    }
  }

  lemma {:induction false} StatusAt(candidates: seq<Candidate>, id: string) returns (i: int)
    requires id in Statuses(candidates)
    ensures 0 <= i < |candidates| && candidates[i].id == id
  {
    i := |candidates| - 1;
    if candidates[i].id != id {
      i := StatusAt(candidates[..i], id);
    }
  }

  lemma {:induction false} StatusOf(candidates: seq<Candidate>, i: int)
    requires 0 <= i < |candidates|
    ensures candidates[i].id in Statuses(candidates)
  {
    if i < |candidates| - 1 {
      StatusOf(candidates[..|candidates| - 1], i);
    }
  }

  lemma UnambiguousGrows(candidates: seq<Candidate>, k: int)
    requires 0 <= k < |candidates| && Unambiguous(candidates[..k])
    ensures var c := candidates[k];
            Unambiguous(candidates[..k + 1]) <==>
            c.id !in Statuses(candidates[..k])
            && (c.limitOrderId.Some? ==> c.limitOrderId.value !in OrderOwners(candidates[..k]))
  {
    var init, grown, c := candidates[..k], candidates[..k + 1], candidates[k];
    assert grown[..k] == init && grown[k] == c;
    if c.id in Statuses(init) {
      var i := StatusAt(init, c.id);
      assert grown[i].id == grown[k].id;
    } else if c.limitOrderId.Some? && c.limitOrderId.value in OrderOwners(init) {
      var i := OwnerAt(init, c.limitOrderId.value);
      assert grown[i].limitOrderId == grown[k].limitOrderId;
    } else {
      forall i | 0 <= i < k
        ensures grown[i].id != c.id && (grown[i].limitOrderId.Some? ==> grown[i].limitOrderId != c.limitOrderId)
      {
        assert grown[i] == init[i];
        StatusOf(init, i);
        if init[i].limitOrderId.Some? { OwnerOf(init, i); }
      }
    }
  }

  lemma AmbiguityPersists(candidates: seq<Candidate>, k: int)
    requires 0 <= k <= |candidates| && Unambiguous(candidates)
    ensures Unambiguous(candidates[..k])
  {
  }

  method OrderOwnerMap(candidates: seq<Candidate>) returns (r: Option<(map<string, string>, map<string, string>)>)
    ensures r.Some? <==> Unambiguous(candidates)
    ensures r.Some? ==> r.value == (OrderOwners(candidates), Statuses(candidates))
  {
    var owners: map<string, string> := map[];
    var statuses: map<string, string> := map[];
    for k := 0 to |candidates|
      invariant Unambiguous(candidates[..k])
      invariant owners == OrderOwners(candidates[..k]) && statuses == Statuses(candidates[..k])
    {
      var candidate := candidates[k];
      assert candidates[..k + 1][..k] == candidates[..k];
      UnambiguousGrows(candidates, k);
      if candidate.id in statuses {
        if Unambiguous(candidates) { AmbiguityPersists(candidates, k + 1); }
        return None;
      }
      statuses := statuses[candidate.id := candidate.status];
      if candidate.limitOrderId.Some? {
        if candidate.limitOrderId.value in owners {
          if Unambiguous(candidates) { AmbiguityPersists(candidates, k + 1); }
          return None;
        }
        owners := owners[candidate.limitOrderId.value := candidate.id];
      }
    }
    assert candidates[..|candidates|] == candidates;
    return Some((owners, statuses));
  }

  /** Quantity of the window entered through orders of one candidate. */
  function Share(window: seq<Execution>, owners: map<string, string>, id: string): real {
    if window == [] then 0.0
    else
      var last := window[|window| - 1];
      Share(window[..|window| - 1], owners, id)
      + if last.orderId in owners && owners[last.orderId] == id then last.quantity else 0.0
  }

  predicate AllOwned(window: seq<Execution>, owners: map<string, string>) {
    forall i :: 0 <= i < |window| ==> window[i].orderId in owners
  }

  function Lot(window: seq<Execution>, owners: map<string, string>, statuses: map<string, string>): seq<Contribution>
    requires AllOwned(window, owners)
    requires forall o :: o in owners ==> owners[o] in statuses
  {
    seq(|window|, i requires 0 <= i < |window| =>
      Contribution(window[i].execId, window[i].orderId, window[i].quantity,
                   owners[window[i].orderId], statuses[owners[window[i].orderId]]))
  }

  // ----- the emergency marker -----

  predicate Unmarked(c: Candidate) {
    c.attemptedAt.None? && c.closedAt.None? && c.outcome.None?
  }

  predicate Marked(c: Candidate) {
    c.attemptedAt.Some? && c.closedAt.Some? && c.outcome == Some(OUTCOME_CLOSED)
  }

  /** candidates[k] carries the only marker, and it is complete. */
  predicate SoleMarker(candidates: seq<Candidate>, k: int) {
    && 0 <= k < |candidates|
    && Marked(candidates[k])
    && forall i :: 0 <= i < |candidates| && i != k ==> Unmarked(candidates[i])
  }

  method EmergencyCandidate(candidates: seq<Candidate>) returns (r: Option<int>)
    ensures r.Some? ==> SoleMarker(candidates, r.value)
    ensures r.None? ==> forall k :: !SoleMarker(candidates, k)
  {
    var marked: seq<int> := [];
    for k := 0 to |candidates|
      invariant forall i :: 0 <= i < k ==> Unmarked(candidates[i]) || Marked(candidates[i])
      invariant forall i :: 0 <= i < k ==> (i in marked <==> Marked(candidates[i]))
      invariant forall i, j :: 0 <= i < j < |marked| ==> marked[i] < marked[j]
      invariant forall i :: 0 <= i < |marked| ==> 0 <= marked[i] < k
    {
      var c := candidates[k];
      if Unmarked(c) {
        continue;
      }
      if c.attemptedAt.None? || c.closedAt.None? || c.outcome.None? {
        return None;
      }
      if c.outcome.value != OUTCOME_CLOSED {
        return None;
      }
      marked := marked + [k];
    }
    if |marked| != 1 {
      assert |marked| >= 2 ==> marked[0] in marked && marked[1] in marked;
      return None;
    }
    assert marked[0] in marked;
    return Some(marked[0]);
  }

  // ----- the declarative claim -----

  predicate StrictlyIncreasing(execs: seq<Execution>) {
    forall i, j :: 0 <= i < j < |execs| ==> execs[i].timestamp < execs[j].timestamp
  }

  predicate OneSymbol(execs: seq<Execution>, symbol: string) {
    forall i :: 0 <= i < |execs| ==> execs[i].symbol == symbol
  }

  predicate Attested(trade: Trade) {
    && trade.entryQuantity.Some? && 0.0 < trade.entryQuantity.value
    && trade.entryPositionVersion.Some?
    && trade.exitTime.None?
    && !trade.direction.Unsupported?
  }

  predicate SoleOpenOwner(trade: Trade, candidates: seq<Candidate>, openIds: set<string>) {
    && openIds == {trade.candidateId}
    && forall i :: 0 <= i < |candidates| ==> (candidates[i].hasOpenTrade <==> candidates[i].id in openIds)
  }

  predicate BoundFlat(trade: Trade, position: Option<Position>, execs: seq<Execution>)
    requires Attested(trade)
  {
    && position.Some? && position.value.isFlat && position.value.quantity == 0.0
    && trade.entryPositionVersion.value < position.value.version
    && execs != []
    && execs[|execs| - 1].side == ExitSide(trade.direction)
    && position.value.updatedAt == execs[|execs| - 1].timestamp
  }

  /** The lot execs[split..last) was liquidated by the last execution and belongs to known owners. */
  predicate LiquidatedLot(trade: Trade, execs: seq<Execution>, owners: map<string, string>, split: int)
    requires Attested(trade) && execs != []
  {
    var n := |execs| - 1;
    && OpensLot(execs[..n], EntrySide(trade.direction), split)
    && Net(execs[split..n], EntrySide(trade.direction)) == execs[n].quantity
    && AllOwned(execs[split..n], owners)
    && Share(execs[split..n], owners, trade.candidateId) == trade.entryQuantity.value
  }

  predicate EmergencyExplains(trade: Trade, execs: seq<Execution>, candidates: seq<Candidate>,
                              owners: map<string, string>, split: int, k: int)
    requires execs != [] && 0 <= split <= |execs| - 1
  {
    var n := |execs| - 1;
    && SoleMarker(candidates, k)
    && candidates[k].status == STATUS_INVALIDATED
    && candidates[k].id != trade.candidateId
    && 0.0 < Share(execs[split..n], owners, candidates[k].id)
    && candidates[k].attemptedAt.value <= execs[n].timestamp <= candidates[k].closedAt.value
  }

  /** Everything the durable rows must show, with the lot start and the emergency candidate as witnesses. */
  predicate Shows(trade: Trade, position: Option<Position>, execs: seq<Execution>, candidates: seq<Candidate>,
                  openIds: set<string>, unresolved: bool, split: int, k: int) {
    && !unresolved
    && Attested(trade)
    && SoleOpenOwner(trade, candidates, openIds)
    && BoundFlat(trade, position, execs)
    && OneSymbol(execs, trade.symbol) && StrictlyIncreasing(execs)
    && Unambiguous(candidates)
    && LiquidatedLot(trade, execs, OrderOwners(candidates), split)
    && EmergencyExplains(trade, execs, candidates, OrderOwners(candidates), split, k)
    && 0.0 < Notional(trade)
  }

  lemma WitnessesAreUnique(trade: Trade, position: Option<Position>, execs: seq<Execution>, candidates: seq<Candidate>,
                           openIds: set<string>, unresolved: bool, s: int, k: int, s': int, k': int)
    requires ValidExecutions(execs)
    requires Shows(trade, position, execs, candidates, openIds, unresolved, s, k)
    requires Shows(trade, position, execs, candidates, openIds, unresolved, s', k')
    ensures s == s' && k == k'
  {
    var prefix := execs[..|execs| - 1];
    if s < s' { LotIsUnique(prefix, EntrySide(trade.direction), s, s'); }
    if s' < s { LotIsUnique(prefix, EntrySide(trade.direction), s', s); }
  }

  /** The trade's own share of the aggregate close: fees pro rata, profit, profit in percent. */
  datatype Economics = Economics(fees: real, pnl: real, pnlPercent: real)

  function Notional(trade: Trade): real {
    if trade.entryQuantity.None? then 0.0 else trade.entryQuantity.value * trade.averageEntry
  }

  function OwnShare(trade: Trade, closing: Execution, quantity: real, notional: real): Economics
    requires closing.quantity != 0.0 && notional != 0.0
  {
    var fees := closing.fee * quantity / closing.quantity;
    var delta := if trade.direction.Long? then closing.price - trade.averageEntry else trade.averageEntry - closing.price;
    var pnl := quantity * delta;
    Economics(fees, pnl, (pnl - fees) / notional * 100.0)
  }

  /** What the evidence records, read from the closing execution and the reconstructed lot. */
  function EvidenceOf(trade: Trade, execs: seq<Execution>, candidates: seq<Candidate>, split: int, k: int): Evidence
    requires Attested(trade) && ValidExecutions(execs) && execs != []
    requires LiquidatedLot(trade, execs, OrderOwners(candidates), split)
    requires EmergencyExplains(trade, execs, candidates, OrderOwners(candidates), split, k)
    requires 0.0 < Notional(trade)
  {
    var n := |execs| - 1;
    var closing, owners, e := execs[n], OrderOwners(candidates), candidates[k];
    var own := OwnShare(trade, closing, trade.entryQuantity.value, Notional(trade));
    OwnersHaveStatuses(candidates);
    Evidence(trade.id, trade.candidateId, closing.execId, closing.orderId, closing.quantity, closing.timestamp,
             closing.price, own.pnl, own.pnlPercent, own.fees,
             Lot(execs[split..n], owners, Statuses(candidates)),
             Attribution(e.id, e.attemptedAt.value, e.closedAt.value, OUTCOME_CLOSED, Share(execs[split..n], owners, e.id)))
  }

  // ----- the procedure -----

  /** Signed walk: final net and the position after the last flat point. */
  method WalkNet(prefix: seq<Execution>, entry: Side) returns (net: real, open: int)
    ensures net == Net(prefix, entry)
    ensures 0 <= open <= |prefix| && Net(prefix[..open], entry) == 0.0
    ensures forall t :: open < t <= |prefix| ==> Net(prefix[..t], entry) != 0.0
  {
    net := 0.0;
    var lastFlat := -1;
    for index := 0 to |prefix|
      invariant net == Net(prefix[..index], entry)
      invariant -1 <= lastFlat < index && Net(prefix[..lastFlat + 1], entry) == 0.0
      invariant forall t :: lastFlat + 1 < t <= index ==> Net(prefix[..t], entry) != 0.0
    {
      assert prefix[..index + 1][..index] == prefix[..index];
      if prefix[index].side == entry {
        net := net + prefix[index].quantity;
      } else {
        net := net - prefix[index].quantity;
      }
      assert net == Net(prefix[..index + 1], entry);
      if net == 0.0 {
        lastFlat := index;
      }
    }
    assert prefix[..|prefix|] == prefix;
    open := lastFlat + 1;
  }

  /** `attributed` holds every owner's share of the window, and nothing for the others. */
  ghost predicate Tallies(window: seq<Execution>, owners: map<string, string>, attributed: map<string, real>) {
    forall id {:trigger Share(window, owners, id)} ::
      Share(window, owners, id) == if id in attributed then attributed[id] else 0.0
  }

  /** Attributes every fill of the lot to its candidate; none if some fill is unowned. */
  method AttributeLot(window: seq<Execution>, ghost entry: Side, owners: map<string, string>, statuses: map<string, string>)
    returns (r: Option<(seq<Contribution>, map<string, real>, real)>)
    requires EntryOnly(window, entry)
    requires forall o :: o in owners ==> owners[o] in statuses
    ensures r.Some? <==> AllOwned(window, owners)
    ensures r.Some? ==>
      && r.value.0 == Lot(window, owners, statuses)
      && Tallies(window, owners, r.value.1)
      && r.value.2 == Net(window, entry)
  {
    var lot: seq<Contribution> := [];
    var attributed: map<string, real> := map[];
    var total := 0.0;
    for index := 0 to |window|
      invariant AllOwned(window[..index], owners)
      invariant lot == Lot(window[..index], owners, statuses)
      invariant Tallies(window[..index], owners, attributed)
      invariant total == Net(window[..index], entry)
    {
      var execution := window[index];
      assert window[..index + 1][..index] == window[..index];
      if execution.orderId !in owners {
        return None;
      }
      assert Net(window[..index + 1], entry) == Net(window[..index], entry) + execution.quantity;
      var owner := owners[execution.orderId];
      lot := lot + [Contribution(execution.execId, execution.orderId, execution.quantity, owner, statuses[owner])];
      attributed := attributed[owner := (if owner in attributed then attributed[owner] else 0.0) + execution.quantity];
      total := total + execution.quantity;
    }
    assert window[..|window|] == window;
    return Some((lot, attributed, total));
  }

  lemma WalkFindsLot(prefix: seq<Execution>, entry: Side, open: int, split: int)
    requires ValidExecutions(prefix) && OpensLot(prefix, entry, split)
    requires 0 <= open <= |prefix| && Net(prefix[..open], entry) == 0.0
    requires forall t :: open < t <= |prefix| ==> Net(prefix[..t], entry) != 0.0
    ensures split == open
  {
    if split < open { LotIsUnique(prefix, entry, split, open); }
  }

  /** The claim holds for some lot and marker. */
  predicate Provable(trade: Trade, position: Option<Position>, execs: seq<Execution>, candidates: seq<Candidate>,
                     openIds: set<string>, unresolved: bool) {
    exists split, k | 0 <= split < |execs| && 0 <= k < |candidates| ::
      Shows(trade, position, execs, candidates, openIds, unresolved, split, k)
  }

  predicate TrustedRows(trade: Trade, position: Option<Position>, execs: seq<Execution>, candidates: seq<Candidate>,
                        openIds: set<string>, unresolved: bool) {
    && !unresolved
    && Attested(trade)
    && SoleOpenOwner(trade, candidates, openIds)
    && BoundFlat(trade, position, execs)
    && OneSymbol(execs, trade.symbol) && StrictlyIncreasing(execs)
  }

  method CheckRows(trade: Trade, position: Option<Position>, execs: seq<Execution>, candidates: seq<Candidate>,
                   openIds: set<string>, unresolved: bool) returns (ok: bool)
    ensures ok <==> TrustedRows(trade, position, execs, candidates, openIds, unresolved)
  {
    if unresolved || !Attested(trade) || !SoleOpenOwner(trade, candidates, openIds) {
      return false;
    }
    if !BoundFlat(trade, position, execs) {
      return false;
    }
    for i := 0 to |execs|
      invariant OneSymbol(execs[..i], trade.symbol) && StrictlyIncreasing(execs[..i])
    {
      if execs[i].symbol != trade.symbol || (0 < i && execs[i].timestamp <= execs[i - 1].timestamp) {
        return false;
      }
      assert forall j :: 0 <= j < i ==> execs[..i][j].timestamp <= execs[..i][i - 1].timestamp;
    }
    assert execs[..|execs|] == execs;
    return true;
  }

  /** The lot that the closing quantity liquidates, as a claim about its start. */
  predicate LotStartsAt(prefix: seq<Execution>, entry: Side, closingQuantity: real, split: int) {
    OpensLot(prefix, entry, split) && Net(prefix[split..], entry) == closingQuantity
  }

  method ReconstructLot(prefix: seq<Execution>, entry: Side, closingQuantity: real) returns (r: Option<int>)
    requires ValidExecutions(prefix)
    ensures r.Some? ==> LotStartsAt(prefix, entry, closingQuantity, r.value)
    ensures forall split :: LotStartsAt(prefix, entry, closingQuantity, split) ==> r == Some(split)
  {
    var net, open := WalkNet(prefix, entry);
    var window := prefix[open..];
    assert prefix == prefix[..open] + window;
    NetSplits(prefix[..open], window, entry);
    forall split | LotStartsAt(prefix, entry, closingQuantity, split)
      ensures split == open && net > 0.0 && net == closingQuantity && window != [] && EntryOnly(window, entry)
    {
      WalkFindsLot(prefix, entry, open, split);
      EntryOnlyIsLong(window, entry);
    }
    if net <= 0.0 || net != closingQuantity || window == [] || !EntryOnly(window, entry) {
      return None;
    }
    return Some(open);
  }

  method ProveFlatClosure(trade: Trade, position: Option<Position>, execs: seq<Execution>, candidates: seq<Candidate>,
                          openIds: set<string>, unresolved: bool)
    returns (r: Option<Evidence>)
    requires ValidExecutions(execs)
    ensures r.Some? <==> Provable(trade, position, execs, candidates, openIds, unresolved)
    ensures r.Some? ==> exists split, k ::
      Shows(trade, position, execs, candidates, openIds, unresolved, split, k)
      && r.value == EvidenceOf(trade, execs, candidates, split, k)
  {
    var trusted := CheckRows(trade, position, execs, candidates, openIds, unresolved);
    if !trusted {
      return None;
    }
    var n := |execs| - 1;
    var start := ReconstructLot(execs[..n], EntrySide(trade.direction), execs[n].quantity);
    assert forall split :: 0 <= split <= n ==> execs[..n][split..] == execs[split..n];
    forall split, k | Shows(trade, position, execs, candidates, openIds, unresolved, split, k)
      ensures start == Some(split)
    {
      assert LotStartsAt(execs[..n], EntrySide(trade.direction), execs[n].quantity, split);
    }
    if start.None? {
      return None;
    }
    r := ProveEmergency(trade, execs, candidates, start.value);
    assert forall k :: ClosesBy(trade, execs, candidates, start.value, k) <==>
      Shows(trade, position, execs, candidates, openIds, unresolved, start.value, k);
    if r.Some? {
      var k :| ClosesBy(trade, execs, candidates, start.value, k)
               && r.value == EvidenceOf(trade, execs, candidates, start.value, k);
      assert Shows(trade, position, execs, candidates, openIds, unresolved, start.value, k);
    }
  }

  /** The ownership, emergency and notional claims for a reconstructed lot. */
  predicate ClosesBy(trade: Trade, execs: seq<Execution>, candidates: seq<Candidate>, split: int, k: int)
    requires Attested(trade) && execs != [] && 0 <= split <= |execs| - 1
  {
    && Unambiguous(candidates)
    && LiquidatedLot(trade, execs, OrderOwners(candidates), split)
    && EmergencyExplains(trade, execs, candidates, OrderOwners(candidates), split, k)
    && 0.0 < Notional(trade)
  }

  /** The marked candidate, if it is invalidated, distinct, part of the lot and spans the close. */
  method ExplainEmergency(trade: Trade, execs: seq<Execution>, candidates: seq<Candidate>,
                          owners: map<string, string>, open: int, attributed: map<string, real>)
    returns (r: Option<int>)
    requires execs != [] && 0 <= open <= |execs| - 1
    requires Tallies(execs[open..|execs| - 1], owners, attributed)
    ensures r.Some? ==> EmergencyExplains(trade, execs, candidates, owners, open, r.value)
                        && candidates[r.value].id in attributed
    ensures forall k :: EmergencyExplains(trade, execs, candidates, owners, open, k) ==> r == Some(k)
  {
    var emergency := EmergencyCandidate(candidates);
    if emergency.None? {
      return None;
    }
    var e, closedAt := candidates[emergency.value], execs[|execs| - 1].timestamp;
    if e.status != STATUS_INVALIDATED || e.id == trade.candidateId {
      return None;
    }
    if e.id !in attributed || attributed[e.id] <= 0.0 {
      return None;
    }
    if e.attemptedAt.value > e.closedAt.value || !(e.attemptedAt.value <= closedAt <= e.closedAt.value) {
      return None;
    }
    return emergency;
  }

  method ProveEmergency(trade: Trade, execs: seq<Execution>, candidates: seq<Candidate>, open: int)
    returns (r: Option<Evidence>)
    requires ValidExecutions(execs) && Attested(trade) && execs != []
    requires LotStartsAt(execs[..|execs| - 1], EntrySide(trade.direction), execs[|execs| - 1].quantity, open)
    ensures r.Some? <==> exists k :: ClosesBy(trade, execs, candidates, open, k)
    ensures r.Some? ==> exists k :: ClosesBy(trade, execs, candidates, open, k)
                                    && r.value == EvidenceOf(trade, execs, candidates, open, k)
  {
    var n := |execs| - 1;
    var closing, window := execs[n], execs[open..n];
    assert execs[..n][open..] == window;
    var mapped := OrderOwnerMap(candidates);
    if mapped.None? {
      return None;
    }
    var (owners, statuses) := mapped.value;
    OwnersHaveStatuses(candidates);
    var lot := AttributeLot(window, EntrySide(trade.direction), owners, statuses);
    if lot.None? {
      return None;
    }
    var (openLot, attributed, lotTotal) := lot.value;
    // The source compares the total once more here; the walk has already decided it.
    assert lotTotal == closing.quantity;
    var quantity := trade.entryQuantity.value;
    if trade.candidateId !in attributed || attributed[trade.candidateId] != quantity {
      return None;
    }
    var emergency := ExplainEmergency(trade, execs, candidates, owners, open, attributed);
    if emergency.None? {
      return None;
    }
    var e := candidates[emergency.value];
    var notional := Notional(trade);
    if notional <= 0.0 {
      return None;
    }
    var own := OwnShare(trade, closing, quantity, notional);
    r := Some(Evidence(
      trade.id, trade.candidateId, closing.execId, closing.orderId, closing.quantity, closing.timestamp,
      closing.price, own.pnl, own.pnlPercent, own.fees, openLot,
      Attribution(e.id, e.attemptedAt.value, e.closedAt.value, OUTCOME_CLOSED, attributed[e.id])));
    assert ClosesBy(trade, execs, candidates, open, emergency.value);
  }

  // ----- the claim and the evidence, read off the rows -----

  function Bought(execs: seq<Execution>): real {
    if execs == [] then 0.0
    else Bought(execs[..|execs| - 1]) + if execs[|execs| - 1].side.Buy? then execs[|execs| - 1].quantity else 0.0
  }

  function Sold(execs: seq<Execution>): real {
    if execs == [] then 0.0
    else Sold(execs[..|execs| - 1]) + if execs[|execs| - 1].side.Sell? then execs[|execs| - 1].quantity else 0.0
  }

  lemma {:induction false} NetIsBoughtMinusSold(execs: seq<Execution>, entry: Side)
    ensures Net(execs, entry) == if entry.Buy? then Bought(execs) - Sold(execs) else Sold(execs) - Bought(execs)
  {
    if execs != [] { NetIsBoughtMinusSold(execs[..|execs| - 1], entry); }
  }

  predicate Owns(candidates: seq<Candidate>, id: string, orderId: string) {
    exists j :: 0 <= j < |candidates| && candidates[j].id == id && candidates[j].limitOrderId == Some(orderId)
  }

  predicate HasOwner(candidates: seq<Candidate>, orderId: string) {
    exists j :: 0 <= j < |candidates| && candidates[j].limitOrderId == Some(orderId)
  }

  /** Quantity of the fills whose orders belong to one candidate. */
  function Filled(fills: seq<Execution>, candidates: seq<Candidate>, id: string): real {
    if fills == [] then 0.0
    else
      var last := fills[|fills| - 1];
      Filled(fills[..|fills| - 1], candidates, id) + if Owns(candidates, id, last.orderId) then last.quantity else 0.0
  }

  lemma {:induction false} OwnerIsCandidate(candidates: seq<Candidate>, orderId: string) returns (j: int)
    requires Unambiguous(candidates) && orderId in OrderOwners(candidates)
    ensures 0 <= j < |candidates| && candidates[j].limitOrderId == Some(orderId)
    ensures OrderOwners(candidates)[orderId] == candidates[j].id
    ensures candidates[j].id in Statuses(candidates) && Statuses(candidates)[candidates[j].id] == candidates[j].status
  {
    j := |candidates| - 1;
    if candidates[j].limitOrderId != Some(orderId) {
      AmbiguityPersists(candidates, j);
      var last := candidates[j];
      j := OwnerIsCandidate(candidates[..j], orderId);
      assert candidates[j].id != last.id;
    }
  }

  lemma OwnsMeans(candidates: seq<Candidate>, id: string, orderId: string)
    requires Unambiguous(candidates)
    ensures HasOwner(candidates, orderId) <==> orderId in OrderOwners(candidates)
    ensures Owns(candidates, id, orderId) <==> orderId in OrderOwners(candidates) && OrderOwners(candidates)[orderId] == id
  {
    forall j | 0 <= j < |candidates| && candidates[j].limitOrderId == Some(orderId) ensures orderId in OrderOwners(candidates) {
      OwnerOf(candidates, j);
    }
    if orderId in OrderOwners(candidates) {
      var i := OwnerIsCandidate(candidates, orderId);
      forall j | 0 <= j < |candidates| && candidates[j].limitOrderId == Some(orderId) ensures j == i {}
    }
  }

  lemma {:induction false} FilledIsShare(fills: seq<Execution>, candidates: seq<Candidate>, id: string)
    requires Unambiguous(candidates)
    ensures Filled(fills, candidates, id) == Share(fills, OrderOwners(candidates), id)
  {
    if fills != [] {
      FilledIsShare(fills[..|fills| - 1], candidates, id);
      OwnsMeans(candidates, id, fills[|fills| - 1].orderId);
    }
  }

  /** Trade, position and executions as the procedure may trust them. */
  predicate RowsAgree(trade: Trade, position: Option<Position>, execs: seq<Execution>, candidates: seq<Candidate>,
                      openIds: set<string>, unresolved: bool) {
    var n := |execs| - 1;
    && !unresolved && trade.exitTime.None? && trade.entryQuantity.Some? && trade.entryPositionVersion.Some?
    && 0.0 < trade.entryQuantity.value
    && openIds == {trade.candidateId}
    && (forall i :: 0 <= i < |candidates| ==> (candidates[i].hasOpenTrade <==> candidates[i].id == trade.candidateId))
    && (forall i :: 0 <= i <= n ==> execs[i].symbol == trade.symbol)
    && (forall i, j :: 0 <= i < j <= n ==> execs[i].timestamp < execs[j].timestamp)
    && 0 <= n && execs[n].side == (match trade.direction case Long => Sell case Short => Buy case Unsupported => execs[n].side)
    && !trade.direction.Unsupported?
    && position.Some? && position.value.isFlat && position.value.quantity == 0.0
    && position.value.version > trade.entryPositionVersion.value && position.value.updatedAt == execs[n].timestamp
  }

  /** execs[split..] without the last: fills that opened the position from flat, every one of a known owner, closed whole by
      the last execution; the trade's part is what it attests. */
  predicate LotAgrees(trade: Trade, execs: seq<Execution>, candidates: seq<Candidate>, split: int)
    requires execs != [] && trade.entryQuantity.Some?
  {
    var n := |execs| - 1;
    && 0 <= split < n
    && Bought(execs[..split]) == Sold(execs[..split])
    && (forall i :: split <= i < n ==> execs[i].side != execs[n].side && HasOwner(candidates, execs[i].orderId))
    && (if execs[n].side.Sell? then Bought(execs[split..n]) else Sold(execs[split..n])) == execs[n].quantity
    && Filled(execs[split..n], candidates, trade.candidateId) == trade.entryQuantity.value
  }

  /** candidates[k] alone carries a marker: closed as a protection failure, invalidated, another candidate than the trade's,
      part of the lot, and open over the close. */
  predicate MarkerAgrees(trade: Trade, execs: seq<Execution>, candidates: seq<Candidate>, split: int, k: int)
    requires execs != [] && 0 <= split < |execs|
  {
    var n := |execs| - 1;
    && 0 <= k < |candidates|
    && (forall i :: 0 <= i < |candidates| && i != k ==>
          candidates[i].attemptedAt.None? && candidates[i].closedAt.None? && candidates[i].outcome.None?)
    && candidates[k].outcome == Some("CLOSED_EMERGENCY_PROTECTION_FAILURE") && candidates[k].status == "INVALIDATED"
    && candidates[k].id != trade.candidateId && 0.0 < Filled(execs[split..n], candidates, candidates[k].id)
    && candidates[k].attemptedAt.Some? && candidates[k].attemptedAt.value <= execs[n].timestamp
    && candidates[k].closedAt.Some? && execs[n].timestamp <= candidates[k].closedAt.value
  }

  predicate IdentitiesAgree(candidates: seq<Candidate>) {
    forall i, j :: 0 <= i < |candidates| && 0 <= j < |candidates| && i != j ==>
      && candidates[i].id != candidates[j].id
      && (candidates[i].limitOrderId.Some? ==> candidates[i].limitOrderId != candidates[j].limitOrderId)
  }

  lemma IdentitiesAreUnambiguous(candidates: seq<Candidate>)
    ensures IdentitiesAgree(candidates) <==> Unambiguous(candidates)
  {
    if Unambiguous(candidates) {
      forall i, j | 0 <= i < |candidates| && 0 <= j < |candidates| && i != j
        ensures candidates[i].id != candidates[j].id
        ensures candidates[i].limitOrderId.Some? ==> candidates[i].limitOrderId != candidates[j].limitOrderId
      {
        if i > j { assert candidates[j].id != candidates[i].id; }
      }
    }
  }

  lemma RowsAreTrusted(trade: Trade, position: Option<Position>, execs: seq<Execution>, candidates: seq<Candidate>,
                       openIds: set<string>, unresolved: bool)
    ensures RowsAgree(trade, position, execs, candidates, openIds, unresolved)
            <==> TrustedRows(trade, position, execs, candidates, openIds, unresolved)
  {
  }

  lemma LotIsLiquidated(trade: Trade, execs: seq<Execution>, candidates: seq<Candidate>, split: int)
    requires Attested(trade) && execs != [] && Unambiguous(candidates) && execs[|execs| - 1].side == ExitSide(trade.direction)
    ensures LotAgrees(trade, execs, candidates, split) <==> LiquidatedLot(trade, execs, OrderOwners(candidates), split)
  {
    var n, entry, owners := |execs| - 1, EntrySide(trade.direction), OrderOwners(candidates);
    if 0 <= split < n {
      var window := execs[split..n];
      assert execs[..n][..split] == execs[..split] && execs[..n][split..] == window;
      NetIsBoughtMinusSold(execs[..split], entry);
      FilledIsShare(window, candidates, trade.candidateId);
      if EntryOnly(window, entry) { OneSided(window, entry); }
      WindowAgrees(execs, candidates, split, entry);
    }
  }

  lemma WindowAgrees(execs: seq<Execution>, candidates: seq<Candidate>, split: int, entry: Side)
    requires execs != [] && 0 <= split < |execs| - 1 && Unambiguous(candidates) && execs[|execs| - 1].side != entry
    ensures var n := |execs| - 1; var window := execs[split..n];
            (forall i :: split <= i < n ==> execs[i].side != execs[n].side && HasOwner(candidates, execs[i].orderId)) <==>
            EntryOnly(window, entry) && AllOwned(window, OrderOwners(candidates))
  {
    var n := |execs| - 1;
    var window := execs[split..n];
    forall i | split <= i < n
      ensures execs[i] == window[i - split] && (HasOwner(candidates, execs[i].orderId) <==> execs[i].orderId in OrderOwners(candidates))
    {
      OwnsMeans(candidates, "", execs[i].orderId);
    }
    forall i | 0 <= i < |window| ensures window[i] == execs[split + i] {}
  }

  /** Fills of one side only: what was bought or sold is the net. */
  lemma {:induction false} OneSided(window: seq<Execution>, entry: Side)
    requires EntryOnly(window, entry)
    ensures Net(window, entry) == if entry.Buy? then Bought(window) else Sold(window)
  {
    if window != [] {
      OneSided(window[..|window| - 1], entry);
    }
  }

  lemma MarkerExplains(trade: Trade, execs: seq<Execution>, candidates: seq<Candidate>, split: int, k: int)
    requires execs != [] && 0 <= split <= |execs| - 1 && Unambiguous(candidates)
    ensures MarkerAgrees(trade, execs, candidates, split, k)
            <==> EmergencyExplains(trade, execs, candidates, OrderOwners(candidates), split, k)
  {
    if 0 <= k < |candidates| {
      FilledIsShare(execs[split..|execs| - 1], candidates, candidates[k].id);
    }
  }

  /** The claim is what the rows say: prices, sides, quantities and times, with no map and no walk in between. */
  lemma ClaimIsInTheRows(trade: Trade, position: Option<Position>, execs: seq<Execution>, candidates: seq<Candidate>,
                         openIds: set<string>, unresolved: bool, split: int, k: int)
    ensures Shows(trade, position, execs, candidates, openIds, unresolved, split, k) <==>
            && RowsAgree(trade, position, execs, candidates, openIds, unresolved) && 0.0 < trade.averageEntry
            && IdentitiesAgree(candidates) && LotAgrees(trade, execs, candidates, split)
            && MarkerAgrees(trade, execs, candidates, split, k)
  {
    RowsAreTrusted(trade, position, execs, candidates, openIds, unresolved);
    IdentitiesAreUnambiguous(candidates);
    if TrustedRows(trade, position, execs, candidates, openIds, unresolved) && Unambiguous(candidates) {
      LotIsLiquidated(trade, execs, candidates, split);
      if 0 <= split <= |execs| - 1 { MarkerExplains(trade, execs, candidates, split, k); }
      A.ProductSigns(trade.entryQuantity.value, trade.averageEntry);
      if 0.0 < trade.averageEntry {
        A.StrictlyMonotone(trade.entryQuantity.value, 0.0, trade.averageEntry);
      }
    }
  }

  /** Quantity of the lot rows attributed to one candidate. */
  function Attributed(lot: seq<Contribution>, id: string): real {
    if lot == [] then 0.0
    else Attributed(lot[..|lot| - 1], id) + if lot[|lot| - 1].candidateId == id then lot[|lot| - 1].quantity else 0.0
  }

  lemma {:induction false} AttributedIsShare(window: seq<Execution>, owners: map<string, string>, statuses: map<string, string>, id: string)
    requires AllOwned(window, owners) && forall o :: o in owners ==> owners[o] in statuses
    ensures Attributed(Lot(window, owners, statuses), id) == Share(window, owners, id)
  {
    if window != [] {
      var init := window[..|window| - 1];
      AttributedIsShare(init, owners, statuses, id);
      assert Lot(window, owners, statuses)[..|window| - 1] == Lot(init, owners, statuses);
    }
  }

  /** A lot row repeats its fill and names a candidate that owns its order, with that candidate's status. */
  predicate RowOf(candidates: seq<Candidate>, fill: Execution, row: Contribution) {
    && row.execId == fill.execId && row.orderId == fill.orderId && row.quantity == fill.quantity
    && exists j :: 0 <= j < |candidates| && candidates[j].limitOrderId == Some(fill.orderId)
                   && candidates[j].id == row.candidateId && candidates[j].status == row.candidateStatus
  }

  lemma RowIsTrue(candidates: seq<Candidate>, window: seq<Execution>, i: int)
    requires Unambiguous(candidates) && AllOwned(window, OrderOwners(candidates)) && 0 <= i < |window|
    ensures (forall o :: o in OrderOwners(candidates) ==> OrderOwners(candidates)[o] in Statuses(candidates))
            && RowOf(candidates, window[i], Lot(window, OrderOwners(candidates), Statuses(candidates))[i])
  {
    OwnersHaveStatuses(candidates);
    var j := OwnerIsCandidate(candidates, window[i].orderId);
  }

  /** What the evidence names: the closing execution, the marked candidate, and one row per fill of the lot, by which both
      the trade's and the marked candidate's quantities are accounted for. */
  lemma EvidenceNamesRows(trade: Trade, position: Option<Position>, execs: seq<Execution>, candidates: seq<Candidate>,
                          openIds: set<string>, unresolved: bool, split: int, k: int)
    requires ValidExecutions(execs) && Shows(trade, position, execs, candidates, openIds, unresolved, split, k)
    ensures var e, n := EvidenceOf(trade, execs, candidates, split, k), |execs| - 1;
            && e.tradeId == trade.id && e.candidateId == trade.candidateId
            && e.closingExecId == execs[n].execId && e.closingOrderId == execs[n].orderId
            && e.closingQuantity == execs[n].quantity && e.exitPrice == execs[n].price && e.exitTime == position.value.updatedAt
            && |e.openLot| == n - split && (forall i :: 0 <= i < n - split ==> RowOf(candidates, execs[split..n][i], e.openLot[i]))
            && Attributed(e.openLot, trade.candidateId) == trade.entryQuantity.value
            && e.emergency.candidateId == candidates[k].id && e.emergency.outcome == "CLOSED_EMERGENCY_PROTECTION_FAILURE"
            && candidates[k].attemptedAt == Some(e.emergency.attemptedAt) && candidates[k].closedAt == Some(e.emergency.closedAt)
            && e.emergency.attemptedAt <= e.exitTime <= e.emergency.closedAt
            && e.emergency.lotQuantity == Attributed(e.openLot, e.emergency.candidateId) > 0.0
  {
    var n, owners, statuses := |execs| - 1, OrderOwners(candidates), Statuses(candidates);
    OwnersHaveStatuses(candidates);
    AttributedIsShare(execs[split..n], owners, statuses, trade.candidateId);
    AttributedIsShare(execs[split..n], owners, statuses, candidates[k].id);
    forall i | 0 <= i < n - split ensures RowOf(candidates, execs[split..n][i], Lot(execs[split..n], owners, statuses)[i]) {
      RowIsTrue(candidates, execs[split..n], i);
    }
  }

  /** The trade's profit from the closing side: a Sell earns what it brings less what the entry cost, a Buy the reverse. */
  lemma ProfitFromClosingSide(trade: Trade, position: Option<Position>, execs: seq<Execution>, candidates: seq<Candidate>,
                              openIds: set<string>, unresolved: bool, split: int, k: int)
    requires ValidExecutions(execs) && Shows(trade, position, execs, candidates, openIds, unresolved, split, k)
    ensures var e, closing, quantity := EvidenceOf(trade, execs, candidates, split, k), execs[|execs| - 1], trade.entryQuantity.value;
            var gain := quantity * e.exitPrice - quantity * trade.averageEntry;
            && e.realizedPnl == (if closing.side.Sell? then gain else -gain)
            && (e.realizedPnl > 0.0 <==>
                  if closing.side.Sell? then trade.averageEntry < e.exitPrice else e.exitPrice < trade.averageEntry)
            && e.fees * closing.quantity == closing.fee * quantity
            && e.realizedPnlPercent * (quantity * trade.averageEntry) == 100.0 * (e.realizedPnl - e.fees)
  {
    var e, closing, quantity := EvidenceOf(trade, execs, candidates, split, k), execs[|execs| - 1], trade.entryQuantity.value;
    SignedGain(quantity, closing.price, trade.averageEntry);
    SignedGain(quantity, trade.averageEntry, closing.price);
    A.DivideBack(closing.fee * quantity, closing.quantity);
    PercentOf(e.realizedPnl - e.fees, quantity * trade.averageEntry);
  }

  lemma SignedGain(quantity: real, price: real, base: real)
    requires 0.0 < quantity
    ensures quantity * (price - base) == quantity * price - quantity * base
    ensures quantity * (price - base) > 0.0 <==> base < price
  {
    A.Distributes(quantity, price, base);
    if base < price { A.StrictlyMonotone(quantity, base, price); } else { A.Monotone(quantity, price, base); }
  }

  lemma PercentOf(x: real, whole: real)
    requires whole != 0.0
    ensures x / whole * 100.0 * whole == 100.0 * x
  {
    var q := x / whole;
    A.DivideBack(x, whole);
    A.Commutes(q * 100.0, whole);
    A.Associates(whole, q, 100.0);
    A.Commutes(whole, q);
  }

  // ----- what a proved closure implies -----

  /** The aggregate execution settles the symbol: every execution together nets to zero. */
  lemma {:induction false} ClosureNetsToZero(trade: Trade, position: Option<Position>, execs: seq<Execution>, candidates: seq<Candidate>,
                          openIds: set<string>, unresolved: bool, split: int, k: int)
    requires Shows(trade, position, execs, candidates, openIds, unresolved, split, k)
    ensures Net(execs, EntrySide(trade.direction)) == 0.0
  {
    var n, entry := |execs| - 1, EntrySide(trade.direction);
    assert execs[..n] == execs[..n][..split] + execs[split..n];
    NetSplits(execs[..n][..split], execs[split..n], entry);
  }

  /** Sum of the shares of candidates[..m]. */
  function ShareSum(window: seq<Execution>, owners: map<string, string>, candidates: seq<Candidate>): real {
    if candidates == [] then 0.0
    else
      ShareSum(window, owners, candidates[..|candidates| - 1])
      + Share(window, owners, candidates[|candidates| - 1].id)
  }

  lemma {:induction false} ShareSumGrows(window: seq<Execution>, owners: map<string, string>, candidates: seq<Candidate>)
    requires window != [] && window[|window| - 1].orderId in owners
    requires forall i, j :: 0 <= i < j < |candidates| ==> candidates[i].id != candidates[j].id
    ensures var last := window[|window| - 1];
            ShareSum(window, owners, candidates) == ShareSum(window[..|window| - 1], owners, candidates)
              + if exists i :: 0 <= i < |candidates| && candidates[i].id == owners[last.orderId] then last.quantity else 0.0
    decreases |candidates|
  {
    if candidates != [] {
      var init, c := candidates[..|candidates| - 1], candidates[|candidates| - 1];
      var owner := owners[window[|window| - 1].orderId];
      ShareSumGrows(window, owners, init);
      if i :| 0 <= i < |init| && init[i].id == owner {
        assert candidates[i].id == owner && c.id != owner;
      } else if c.id == owner {
        assert candidates[|candidates| - 1].id == owner;
      } else {
        assert forall i :: 0 <= i < |candidates| ==> candidates[i].id != owner by {
          assert forall i :: 0 <= i < |init| ==> candidates[i] == init[i];
        }
      }
    }
  }

  /** Per-owner quantities add up to the whole lot: nothing is attributed twice or lost. */
  lemma {:induction false} SharesAddUp(window: seq<Execution>, entry: Side, candidates: seq<Candidate>)
    requires Unambiguous(candidates) && EntryOnly(window, entry) && AllOwned(window, OrderOwners(candidates))
    ensures ShareSum(window, OrderOwners(candidates), candidates) == Net(window, entry)
    decreases |window|
  {
    var owners := OrderOwners(candidates);
    if window == [] {
      NoShares(owners, candidates);
    } else {
      var init, last := window[..|window| - 1], window[|window| - 1];
      SharesAddUp(init, entry, candidates);
      ShareSumGrows(window, owners, candidates);
      OwnersHaveStatuses(candidates);
      var i := StatusAt(candidates, owners[last.orderId]);
    }
  }

  lemma {:induction false} NoShares(owners: map<string, string>, candidates: seq<Candidate>)
    ensures ShareSum([], owners, candidates) == 0.0
  {
    if candidates != [] {
      NoShares(owners, candidates[..|candidates| - 1]);
    }
  }

  /** A share of the closing fee proportional to the quantity attributed to one candidate. */
  function FeeShare(closing: Execution, share: real): real
    requires closing.quantity != 0.0
  {
    closing.fee * share / closing.quantity
  }

  lemma FeeShareAdds(closing: Execution, x: real, y: real)
    requires closing.quantity != 0.0
    ensures FeeShare(closing, x + y) == FeeShare(closing, x) + FeeShare(closing, y)
  {
    A.Distributes(closing.fee, x, y);
    A.QuotientAdds(closing.fee * x, closing.fee * y, closing.quantity);
  }

  lemma WholeFee(closing: Execution, whole: real)
    requires closing.quantity != 0.0 && whole == closing.quantity
    ensures FeeShare(closing, whole) == closing.fee
  {
    A.DivideBack(closing.fee, closing.quantity);
  }

  function FeeSum(closing: Execution, window: seq<Execution>, owners: map<string, string>, candidates: seq<Candidate>): real
    requires closing.quantity != 0.0
  {
    if candidates == [] then 0.0
    else
      FeeSum(closing, window, owners, candidates[..|candidates| - 1])
      + FeeShare(closing, Share(window, owners, candidates[|candidates| - 1].id))
  }

  lemma {:induction false} FeeSumIsProportional(closing: Execution, window: seq<Execution>, owners: map<string, string>,
                                                candidates: seq<Candidate>)
    requires closing.quantity != 0.0
    ensures FeeSum(closing, window, owners, candidates) == FeeShare(closing, ShareSum(window, owners, candidates))
  {
    if candidates != [] {
      var init := candidates[..|candidates| - 1];
      FeeSumIsProportional(closing, window, owners, init);
      FeeShareAdds(closing, ShareSum(window, owners, init), Share(window, owners, candidates[|candidates| - 1].id));
    }
  }

  /** The lot's quantities and the closing fee are conserved over the owners. */
  lemma {:induction false} ClosureConserves(trade: Trade, position: Option<Position>, execs: seq<Execution>, candidates: seq<Candidate>,
                         openIds: set<string>, unresolved: bool, split: int, k: int)
    requires ValidExecutions(execs)
    requires Shows(trade, position, execs, candidates, openIds, unresolved, split, k)
    ensures var n, owners := |execs| - 1, OrderOwners(candidates);
            && ShareSum(execs[split..n], owners, candidates) == execs[n].quantity
            && FeeSum(execs[n], execs[split..n], owners, candidates) == execs[n].fee
  {
    var n, owners := |execs| - 1, OrderOwners(candidates);
    var window, closing := execs[split..n], execs[n];
    assert execs[..n][split..] == window;
    SharesAddUp(window, EntrySide(trade.direction), candidates);
    FeeSumIsProportional(closing, window, owners, candidates);
    WholeFee(closing, ShareSum(window, owners, candidates));
  }

  /** Two owners share a lot without overlap. */
  lemma {:induction false} TwoSharesFit(window: seq<Execution>, entry: Side, owners: map<string, string>, a: string, b: string)
    requires ValidExecutions(window) && EntryOnly(window, entry) && a != b
    ensures Share(window, owners, a) + Share(window, owners, b) <= Net(window, entry)
  {
    if window != [] {
      TwoSharesFit(window[..|window| - 1], entry, owners, a, b);
    }
  }

  /** The trade closed only part of the aggregate execution. */
  lemma {:induction false} TradeIsStrictPart(trade: Trade, position: Option<Position>, execs: seq<Execution>, candidates: seq<Candidate>,
                          openIds: set<string>, unresolved: bool, split: int, k: int)
    requires ValidExecutions(execs)
    requires Shows(trade, position, execs, candidates, openIds, unresolved, split, k)
    ensures trade.entryQuantity.value < execs[|execs| - 1].quantity
  {
    var n := |execs| - 1;
    assert execs[..n][split..] == execs[split..n];
    TwoSharesFit(execs[split..n], EntrySide(trade.direction), OrderOwners(candidates), trade.candidateId, candidates[k].id);
  }

  // ----- settled history -----

  lemma PrefixMoves(history: seq<Execution>, execs: seq<Execution>, entry: Side, split: int)
    requires execs != [] && Net(history, entry) == 0.0 && 0 <= split <= |execs| - 1
    ensures var whole, h := history + execs, |history|;
            && whole[h + split..|whole| - 1] == execs[split..|execs| - 1]
            && (OpensLot(whole[..|whole| - 1], entry, h + split) <==> OpensLot(execs[..|execs| - 1], entry, split))
  {
    var whole, h, n := history + execs, |history|, |execs| - 1;
    assert whole[..|whole| - 1] == history + execs[..n];
    assert whole[..|whole| - 1][..h + split] == history + execs[..n][..split];
    NetSplits(history, execs[..n][..split], entry);
    assert whole[..|whole| - 1][h + split..] == execs[..n][split..];
  }

  /** Executions that net to zero before the first one change neither the verdict nor its witnesses. */
  lemma {:induction false} SettledHistoryKeepsClaim(trade: Trade, position: Option<Position>, history: seq<Execution>, execs: seq<Execution>,
                                 candidates: seq<Candidate>, openIds: set<string>, unresolved: bool, split: int, k: int)
    requires execs != [] && 0 <= split <= |execs| - 1
    requires Attested(trade) && Net(history, EntrySide(trade.direction)) == 0.0
    requires OneSymbol(history + execs, trade.symbol) && StrictlyIncreasing(history + execs)
    ensures Shows(trade, position, history + execs, candidates, openIds, unresolved, |history| + split, k)
            <==> Shows(trade, position, execs, candidates, openIds, unresolved, split, k)
  {
    PrefixMoves(history, execs, EntrySide(trade.direction), split);
    SuffixIsTrusted(history, execs, trade.symbol);
    var whole := history + execs;
    assert whole[|whole| - 1] == execs[|execs| - 1];
  }

  lemma SuffixIsTrusted(history: seq<Execution>, execs: seq<Execution>, symbol: string)
    requires OneSymbol(history + execs, symbol) && StrictlyIncreasing(history + execs)
    ensures OneSymbol(execs, symbol) && StrictlyIncreasing(execs)
  {
    forall i | 0 <= i < |execs| ensures execs[i] == (history + execs)[|history| + i] {}
  }

  /** No lot of the whole history can start inside the settled part, unless it is empty of execs. */
  lemma LotStartsAfterHistory(history: seq<Execution>, execs: seq<Execution>, entry: Side, t: int)
    requires ValidExecutions(history + execs) && execs != [] && Net(history, entry) == 0.0
    requires OpensLot((history + execs)[..|history + execs| - 1], entry, t)
    ensures |history| <= t
  {
    var prefix := (history + execs)[..|history + execs| - 1];
    if t < |history| {
      assert prefix[..|history|] == history;
      LotIsUnique(prefix, entry, t, |history|);
    }
  }

  /** A witness of the unsettled part is one of the whole history, with the same evidence. */
  lemma {:induction false} SettledHistoryKeepsEvidence(trade: Trade, position: Option<Position>, history: seq<Execution>, execs: seq<Execution>,
                                    candidates: seq<Candidate>, openIds: set<string>, unresolved: bool, split: int, k: int)
    requires ValidExecutions(history + execs) && ValidExecutions(execs) && execs != []
    requires Net(history, EntrySide(trade.direction)) == 0.0
    requires OneSymbol(history + execs, trade.symbol) && StrictlyIncreasing(history + execs)
    requires Shows(trade, position, execs, candidates, openIds, unresolved, split, k)
    ensures Shows(trade, position, history + execs, candidates, openIds, unresolved, |history| + split, k)
    ensures EvidenceOf(trade, history + execs, candidates, |history| + split, k)
            == EvidenceOf(trade, execs, candidates, split, k)
  {
    SettledHistoryKeepsClaim(trade, position, history, execs, candidates, openIds, unresolved, split, k);
    PrefixMoves(history, execs, EntrySide(trade.direction), split);
  }

  /** A witness of the whole history is one of the unsettled part. */
  lemma {:induction false} ClaimIsUnsettled(trade: Trade, position: Option<Position>, history: seq<Execution>, execs: seq<Execution>,
                                            candidates: seq<Candidate>, openIds: set<string>, unresolved: bool, t: int, k: int)
    requires ValidExecutions(history + execs) && execs != []
    requires Net(history, EntrySide(trade.direction)) == 0.0
    requires OneSymbol(history + execs, trade.symbol) && StrictlyIncreasing(history + execs)
    requires Shows(trade, position, history + execs, candidates, openIds, unresolved, t, k)
    ensures |history| <= t < |history + execs|
    ensures Shows(trade, position, execs, candidates, openIds, unresolved, t - |history|, k)
  {
    LotStartsAfterHistory(history, execs, EntrySide(trade.direction), t);
    SettledHistoryKeepsClaim(trade, position, history, execs, candidates, openIds, unresolved, t - |history|, k);
  }

  /** The verdict is that of the unsettled part alone. */
  lemma {:induction false} SettledHistoryIsIrrelevant(trade: Trade, position: Option<Position>, history: seq<Execution>, execs: seq<Execution>,
                                   candidates: seq<Candidate>, openIds: set<string>, unresolved: bool)
    requires ValidExecutions(history + execs) && ValidExecutions(execs) && execs != []
    requires Net(history, EntrySide(trade.direction)) == 0.0
    requires OneSymbol(history + execs, trade.symbol) && StrictlyIncreasing(history + execs)
    ensures Provable(trade, position, history + execs, candidates, openIds, unresolved)
            <==> Provable(trade, position, execs, candidates, openIds, unresolved)
  {
    forall t, k | Shows(trade, position, history + execs, candidates, openIds, unresolved, t, k)
      ensures Provable(trade, position, execs, candidates, openIds, unresolved)
    {
      ClaimIsUnsettled(trade, position, history, execs, candidates, openIds, unresolved, t, k);
    }
    forall split, k | Shows(trade, position, execs, candidates, openIds, unresolved, split, k)
      ensures Provable(trade, position, history + execs, candidates, openIds, unresolved)
    {
      SettledHistoryKeepsEvidence(trade, position, history, execs, candidates, openIds, unresolved, split, k);
    }
  }
}
