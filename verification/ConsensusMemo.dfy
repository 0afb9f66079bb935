/**
  The exact memo of the calibration sweep: boundaries, an LRU of pair sets and terminal
  evidence are reused across parameter sets, and every memoized selection must equal the
  one computed afresh.
 */
module ConsensusMemo {
  import opened Market
  import opened Wrappers
  import R = Ranking
  import B = ConsensusBoundary
  import P = ConsensusPair
  import T = ConsensusTerminal
  import I = ConsensusPairing
  import S = ConsensusSelection

  datatype BoundaryKey = BoundaryKey(band: real, separation: real)
  {
    predicate Valid() {
      0.0 < band < separation
    }
  }

  /** One flat parameter set, grouped by the stage that reads it. */
  datatype ParameterSet = ParameterSet(boundary: BoundaryKey, pair: P.PairParams, terminal: T.Parameters, gates: S.Gates)

  predicate ValidSet(p: ParameterSet) {
    p.boundary.Valid() && T.ValidParameters(p.terminal)
  }

  /** Boundaries of one side by inlier set: a pairing names its boundaries by these keys. */
  type Side = map<seq<int>, B.Boundary>

  datatype Sides = Sides(upper: Side, lower: Side)

  datatype Identity = Identity(upper: seq<int>, lower: seq<int>)

  type Measurer = (B.Boundary, B.Boundary, P.PairParams) -> P.Metrics

  /** The terminal stage receives the whole pair, its metrics included. */
  type Evaluator = (P.Pair, T.Parameters) -> T.Evidence

  /** One case: each side's pivots, the episode, and the pure stages of the pipeline. */
  datatype Frame = Frame(upper: B.Evidence, lower: B.Evidence, start: int, end: int, measure: Measurer, terminal: Evaluator)
  {
    predicate HasPivots() {
      upper.Valid() && lower.Valid()
    }

    ghost predicate Valid() {
      HasPivots() && ReadsLinesOnly(terminal)
    }

    function EvidenceAt(side: B.Evidence, key: BoundaryKey): B.Evidence {
      side.(band := key.band, separation := key.separation)
    }
  }

  predicate SameChannel(a: P.Pair, b: P.Pair) {
    a.upper.line == b.upper.line && a.lower.line == b.lower.line && a.start == b.start && a.end == b.end
  }

  /** The evidence of a pair is that of its two lines over its episode. */
  ghost predicate ReadsLinesOnly(terminal: Evaluator) {
    forall a, b, t {:trigger SameChannel(a, b), terminal(a, t)} :: SameChannel(a, b) ==> terminal(a, t) == terminal(b, t)
  }

  // ----- the uncached pipeline -----

  ghost predicate IsSides(f: Frame, key: BoundaryKey, s: Sides)
    requires f.HasPivots() && key.Valid()
  {
    && B.BySupport(B.SeedTable(f.EvidenceAt(f.upper, key)), s.upper)
    && B.BySupport(B.SeedTable(f.EvidenceAt(f.lower, key)), s.lower)
  }

  lemma SidesAreUnique(f: Frame, key: BoundaryKey, a: Sides, b: Sides)
    requires f.HasPivots() && key.Valid() && IsSides(f, key, a) && IsSides(f, key, b)
    ensures a == b
  {
    B.BySupportIsUnique(f.EvidenceAt(f.upper, key), a.upper, b.upper);
    B.BySupportIsUnique(f.EvidenceAt(f.lower, key), a.lower, b.lower);
  }

  function PairOf(f: Frame, u: B.Boundary, l: B.Boundary, p: P.PairParams): P.Pair {
    P.Pair(u, l, f.start, f.end, f.measure(u, l, p))
  }

  /** Every pairing of an upper with a lower boundary, by identity. */
  function PairsOf(f: Frame, s: Sides, p: P.PairParams): map<Identity, P.Pair> {
    map id | id in (set u, l | u in s.upper && l in s.lower :: Identity(u, l)) ::
      PairOf(f, s.upper[id.upper], s.lower[id.lower], p)
  }

  function Candidates(f: Frame, pairs: map<Identity, P.Pair>, t: T.Parameters): map<Identity, S.Candidate> {
    map id | id in pairs :: S.Candidate(pairs[id], f.terminal(pairs[id], t))
  }

  /** The selection reported for a set of candidates. */
  ghost predicate Chosen(candidates: map<Identity, S.Candidate>, g: S.Gates, o: S.Selection) {
    exists ranked: seq<S.Candidate> ::
      R.Ranked(S.ByEvidence(g), ranked) && multiset(ranked) == multiset(candidates.Values) && o == S.Report(ranked, g)
  }

  ghost predicate IsDirect(f: Frame, p: ParameterSet, o: S.Selection)
    requires f.HasPivots() && ValidSet(p)
  {
    exists s :: IsSides(f, p.boundary, s) && Chosen(Candidates(f, PairsOf(f, s, p.pair), p.terminal), p.gates, o)
  }

  predicate Named(candidates: map<Identity, S.Candidate>) {
    forall id :: id in candidates ==>
      candidates[id].pair.upper.support == id.upper && candidates[id].pair.lower.support == id.lower
  }

  lemma TiedAreSame(candidates: map<Identity, S.Candidate>, g: S.Gates, a: S.Candidate, b: S.Candidate)
    requires Named(candidates) && a in candidates.Values && b in candidates.Values && S.Leads(g, a, b) && S.Leads(g, b, a)
    ensures a == b
  {
    S.LeadsIsTotal(g, a, b);
    I.KeyIsIdentity(a.pair.upper, b.pair.upper);
    I.KeyIsIdentity(a.pair.lower, b.pair.lower);
    var c :| c in candidates && candidates[c] == a;
    var d :| d in candidates && candidates[d] == b;
  }

  /** A candidate's identity is its key, so the order of evidence decides between any two. */
  lemma ChoiceIsUnique(candidates: map<Identity, S.Candidate>, g: S.Gates, a: S.Selection, b: S.Selection)
    requires Named(candidates) && Chosen(candidates, g, a) && Chosen(candidates, g, b)
    ensures a == b
  {
    var order := S.ByEvidence(g);
    var x: seq<S.Candidate> :|
      R.Ranked(order, x) && multiset(x) == multiset(candidates.Values) && a == S.Report(x, g);
    var y: seq<S.Candidate> :|
      R.Ranked(order, y) && multiset(y) == multiset(candidates.Values) && b == S.Report(y, g);
    R.ListsTheSet(x, candidates.Values);
    forall i, j | 0 <= i < |x| && 0 <= j < |x| && S.Leads(g, x[i], x[j]) && S.Leads(g, x[j], x[i]) ensures x[i] == x[j] {
      assert x[i] in candidates.Values && x[j] in candidates.Values;
      TiedAreSame(candidates, g, x[i], x[j]);
    }
    R.RankingIsUnique(order, x, y);
  }

  lemma PairsAreNamed(f: Frame, p: ParameterSet, s: Sides)
    requires f.HasPivots() && ValidSet(p) && IsSides(f, p.boundary, s)
    ensures Named(Candidates(f, PairsOf(f, s, p.pair), p.terminal))
  {
    var pairs := PairsOf(f, s, p.pair);
    forall id | id in pairs ensures pairs[id].upper.support == id.upper && pairs[id].lower.support == id.lower {
      PairsBelong(f, p.boundary, s, p.pair, id);
    }
  }

  lemma DirectIsUnique(f: Frame, p: ParameterSet, a: S.Selection, b: S.Selection)
    requires f.HasPivots() && ValidSet(p) && IsDirect(f, p, a) && IsDirect(f, p, b)
    ensures a == b
  {
    var s :| IsSides(f, p.boundary, s) && Chosen(Candidates(f, PairsOf(f, s, p.pair), p.terminal), p.gates, a);
    var t :| IsSides(f, p.boundary, t) && Chosen(Candidates(f, PairsOf(f, t, p.pair), p.terminal), p.gates, b);
    SidesAreUnique(f, p.boundary, s, t);
    PairsAreNamed(f, p, s);
    ChoiceIsUnique(Candidates(f, PairsOf(f, s, p.pair), p.terminal), p.gates, a, b);
  }

  // ----- the memo -----

  datatype PairKey = PairKey(boundary: BoundaryKey, params: P.PairParams)

  /** The pair parameters are deliberately absent. */
  datatype TerminalKey = TerminalKey(boundary: BoundaryKey, id: Identity, params: T.Parameters)

  datatype Slot = Slot(key: PairKey, pairs: map<Identity, P.Pair>)

  datatype MemoError = NoBoundaries | BoundaryMismatch | EvictedAtOnce

  function Position(slots: seq<Slot>, key: PairKey): (r: Option<nat>)
    ensures r.Some? ==> r.value < |slots| && slots[r.value].key == key
    ensures r.None? ==> forall i :: 0 <= i < |slots| ==> slots[i].key != key
  {
    if slots == [] then None
    else if slots[|slots| - 1].key == key then Some(|slots| - 1)
    else Position(slots[..|slots| - 1], key)
  }

  /** Drops the least recently used slots beyond the limit. */
  function Trim(slots: seq<Slot>, limit: nat): seq<Slot> {
    if |slots| <= limit then slots else slots[|slots| - limit..]
  }

  /** A hit moves to the end; a miss is appended and may push out the oldest slots. */
  function Touch(slots: seq<Slot>, slot: Slot, limit: nat): seq<Slot> {
    match Position(slots, slot.key)
    case Some(i) => slots[..i] + slots[i + 1..] + [slots[i]]
    case None => Trim(slots + [slot], limit)
  }

  /** The boundaries of one side as an object: a caller must hand back the very one it was given. */
  class BoundarySet {
    const found: Side

    constructor (found: Side)
      ensures this.found == found
    {
      this.found := found;
    }
  }

  datatype Held = Held(upper: BoundarySet, lower: BoundarySet)
  {
    function Contents(): Sides {
      Sides(upper.found, lower.found)
    }
  }

  function Contents(boundaries: map<BoundaryKey, Held>): map<BoundaryKey, Sides> {
    map key | key in boundaries :: boundaries[key].Contents()
  }

  ghost predicate AreSides(f: Frame, boundaries: map<BoundaryKey, Held>)
    requires f.HasPivots()
  {
    forall k :: k in boundaries ==> k.Valid() && IsSides(f, k, boundaries[k].Contents())
  }

  ghost predicate IsStock(f: Frame, limit: nat, boundaries: map<BoundaryKey, Held>, pairs: seq<Slot>, key: Option<BoundaryKey>) {
    && f.HasPivots()
    && |pairs| <= limit
    && (key.Some? ==> key.value in boundaries)
    && AreSides(f, boundaries)
    && SlotsAreExact(f, Contents(boundaries), pairs)
  }

  class ExactMemo {
    const frame: Frame
    const pairSlots: nat
    var boundaries: map<BoundaryKey, Held>
    var pairs: seq<Slot>
    var terminals: map<TerminalKey, T.Evidence>
    var boundaryKey: Option<BoundaryKey>

    /** Boundaries and pair sets are those of the frame, whatever its terminal stage reads. */
    ghost predicate Stocked()
      reads this
    {
      IsStock(frame, pairSlots, boundaries, pairs, boundaryKey)
    }

    ghost predicate Valid()
      reads this
    {
      Stocked() && frame.Valid() && EntriesAreExact(frame, Contents(boundaries), terminals)
    }

    constructor (frame: Frame, pairSlots: nat)
      requires frame.HasPivots()
      ensures Stocked() && (frame.Valid() ==> Valid()) && this.frame == frame && this.pairSlots == pairSlots
      ensures boundaries == map[] && pairs == [] && terminals == map[] && boundaryKey == None
    {
      this.frame := frame;
      this.pairSlots := pairSlots;
      boundaries := map[];
      pairs := [];
      terminals := map[];
      boundaryKey := None;
    }

    method BoundariesFor(key: BoundaryKey) returns (s: Held)
      requires Stocked() && key.Valid()
      modifies this
      ensures Stocked() && boundaryKey == Some(key)
      ensures key in boundaries && s == boundaries[key] && IsSides(frame, key, s.Contents())
      ensures boundaries == old(boundaries)[key := s] && (key in old(boundaries) ==> boundaries == old(boundaries))
      ensures key !in old(boundaries) ==> fresh(s.upper) && fresh(s.lower)
      ensures pairs == old(pairs) && terminals == old(terminals)
      ensures old(Valid()) ==> Valid()
    {
      if key !in boundaries {
        var upper := B.BuildBoundaries(frame.EvidenceAt(frame.upper, key));
        var lower := B.BuildBoundaries(frame.EvidenceAt(frame.lower, key));
        var upperSet := new BoundarySet(upper);
        var lowerSet := new BoundarySet(lower);
        var built := Held(upperSet, lowerSet);
        BoundariesGrow(frame, Contents(boundaries), key, built.Contents(), pairs, terminals);
        assert Contents(boundaries[key := built]) == Contents(boundaries)[key := built.Contents()];
        boundaries := boundaries[key := built];
      }
      boundaryKey := Some(key);
      s := boundaries[key];
    }

    method Pairs(s: Held, params: P.PairParams) returns (r: Result<map<Identity, P.Pair>, MemoError>)
      requires Stocked()
      modifies this`pairs
      ensures Stocked()
      ensures r == if boundaryKey.None? then Failure(NoBoundaries)
                   else if s.upper != boundaries[boundaryKey.value].upper || s.lower != boundaries[boundaryKey.value].lower
                   then Failure(BoundaryMismatch)
                   else if pairSlots == 0 then Failure(EvictedAtOnce)
                   else Success(PairsOf(frame, s.Contents(), params))
      ensures pairs == if boundaryKey.None? || s != boundaries[boundaryKey.value] then old(pairs)
                       else Touch(old(pairs), Slot(PairKey(boundaryKey.value, params), PairsOf(frame, s.Contents(), params)),
                                  pairSlots)
    {
      if boundaryKey.None? {
        return Failure(NoBoundaries);
      }
      var expected := boundaries[boundaryKey.value];
      if s.upper != expected.upper || s.lower != expected.lower {
        return Failure(BoundaryMismatch);
      }
      var key := PairKey(boundaryKey.value, params);
      ghost var slot := Slot(key, PairsOf(frame, s.Contents(), params));
      TouchKeepsSlots(frame, Contents(boundaries), pairs, slot, pairSlots);
      pairs := Use(frame, pairs, key, s.Contents(), pairSlots);
      var found := Position(pairs, key);
      if found.None? {
        return Failure(EvictedAtOnce);
      }
      return Success(pairs[found.value].pairs);
    }

    /** Serves the stored evidence of the key, whichever pair it was computed from. */
    method Terminal(pair: P.Pair, params: T.Parameters) returns (e: T.Evidence)
      requires boundaryKey.Some?
      modifies this`terminals
      ensures var key := TerminalKey(boundaryKey.value, Identity(pair.upper.support, pair.lower.support), params);
              && terminals == old(terminals)[key := e]
              && e == if key in old(terminals) then old(terminals)[key] else frame.terminal(pair, params)
    {
      var key := TerminalKey(boundaryKey.value, Identity(pair.upper.support, pair.lower.support), params);
      if key !in terminals {
        terminals := terminals[key := frame.terminal(pair, params)];
      }
      e := terminals[key];
    }

    /** One case under one parameter set. */
    method CaseOutcome(p: ParameterSet) returns (r: Result<S.Selection, MemoError>)
      requires Valid() && ValidSet(p)
      modifies this
      ensures Valid()
      ensures if pairSlots == 0 then r == Failure(EvictedAtOnce) else r.Success? && IsDirect(frame, p, r.value)
    {
      var s, found := PairSet(p);
      if found.Failure? {
        return Failure(found.error);
      }
      var outcome := Decide(s, found.value, p);
      return Success(outcome);
    }

    /** The boundaries and pairs of a parameter set, from the memo where they can be. */
    method PairSet(p: ParameterSet) returns (s: Held, found: Result<map<Identity, P.Pair>, MemoError>)
      requires Valid() && ValidSet(p)
      modifies this
      ensures Valid() && boundaryKey == Some(p.boundary) && p.boundary in boundaries && s == boundaries[p.boundary]
      ensures IsSides(frame, p.boundary, s.Contents())
      ensures found == if pairSlots == 0 then Failure(EvictedAtOnce) else Success(PairsOf(frame, s.Contents(), p.pair))
    {
      s := BoundariesFor(p.boundary);
      found := Pairs(s, p.pair);
    }

    /** The selection over one pair set of the boundaries handed out last. */
    method Decide(s: Held, found: map<Identity, P.Pair>, p: ParameterSet) returns (o: S.Selection)
      requires frame.Valid() && ValidSet(p) && EntriesAreExact(frame, Contents(boundaries), terminals)
      requires boundaryKey == Some(p.boundary) && p.boundary in boundaries && s == boundaries[p.boundary]
      requires IsSides(frame, p.boundary, s.Contents()) && found == PairsOf(frame, s.Contents(), p.pair)
      modifies this`terminals
      ensures EntriesAreExact(frame, Contents(boundaries), terminals) && IsDirect(frame, p, o)
    {
      AllBelong(frame, p.boundary, s.Contents(), p.pair);
      var candidates := Examine(found, p.terminal);
      o := Choose(candidates, p.gates);
      ChosenIsDirect(frame, p, s.Contents(), o);
    }

    /** Terminal evidence for every pair, from the memo where it can be. */
    method Examine(found: map<Identity, P.Pair>, params: T.Parameters) returns (candidates: map<Identity, S.Candidate>)
      requires frame.Valid() && EntriesAreExact(frame, Contents(boundaries), terminals)
      requires boundaryKey.Some? && boundaryKey.value in boundaries
      requires forall id :: id in found ==>
        BelongsTo(frame, found[id], boundaries[boundaryKey.value].Contents()) && IdentityOf(found[id]) == id
      modifies this`terminals
      ensures EntriesAreExact(frame, Contents(boundaries), terminals) && candidates == Candidates(frame, found, params)
    {
      ghost var target, held := Candidates(frame, found, params), Contents(boundaries);
      var todo := found.Keys;
      candidates := map[];
      while todo != {}
        invariant EntriesAreExact(frame, held, terminals) && todo <= found.Keys && Agrees(target, candidates, found.Keys - todo)
        decreases todo
      {
        var id :| id in todo;
        ServedIsExact(frame, held, terminals, boundaryKey.value, found[id], params);
        var evidence := Terminal(found[id], params);
        AgreesWithOneMore(target, candidates, found.Keys - todo, id, S.Candidate(found[id], evidence));
        candidates := candidates[id := S.Candidate(found[id], evidence)];
        assert found.Keys - (todo - {id}) == found.Keys - todo + {id};
        todo := todo - {id};
      }
      assert found.Keys - todo == target.Keys;
    }

    /** Any sequence of parameter sets, in any order and with any evictions on the way. */
    method CaseOutcomes(sets: seq<ParameterSet>) returns (outcomes: seq<S.Selection>)
      requires Valid() && 1 <= pairSlots
      requires forall i :: 0 <= i < |sets| ==> ValidSet(sets[i])
      modifies this
      ensures Valid() && |outcomes| == |sets|
      ensures forall i :: 0 <= i < |sets| ==> IsDirect(frame, sets[i], outcomes[i])
    {
      outcomes := [];
      for i := 0 to |sets|
        invariant Valid() && |outcomes| == i
        invariant forall j :: 0 <= j < i ==> IsDirect(frame, sets[j], outcomes[j])
      {
        var r := CaseOutcome(sets[i]);
        outcomes := outcomes + [r.value];
      }
    }
  }

  /** Moves the slot of the key to the end, or computes it and drops the oldest ones. */
  method Use(f: Frame, slots: seq<Slot>, key: PairKey, s: Sides, limit: nat) returns (next: seq<Slot>)
    ensures next == Touch(slots, Slot(key, PairsOf(f, s, key.params)), limit)
  {
    var hit := Position(slots, key);
    if hit.Some? {
      next := slots[..hit.value] + slots[hit.value + 1..] + [slots[hit.value]];
    } else {
      next := Trim(slots + [Slot(key, PairsOf(f, s, key.params))], limit);
    }
  }

  /** The unchanged selection over the candidates, in any order. */
  method Choose(candidates: map<Identity, S.Candidate>, g: S.Gates) returns (o: S.Selection)
    ensures Chosen(candidates, g, o)
  {
    var rows: seq<S.Candidate> := [];
    var todo := candidates.Values;
    while todo != {}
      invariant multiset(rows) + multiset(todo) == multiset(candidates.Values)
      decreases todo
    {
      var c :| c in todo;
      rows := rows + [c];
      todo := todo - {c};
    }
    var ranked: seq<S.Candidate>;
    o, ranked := S.Select(rows, g);
  }

  /** The candidates are the target on these identities and nothing else. */
  predicate Agrees(target: map<Identity, S.Candidate>, candidates: map<Identity, S.Candidate>, ids: set<Identity>) {
    candidates.Keys == ids && forall id :: id in candidates ==> id in target && candidates[id] == target[id]
  }

  lemma AgreesWithOneMore(target: map<Identity, S.Candidate>, candidates: map<Identity, S.Candidate>,
                          ids: set<Identity>, id: Identity, c: S.Candidate)
    requires Agrees(target, candidates, ids) && id in target && target[id] == c
    ensures Agrees(target, candidates[id := c], ids + {id})
  {
  }

  // ----- why entries stay exact -----

  function IdentityOf(pair: P.Pair): Identity {
    Identity(pair.upper.support, pair.lower.support)
  }

  /** The pair's boundaries are the ones its identity names, over the frame's episode; its metrics are free. */
  predicate BelongsTo(f: Frame, pair: P.Pair, s: Sides) {
    && pair.upper.support in s.upper && s.upper[pair.upper.support] == pair.upper
    && pair.lower.support in s.lower && s.lower[pair.lower.support] == pair.lower
    && pair.start == f.start && pair.end == f.end
  }

  /** A stored pair set is the one its key names. */
  ghost predicate SlotIsExact(f: Frame, boundaries: map<BoundaryKey, Sides>, slot: Slot) {
    slot.key.boundary in boundaries && slot.pairs == PairsOf(f, boundaries[slot.key.boundary], slot.key.params)
  }

  /** Stored terminal evidence is that of some pair of the boundaries its key names, whatever parameters built it. */
  ghost predicate EntryIsExact(f: Frame, boundaries: map<BoundaryKey, Sides>, t: TerminalKey, e: T.Evidence) {
    && t.boundary in boundaries
    && exists pair :: BelongsTo(f, pair, boundaries[t.boundary]) && IdentityOf(pair) == t.id && e == f.terminal(pair, t.params)
  }

  ghost predicate SlotsAreExact(f: Frame, boundaries: map<BoundaryKey, Sides>, slots: seq<Slot>) {
    forall i :: 0 <= i < |slots| ==> SlotIsExact(f, boundaries, slots[i])
  }

  ghost predicate EntriesAreExact(f: Frame, boundaries: map<BoundaryKey, Sides>, terminals: map<TerminalKey, T.Evidence>) {
    forall t :: t in terminals ==> EntryIsExact(f, boundaries, t, terminals[t])
  }

  /** Evidence served for a pair is its own, although another pair may have stored it; storing it keeps the memo exact. */
  lemma ServedIsExact(f: Frame, boundaries: map<BoundaryKey, Sides>, terminals: map<TerminalKey, T.Evidence>,
                      boundary: BoundaryKey, pair: P.Pair, params: T.Parameters)
    requires f.Valid() && EntriesAreExact(f, boundaries, terminals)
    requires boundary in boundaries && BelongsTo(f, pair, boundaries[boundary])
    ensures var key, e := TerminalKey(boundary, IdentityOf(pair), params), f.terminal(pair, params);
            && (key in terminals ==> terminals[key] == e)
            && EntriesAreExact(f, boundaries, terminals[key := e])
  {
    var key, e := TerminalKey(boundary, IdentityOf(pair), params), f.terminal(pair, params);
    if key in terminals {
      assert EntryIsExact(f, boundaries, key, terminals[key]);
      var other :| BelongsTo(f, other, boundaries[boundary]) && IdentityOf(other) == key.id && terminals[key] == f.terminal(other, params);
      assert SameChannel(other, pair);
    }
    assert EntryIsExact(f, boundaries, key, e);
  }

  /** With room for at least one slot the touched one is still there, holding what was asked for;
      with none it is evicted at once. */
  lemma TouchKeepsSlots(f: Frame, boundaries: map<BoundaryKey, Sides>, slots: seq<Slot>, slot: Slot, limit: nat)
    requires SlotsAreExact(f, boundaries, slots) && SlotIsExact(f, boundaries, slot) && |slots| <= limit
    ensures var touched := Touch(slots, slot, limit);
            && SlotsAreExact(f, boundaries, touched) && |touched| <= limit
            && (0 < limit ==> Position(touched, slot.key) == Some(|touched| - 1 as nat) && touched[|touched| - 1] == slot)
            && (limit == 0 ==> Position(touched, slot.key) == None)
  {
  }

  /** An inlier set determines its boundary, so an identity determines both boundaries of a pair. */
  lemma PairsBelong(f: Frame, key: BoundaryKey, s: Sides, p: P.PairParams, id: Identity)
    requires f.HasPivots() && key.Valid() && IsSides(f, key, s)
    requires id in PairsOf(f, s, p)
    ensures BelongsTo(f, PairsOf(f, s, p)[id], s) && IdentityOf(PairsOf(f, s, p)[id]) == id
  {
    assert s.upper[id.upper].support == id.upper;
    assert s.lower[id.lower].support == id.lower;
  }

  lemma AllBelong(f: Frame, key: BoundaryKey, s: Sides, p: P.PairParams)
    requires f.HasPivots() && key.Valid() && IsSides(f, key, s)
    ensures forall id :: id in PairsOf(f, s, p) ==>
      BelongsTo(f, PairsOf(f, s, p)[id], s) && IdentityOf(PairsOf(f, s, p)[id]) == id
  {
    forall id | id in PairsOf(f, s, p) ensures BelongsTo(f, PairsOf(f, s, p)[id], s) && IdentityOf(PairsOf(f, s, p)[id]) == id {
      PairsBelong(f, key, s, p, id);
    }
  }

  lemma ChosenIsDirect(f: Frame, p: ParameterSet, s: Sides, o: S.Selection)
    requires f.HasPivots() && ValidSet(p) && IsSides(f, p.boundary, s)
    requires Chosen(Candidates(f, PairsOf(f, s, p.pair), p.terminal), p.gates, o)
    ensures IsDirect(f, p, o)
  {
  }

  lemma BoundariesGrow(f: Frame, before: map<BoundaryKey, Sides>, key: BoundaryKey, s: Sides,
                       pairs: seq<Slot>, terminals: map<TerminalKey, T.Evidence>)
    requires key !in before && SlotsAreExact(f, before, pairs)
    ensures SlotsAreExact(f, before[key := s], pairs)
    ensures EntriesAreExact(f, before, terminals) ==> EntriesAreExact(f, before[key := s], terminals)
  {
    if EntriesAreExact(f, before, terminals) {
      forall t | t in terminals ensures EntryIsExact(f, before[key := s], t, terminals[t]) {
        assert EntryIsExact(f, before, t, terminals[t]);
        var pair :| BelongsTo(f, pair, before[t.boundary]) && IdentityOf(pair) == t.id && terminals[t] == f.terminal(pair, t.params);
        assert BelongsTo(f, pair, before[key := s][t.boundary]);
      }
    }
  }
}
