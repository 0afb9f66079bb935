/**
  A calibration case: the memo instantiated with the real stages, its outcome as the selection
  over the two boundary sets, and why the terminal stage must not read the metrics of a pair.
 */
module ConsensusCase {
  import opened Market
  import opened Wrappers
  import opened ConsensusMemo
  import R = Ranking
  import F = ConsensusFit
  import B = ConsensusBoundary
  import P = ConsensusPair
  import T = ConsensusTerminal
  import I = ConsensusPairing
  import S = ConsensusSelection

  /** The episode of a case is its whole historical prefix. */
  predicate ValidCase(h: P.History) {
    P.Episode(h, 0, |h.rows| - 1)
  }

  function CaseFrame(h: P.History, upper: B.Evidence, lower: B.Evidence): Frame
    requires ValidCase(h)
  {
    Frame(upper, lower, 0, |h.rows| - 1,
          (u: B.Boundary, l: B.Boundary, p: P.PairParams) => P.Measure(h, u, l, 0, |h.rows| - 1, p),
          (pair: P.Pair, t: T.Parameters) => S.Evaluate(h, pair, t))
  }

  /** The terminal stage of a case is handed the whole pair and reads its two lines and its episode. */
  lemma CaseFrameIsValid(h: P.History, upper: B.Evidence, lower: B.Evidence)
    requires ValidCase(h) && upper.Valid() && lower.Valid()
    ensures CaseFrame(h, upper, lower).Valid()
  {
    forall a, b, t | SameChannel(a, b) ensures S.Evaluate(h, a, t) == S.Evaluate(h, b, t) {
    }
  }

  // ----- a case is one selection -----

  function RequestOf(h: P.History, p: ParameterSet): S.Request
    requires ValidCase(h)
  {
    S.Request(h, 0, |h.rows| - 1, p.pair, p.terminal, p.gates)
  }

  /** Each boundary of a side is found under its own inlier set. */
  predicate Lists(side: Side, listed: seq<B.Boundary>) {
    && (forall b :: b in listed ==> b.support in side && side[b.support] == b)
    && forall k :: k in side ==> side[k] in listed && side[k].support == k
  }

  lemma ListedUnderSupport(e: B.Evidence, side: Side, listed: seq<B.Boundary>)
    requires e.Valid() && B.BySupport(B.SeedTable(e), side) && multiset(listed) == multiset(side.Values)
    ensures R.NoRepeats(I.Canonical(listed)) && Lists(side, I.Canonical(listed))
  {
    R.ListsTheSet(listed, side.Values);
    OneSide(e, side);
    I.CanonicalOfDistinct(listed);
    R.ListsTheSet(I.Canonical(listed), side.Values);
  }

  /** The boundaries of a side have one side and different inlier sets. */
  lemma OneSide(e: B.Evidence, side: Side)
    requires e.Valid() && B.BySupport(B.SeedTable(e), side)
    ensures forall a, b :: a in side.Values && b in side.Values && a != b ==> I.Key(a) != I.Key(b)
  {
    forall a, b | a in side.Values && b in side.Values && a != b ensures I.Key(a) != I.Key(b) {
      I.KeyIsIdentity(a, b);
    }
  }

  /** Candidates made of every upper with every lower boundary. */
  predicate MadeBy(make: (B.Boundary, B.Boundary) -> S.Candidate, s: Sides, candidates: map<Identity, S.Candidate>) {
    && (forall u, l :: u in s.upper && l in s.lower ==> Identity(u, l) in candidates)
    && forall id :: id in candidates ==>
         id.upper in s.upper && id.lower in s.lower && candidates[id] == make(s.upper[id.upper], s.lower[id.lower])
  }

  lemma CandidatesArePairings(make: (B.Boundary, B.Boundary) -> S.Candidate, s: Sides, candidates: map<Identity, S.Candidate>,
                              uppers: seq<B.Boundary>, lowers: seq<B.Boundary>)
    requires S.Injective(make) && MadeBy(make, s, candidates)
    requires R.NoRepeats(uppers) && R.NoRepeats(lowers) && Lists(s.upper, uppers) && Lists(s.lower, lowers)
    ensures multiset(S.Pairings(make, uppers, lowers)) == multiset(candidates.Values)
  {
    var rows := S.Pairings(make, uppers, lowers);
    S.PairingsHaveNoRepeats(make, uppers, lowers);
    forall c ensures c in rows <==> c in candidates.Values {
      S.PairingsMembers(make, uppers, lowers, c);
      if c in rows {
        var u, l :| u in uppers && l in lowers && c == make(u, l);
        assert candidates[Identity(u.support, l.support)] == c;
      }
      if c in candidates.Values {
        var id :| id in candidates && candidates[id] == c;
        assert s.upper[id.upper] in uppers && s.lower[id.lower] in lowers;
      }
    }
    R.ListingOfSet(rows, candidates.Values);
  }

  lemma CaseMeasures(h: P.History, upper: B.Evidence, lower: B.Evidence, u: B.Boundary, l: B.Boundary, p: P.PairParams)
    requires ValidCase(h)
    ensures PairOf(CaseFrame(h, upper, lower), u, l, p)
         == P.Pair(u, l, 0, |h.rows| - 1, P.Measure(h, u, l, 0, |h.rows| - 1, p))
  {
  }

  lemma CaseMakes(h: P.History, upper: B.Evidence, lower: B.Evidence, p: ParameterSet, u: B.Boundary, l: B.Boundary)
    requires ValidCase(h) && ValidSet(p)
    ensures var f := CaseFrame(h, upper, lower);
            S.Candidate(PairOf(f, u, l, p.pair), f.terminal(PairOf(f, u, l, p.pair), p.terminal))
            == S.Made(RequestOf(h, p), u, l)
  {
    var pair := PairOf(CaseFrame(h, upper, lower), u, l, p.pair);
    CaseMeasures(h, upper, lower, u, l, p.pair);
    CaseEvaluates(h, upper, lower, pair, p.terminal);
    CaseRequests(h, p, u, l, pair);
  }

  lemma CaseEvaluates(h: P.History, upper: B.Evidence, lower: B.Evidence, pair: P.Pair, t: T.Parameters)
    requires ValidCase(h)
    ensures CaseFrame(h, upper, lower).terminal(pair, t) == S.Evaluate(h, pair, t)
  {
  }

  lemma CaseRequests(h: P.History, p: ParameterSet, u: B.Boundary, l: B.Boundary, pair: P.Pair)
    requires ValidCase(h) && ValidSet(p)
    requires pair == P.Pair(u, l, 0, |h.rows| - 1, P.Measure(h, u, l, 0, |h.rows| - 1, p.pair))
    ensures S.Made(RequestOf(h, p), u, l) == S.Candidate(pair, S.Evaluate(h, pair, p.terminal))
  {
    S.MadeOf(RequestOf(h, p), u, l, pair);
  }

  lemma CaseMakesCandidates(h: P.History, upper: B.Evidence, lower: B.Evidence, p: ParameterSet, s: Sides)
    requires ValidCase(h) && ValidSet(p)
    ensures var f := CaseFrame(h, upper, lower);
            MadeBy(S.Maker(RequestOf(h, p)), s, Candidates(f, PairsOf(f, s, p.pair), p.terminal))
  {
    var f, make := CaseFrame(h, upper, lower), S.Maker(RequestOf(h, p));
    var candidates := Candidates(f, PairsOf(f, s, p.pair), p.terminal);
    forall id | id in candidates ensures candidates[id] == make(s.upper[id.upper], s.lower[id.lower]) {
      CaseMakes(h, upper, lower, p, s.upper[id.upper], s.lower[id.lower]);
    }
  }

  /** The uncached outcome of a case is the envelope selection over its two boundary sets, listed in any order. */
  lemma CaseIsTheSelection(h: P.History, upper: B.Evidence, lower: B.Evidence, p: ParameterSet, s: Sides,
                           uppers: seq<B.Boundary>, lowers: seq<B.Boundary>, ranked: seq<S.Candidate>)
    requires ValidCase(h) && upper.Valid() && lower.Valid() && ValidSet(p)
    requires IsSides(CaseFrame(h, upper, lower), p.boundary, s)
    requires multiset(uppers) == multiset(s.upper.Values) && multiset(lowers) == multiset(s.lower.Values)
    requires S.RankingOf(S.Pairings(S.Maker(RequestOf(h, p)), I.Canonical(uppers), I.Canonical(lowers)), p.gates, ranked)
    ensures IsDirect(CaseFrame(h, upper, lower), p, S.Report(ranked, p.gates))
  {
    var f := CaseFrame(h, upper, lower);
    var us, ls := I.Canonical(uppers), I.Canonical(lowers);
    ListedUnderSupport(f.EvidenceAt(f.upper, p.boundary), s.upper, uppers);
    ListedUnderSupport(f.EvidenceAt(f.lower, p.boundary), s.lower, lowers);
    CaseMakesCandidates(h, upper, lower, p, s);
    S.MakerMakes(RequestOf(h, p));
    CandidatesArePairings(S.Maker(RequestOf(h, p)), s, Candidates(f, PairsOf(f, s, p.pair), p.terminal), us, ls);
    assert Chosen(Candidates(f, PairsOf(f, s, p.pair), p.terminal), p.gates, S.Report(ranked, p.gates));
    ChosenIsDirect(f, p, s, S.Report(ranked, p.gates));
  }

  /** So the memoized outcome, being the uncached one, is that selection, with all it says of a channel. */
  lemma OutcomeIsTheSelection(h: P.History, upper: B.Evidence, lower: B.Evidence, p: ParameterSet, s: Sides,
                              uppers: seq<B.Boundary>, lowers: seq<B.Boundary>, ranked: seq<S.Candidate>, o: S.Selection)
    requires ValidCase(h) && upper.Valid() && lower.Valid() && ValidSet(p)
    requires IsSides(CaseFrame(h, upper, lower), p.boundary, s)
    requires multiset(uppers) == multiset(s.upper.Values) && multiset(lowers) == multiset(s.lower.Values)
    requires S.RankingOf(S.Pairings(S.Maker(RequestOf(h, p)), I.Canonical(uppers), I.Canonical(lowers)), p.gates, ranked)
    requires IsDirect(CaseFrame(h, upper, lower), p, o)
    ensures o == S.Report(ranked, p.gates)
    ensures o.status == S.Selected ==> S.IsChannel(RequestOf(h, p), o.top.value)
  {
    CaseIsTheSelection(h, upper, lower, p, s, uppers, lowers, ranked);
    DirectIsUnique(CaseFrame(h, upper, lower), p, o, S.Report(ranked, p.gates));
    if o.status == S.Selected { S.SelectedPairIsAChannel(RequestOf(h, p), uppers, lowers, ranked); }
  }

  // ----- why the terminal stage must not read the metrics -----

  /** Two pivots at one price: their level is the only boundary. */
  function LevelSide(side: B.Side, price: real): B.Evidence {
    B.Evidence(side, [F.Point(0, price, 1.0), F.Point(1, price, 1.0)], [B.Bar.Bar(price, Some(1.0)), B.Bar.Bar(price, Some(1.0))],
               1.0, 2.0, (line, first, last) => true)
  }

  /** A frame whose metrics repeat a pair parameter, and whose terminal stage reads it back. */
  function MetricsReader(): Frame {
    Frame(LevelSide(B.Upper, 20.0), LevelSide(B.Lower, 10.0), 0, 1,
          (u: B.Boundary, l: B.Boundary, p: P.PairParams) =>
            P.Metrics({}, 0, 0, 1 < p.minClusters, 0, 0, 0.0, 0.0, 0, 0.0, 0, None, 0, 0.0, 0.0, 0),
          (pair: P.Pair, t: T.Parameters) => if pair.metrics.bothUsed then T.InsufficientWindow else T.NonPositiveWidth)
  }

  /** The level is found, so the frame has a pair to evaluate. */
  lemma LevelIsFound(side: B.Side, price: real, found: Side)
    requires 0.0 < price && B.BySupport(B.SeedTable(LevelSide(side, price)), found)
    ensures exists support :: support in found
  {
    var e := LevelSide(side, price);
    TwoAreInliers(e);
    T.PerfectFit(e.points, Line(0.0, price));
    assert B.Assess(e, 0, 1).Some?;
    assert B.Holds(found, B.SeedTable(e)(0, 1).value);
  }

  lemma TwoAreInliers(e: B.Evidence)
    requires e.Valid() && |e.points| == 2
    ensures B.SeedInliers(e, 0, 1) == e.points
  {
    var p, q := e.points[0], e.points[1];
    var line := B.SeedLine(p, q);
    B.SeedLinePassesThrough(p, q);
    assert B.InBand(line, p, e.band) && B.InBand(line, q, e.band);
    assert e.points == [p, q] && e.points[1..] == [q] && [q][1..] == [];
    assert B.Inliers([q], line, e.band) == [q];
  }

  /** Whatever the frame, two pairs of one identity are served one evidence: that of the first. */
  method ServeBoth(memo: ExactMemo, first: P.Pair, second: P.Pair, t: T.Parameters) returns (served: T.Evidence)
    requires memo.boundaryKey.Some? && memo.terminals == map[] && IdentityOf(first) == IdentityOf(second)
    modifies memo`terminals
    ensures served == memo.frame.terminal(first, t)
  {
    var e := memo.Terminal(first, t);
    served := memo.Terminal(second, t);
  }

  lemma ReaderReads(s: Sides, id: Identity, p: P.PairParams, t: T.Parameters)
    requires id.upper in s.upper && id.lower in s.lower
    ensures var f := MetricsReader();
            && id in PairsOf(f, s, p)
            && PairsOf(f, s, p)[id].upper == s.upper[id.upper] && PairsOf(f, s, p)[id].lower == s.lower[id.lower]
            && f.terminal(PairsOf(f, s, p)[id], t) == if 1 < p.minClusters then T.InsufficientWindow else T.NonPositiveWidth
  {
  }

  /** On that frame the memo serves evidence that is not the pair's own: two parameter sets that agree in
      everything but a pair parameter share the terminal entry. */
  method MetricsReaderIsServedStale(t: T.Parameters) returns (served: T.Evidence, direct: T.Evidence)
    ensures served == T.NonPositiveWidth && direct == T.InsufficientWindow
  {
    var frame, swing := MetricsReader(), P.Swing(1.0, 0.5, 1.0);
    var lenient, strict := P.PairParams(swing, 1), P.PairParams(swing, 2);
    assert frame.HasPivots();
    var memo, s, first, second := TwoPairSets(frame, BoundaryKey(1.0, 2.0), lenient, strict);
    var id := SomeIdentity(s);
    ReaderReads(s, id, lenient, t);
    ReaderReads(s, id, strict, t);
    served := ServeBoth(memo, first[id], second[id], t);
    direct := frame.terminal(second[id], t);
  }

  method TwoPairSets(frame: Frame, key: BoundaryKey, p: P.PairParams, q: P.PairParams)
    returns (memo: ExactMemo, s: Sides, first: map<Identity, P.Pair>, second: map<Identity, P.Pair>)
    requires frame.HasPivots() && key.Valid()
    ensures fresh(memo) && memo.frame == frame && memo.boundaryKey.Some? && memo.terminals == map[]
    ensures IsSides(frame, key, s) && first == PairsOf(frame, s, p) && second == PairsOf(frame, s, q)
  {
    var held;
    memo, held := Start(frame, key);
    s := held.Contents();
    first, second := PairSets(memo, held, p, q);
  }

  method PairSets(memo: ExactMemo, s: Held, p: P.PairParams, q: P.PairParams)
    returns (first: map<Identity, P.Pair>, second: map<Identity, P.Pair>)
    requires memo.Stocked() && 0 < memo.pairSlots && memo.boundaryKey.Some? && s == memo.boundaries[memo.boundaryKey.value]
    modifies memo`pairs
    ensures first == PairsOf(memo.frame, s.Contents(), p) && second == PairsOf(memo.frame, s.Contents(), q)
  {
    first := PairSet(memo, s, p);
    second := PairSet(memo, s, q);
  }

  method Start(frame: Frame, key: BoundaryKey) returns (memo: ExactMemo, s: Held)
    requires frame.HasPivots() && key.Valid()
    ensures fresh(memo) && memo.Stocked() && memo.frame == frame && memo.pairSlots == 3 && memo.terminals == map[]
    ensures memo.boundaryKey.Some? && s == memo.boundaries[memo.boundaryKey.value] && IsSides(frame, key, s.Contents())
  {
    memo := new ExactMemo(frame, 3);
    s := memo.BoundariesFor(key);
  }

  method PairSet(memo: ExactMemo, s: Held, p: P.PairParams) returns (pairs: map<Identity, P.Pair>)
    requires memo.Stocked() && 0 < memo.pairSlots && memo.boundaryKey.Some? && s == memo.boundaries[memo.boundaryKey.value]
    modifies memo`pairs
    ensures memo.Stocked() && pairs == PairsOf(memo.frame, s.Contents(), p)
  {
    var r := memo.Pairs(s, p);
    pairs := r.value;
  }

  method SomeIdentity(s: Sides) returns (id: Identity)
    requires IsSides(MetricsReader(), BoundaryKey(1.0, 2.0), s)
    ensures id.upper in s.upper && id.lower in s.lower
  {
    LevelIsFound(B.Upper, 20.0, s.upper);
    LevelIsFound(B.Lower, 10.0, s.lower);
    var u :| u in s.upper;
    var l :| l in s.lower;
    id := Identity(u, l);
  }
}
