/**
  Selection among envelope pairs: explicit gates, a lexicographic evidence tuple whose first
  component is admissibility, and the two inlier sets as the final tie-break.
 */
module ConsensusSelection {
  import opened Market
  import opened Wrappers
  import opened Ranking
  import B = ConsensusBoundary
  import P = ConsensusPair
  import T = ConsensusTerminal
  import I = ConsensusPairing
  import A = Arithmetic

  /** A pairing with its terminal width evidence. */
  datatype Candidate = Candidate(pair: P.Pair, terminal: T.Evidence)

  datatype Gates = Gates(minTraversals: int, minAlternating: int, minBalance: real, minCoverage: real, maxGapFraction: real)

  datatype Rejection =
    | PairInvalid(reason: P.Reason)
    | SideNotMateriallyUsed
    | InsufficientTraversals
    | InsufficientAlternation
    | TouchImbalance
    | InsufficientSharedSupport
    | StaleSharedSupport
    | BodyIntegrityFailed

  function Span(c: Candidate): int {
    c.pair.end - c.pair.start
  }

  /** Bars between the last candle both boundaries support and the end of the episode. */
  function SupportGap(c: Candidate): int {
    var shared := c.pair.metrics.sharedEnd;
    if shared.None? then Span(c) else c.pair.end - shared.value
  }

  function When(condition: bool, r: Rejection): set<Rejection> {
    if condition then {r} else {}
  }

  function Rejections(c: Candidate, g: Gates): set<Rejection> {
    var m := c.pair.metrics;
    (set r | r in m.invalid :: PairInvalid(r))
    + When(!m.bothUsed, SideNotMateriallyUsed)
    + When(m.traversals < g.minTraversals, InsufficientTraversals)
    + When(m.alternating < g.minAlternating, InsufficientAlternation)
    + When(m.balance < g.minBalance, TouchImbalance)
    + When(m.coverage < g.minCoverage, InsufficientSharedSupport)
    + When(SupportGap(c) as real > g.maxGapFraction * Span(c) as real, StaleSharedSupport)
    + When(m.bodySides < 2, BodyIntegrityFailed)
  }

  predicate Admissible(c: Candidate, g: Gates) {
    Rejections(c, g) == {}
  }

  predicate HasTrend(e: T.Evidence) {
    e.Measured? && (e.trend.PersistentCompression? || e.trend.Expansion?)
  }

  const FIELDS := 16

  /** Strongest first; never one aggregate score. */
  function Quality(c: Candidate, g: Gates): (q: seq<real>)
    ensures |q| == FIELDS
  {
    var m := c.pair.metrics;
    [P.Flag(Admissible(c, g)) as real, P.Flag(m.invalid == {}) as real, P.Flag(m.bothUsed) as real, m.traversals as real, m.alternating as real,
     m.balance, m.reach, m.swings as real, m.coverage, m.sharedSpan as real, -(SupportGap(c) as real),
     m.bodySides as real, -m.meanResidual, -m.maxResidual, -(m.excursions as real), P.Flag(HasTrend(c.terminal)) as real]
  }

  // ----- the order -----

  predicate IdentityNotAfter(a: Candidate, b: Candidate) {
    TupleNotAfter(I.Key(a.pair.upper), I.Key(b.pair.upper))
    && (I.Key(a.pair.upper) == I.Key(b.pair.upper) ==> TupleNotAfter(I.Key(a.pair.lower), I.Key(b.pair.lower)))
  }

  /** Stronger evidence, or equal evidence and an identity that is not later. */
  predicate Leads(g: Gates, a: Candidate, b: Candidate) {
    var p, q := Quality(a, g), Quality(b, g);
    var d := FirstDifference(p, q);
    if d < FIELDS then p[d] > q[d] else IdentityNotAfter(a, b)
  }

  predicate SameIdentity(a: Candidate, b: Candidate) {
    I.Key(a.pair.upper) == I.Key(b.pair.upper) && I.Key(a.pair.lower) == I.Key(b.pair.lower)
  }

  /** Any two candidates are ordered, and both ways only if they have the same identity. */
  lemma LeadsIsTotal(g: Gates, a: Candidate, b: Candidate)
    ensures Leads(g, a, b) || Leads(g, b, a)
    ensures Leads(g, a, b) && Leads(g, b, a) ==> SameIdentity(a, b)
  {
    DifferenceIs(Quality(b, g), Quality(a, g), FirstDifference(Quality(a, g), Quality(b, g)));
    TupleOrder(I.Key(a.pair.upper), I.Key(b.pair.upper));
    TupleOrder(I.Key(a.pair.lower), I.Key(b.pair.lower));
  }

  lemma LeadsChains(g: Gates, a: Candidate, b: Candidate, c: Candidate)
    requires Leads(g, a, b) && Leads(g, b, c)
    ensures Leads(g, a, c)
  {
    DifferencesChain(Quality(a, g), Quality(b, g), Quality(c, g));
    if FirstDifference(Quality(a, g), Quality(c, g)) == FIELDS {
      IdentitiesChain(a, b, c);
    }
  }

  lemma IdentitiesChain(a: Candidate, b: Candidate, c: Candidate)
    requires IdentityNotAfter(a, b) && IdentityNotAfter(b, c)
    ensures IdentityNotAfter(a, c)
  {
    TupleOrderChains(I.Key(a.pair.upper), I.Key(b.pair.upper), I.Key(c.pair.upper));
    TupleOrder(I.Key(a.pair.upper), I.Key(b.pair.upper));
    TupleOrder(I.Key(b.pair.upper), I.Key(c.pair.upper));
    if I.Key(a.pair.upper) == I.Key(c.pair.upper) {
      TupleOrderChains(I.Key(a.pair.lower), I.Key(b.pair.lower), I.Key(c.pair.lower));
    }
  }

  // ----- the selection -----

  /** The pair stage reports each identity once. */
  predicate DistinctIdentities(rows: seq<Candidate>) {
    forall i, j :: 0 <= i < j < |rows| ==> !SameIdentity(rows[i], rows[j])
  }

  function ByEvidence(g: Gates): Order<Candidate> {
    (a: Candidate, b: Candidate) => Leads(g, a, b)
  }

  lemma EvidenceIsTotal(g: Gates)
    ensures Total(ByEvidence(g))
  {
    forall a: Candidate, b: Candidate ensures Leads(g, a, b) || Leads(g, b, a) {
      LeadsIsTotal(g, a, b);
    }
    forall a: Candidate, b: Candidate, c: Candidate | Leads(g, a, b) && Leads(g, b, c) ensures Leads(g, a, c) {
      LeadsChains(g, a, b, c);
    }
  }

  datatype Status = Selected | NoAdmissiblePair | NoCandidates

  /** `deciding` is the first field on which the winner and the runner-up differ; FIELDS when the identity decided. */
  datatype Selection = Selection(
    status: Status, top: Option<Candidate>, rejections: set<Rejection>, admissible: nat,
    runnerUp: Option<Candidate>, deciding: Option<nat>)

  function AdmissibleCount(rows: seq<Candidate>, g: Gates): nat {
    if rows == [] then 0
    else AdmissibleCount(rows[..|rows| - 1], g) + if Admissible(rows[|rows| - 1], g) then 1 else 0
  }

  /** What is reported of a ranking. */
  function Report(ranked: seq<Candidate>, g: Gates): Selection {
    if ranked == [] then Selection(NoCandidates, None, {}, 0, None, None)
    else
      var top := ranked[0];
      Selection(if Admissible(top, g) then Selected else NoAdmissiblePair, Some(top), Rejections(top, g),
                AdmissibleCount(ranked, g),
                if |ranked| == 1 then None else Some(ranked[1]),
                if |ranked| == 1 then None else Some(FirstDifference(Quality(top, g), Quality(ranked[1], g))))
  }

  ghost predicate RankingOf(rows: seq<Candidate>, g: Gates, ranked: seq<Candidate>) {
    Ranked(ByEvidence(g), ranked) && multiset(ranked) == multiset(rows)
  }

  /** The report together with its trace, the ranking itself. */
  method Select(rows: seq<Candidate>, g: Gates) returns (s: Selection, ranked: seq<Candidate>)
    ensures RankingOf(rows, g, ranked) && s == Report(ranked, g)
  {
    EvidenceIsTotal(g);
    SortedIsRanked(ByEvidence(g), rows);
    ranked := Sorted(ByEvidence(g), rows);
    s := Report(ranked, g);
  }

  /** The selection does not depend on the order in which candidates arrive. */
  lemma SelectionIgnoresOrder(rows: seq<Candidate>, other: seq<Candidate>, g: Gates,
                              a: seq<Candidate>, b: seq<Candidate>)
    requires DistinctIdentities(rows) && multiset(rows) == multiset(other)
    requires RankingOf(rows, g, a) && RankingOf(other, g, b)
    ensures a == b && Report(a, g) == Report(b, g)
  {
    SameMembers(rows, a);
    forall i, j | 0 <= i < |a| && 0 <= j < |a| && Leads(g, a[i], a[j]) && Leads(g, a[j], a[i]) ensures a[i] == a[j] {
      LeadsIsTotal(g, a[i], a[j]);
      assert a[i] in rows && a[j] in rows;
      var k :| 0 <= k < |rows| && rows[k] == a[i];
      var l :| 0 <= l < |rows| && rows[l] == a[j];
    }
    RankingIsUnique(ByEvidence(g), a, b);
  }

  lemma {:induction false} SomeAdmissible(rows: seq<Candidate>, g: Gates)
    ensures AdmissibleCount(rows, g) > 0 <==> exists c :: c in rows && Admissible(c, g)
  {
    if rows != [] {
      var init, last := rows[..|rows| - 1], rows[|rows| - 1];
      SomeAdmissible(init, g);
      assert rows == init + [last];
    }
  }

  /** An admissible candidate is never behind an inadmissible one. */
  lemma AdmissibleFirst(g: Gates, a: Candidate, b: Candidate)
    requires Leads(g, a, b) && Admissible(b, g)
    ensures Admissible(a, g)
  {
    var p, q := Quality(a, g), Quality(b, g);
    var d := FirstDifference(p, q);
    assert q[0] == 1.0;
    assert d > 0 ==> p[0] == q[0];
  }

  /** A pair is selected exactly when some candidate passes every gate; then the selected one passes
      them all and leads every other candidate. */
  lemma SelectedIffSomeAdmissible(rows: seq<Candidate>, g: Gates, ranked: seq<Candidate>)
    requires RankingOf(rows, g, ranked)
    ensures var s := Report(ranked, g);
            && (s.status == Selected <==> exists c :: c in rows && Admissible(c, g))
            && (s.status == Selected <==> s.admissible > 0)
            && (s.status == NoCandidates <==> rows == [])
            && (rows != [] ==> s.top.value in rows && (s.status == Selected <==> s.rejections == {})
                               && forall c :: c in rows && c != s.top.value ==> Leads(g, s.top.value, c))
  {
    SameMembers(rows, ranked);
    SomeAdmissible(ranked, g);
    assert |multiset(ranked)| == |ranked| && |multiset(rows)| == |rows|;
    forall c | c in ranked && c != ranked[0]
      ensures Leads(g, ranked[0], c) && (Admissible(c, g) ==> Admissible(ranked[0], g))
    {
      var k :| 0 <= k < |ranked| && ranked[k] == c;
      assert ByEvidence(g)(ranked[0], ranked[k]);
      if Admissible(c, g) { AdmissibleFirst(g, ranked[0], c); }
    }
  }

  /** The deciding field really decides: everything before it ties, and on it the winner is
      strictly stronger than the runner-up; past the last field only the identities can differ. */
  lemma DecidingFieldDecides(ranked: seq<Candidate>, g: Gates)
    requires Ranked(ByEvidence(g), ranked) && 2 <= |ranked|
    ensures var d, p, q := Report(ranked, g).deciding.value, Quality(ranked[0], g), Quality(ranked[1], g);
            && d <= FIELDS
            && (forall k :: 0 <= k < d ==> p[k] == q[k])
            && (if d < FIELDS then p[d] > q[d] else IdentityNotAfter(ranked[0], ranked[1]))
  {
  }

  predicate Looser(g: Gates, h: Gates) {
    && h.minTraversals <= g.minTraversals && h.minAlternating <= g.minAlternating
    && h.minBalance <= g.minBalance && h.minCoverage <= g.minCoverage && g.maxGapFraction <= h.maxGapFraction
  }

  /** Loosening gates never loses a selection, and rejects no candidate for a new reason. */
  lemma LooserGatesKeepSelection(rows: seq<Candidate>, g: Gates, h: Gates, a: seq<Candidate>, b: seq<Candidate>)
    requires Looser(g, h) && RankingOf(rows, g, a) && RankingOf(rows, h, b)
    requires forall c :: c in rows ==> c.pair.start <= c.pair.end
    ensures forall c :: c in rows ==> Rejections(c, h) <= Rejections(c, g)
    ensures Report(a, g).status == Selected ==> Report(b, h).status == Selected
  {
    forall c | c in rows ensures Rejections(c, h) <= Rejections(c, g) {
      LooserRejectsLess(c, g, h);
    }
    SelectedIffSomeAdmissible(rows, g, a);
    SelectedIffSomeAdmissible(rows, h, b);
  }

  lemma LooserRejectsLess(c: Candidate, g: Gates, h: Gates)
    requires Looser(g, h) && c.pair.start <= c.pair.end
    ensures Rejections(c, h) <= Rejections(c, g)
  {
    assert (h.maxGapFraction - g.maxGapFraction) * Span(c) as real >= 0.0;
  }

  // ----- the winner, read off the metrics -----

  function One(holds: bool): real {
    if holds then 1.0 else 0.0
  }

  /** Candles of the episode after the last one both boundaries support, all but the first if there is none. */
  function Unsupported(c: Candidate): int {
    match c.pair.metrics.sharedEnd
    case None => c.pair.end - c.pair.start
    case Some(last) => c.pair.end - last
  }

  /** A lasting trend of the terminal width, in either direction. */
  predicate Trends(c: Candidate) {
    match c.terminal
    case Measured(trend, _, _, _, _) => trend == T.PersistentCompression || trend == T.Expansion
    case _ => false
  }

  /** The earlier inlier sets, "lower" ahead of "upper" should the sides differ. */
  predicate NotLater(a: Candidate, b: Candidate) {
    var (au, al, bu, bl) := (a.pair.upper, a.pair.lower, b.pair.upper, b.pair.lower);
    if au.side != bu.side then au.side.Lower?
    else if au.support != bu.support then TupleNotAfter(au.support, bu.support)
    else if al.side != bl.side then al.side.Lower?
    else TupleNotAfter(al.support, bl.support)
  }

  /** No weaker than the other: admissible first, then the traversals, and so on down to the inlier sets. */
  predicate NoWeaker(g: Gates, a: Candidate, b: Candidate) {
    var m, n := a.pair.metrics, b.pair.metrics;
    MoreOr(One(Admissible(a, g)), One(Admissible(b, g)),
    MoreOr(One(m.invalid == {}), One(n.invalid == {}),
    MoreOr(One(m.bothUsed), One(n.bothUsed), NoWeakerFigures(a, b))))
  }

  predicate NoWeakerFigures(a: Candidate, b: Candidate) {
    var m, n := a.pair.metrics, b.pair.metrics;
    MoreOr(m.traversals as real, n.traversals as real,
    MoreOr(m.alternating as real, n.alternating as real,
    MoreOr(m.balance, n.balance,
    MoreOr(m.reach, n.reach,
    MoreOr(m.swings as real, n.swings as real,
    MoreOr(m.coverage, n.coverage,
    MoreOr(m.sharedSpan as real, n.sharedSpan as real,
    LessOr(Unsupported(a) as real, Unsupported(b) as real, NoWeakerFit(a, b)))))))))
  }

  predicate NoWeakerFit(a: Candidate, b: Candidate) {
    var m, n := a.pair.metrics, b.pair.metrics;
    MoreOr(m.bodySides as real, n.bodySides as real,
    LessOr(m.meanResidual, n.meanResidual,
    LessOr(m.maxResidual, n.maxResidual,
    LessOr(m.excursions as real, n.excursions as real,
    MoreOr(One(Trends(a)), One(Trends(b)), NotLater(a, b))))))
  }

  lemma LeadsIsNoWeaker(g: Gates, a: Candidate, b: Candidate)
    requires Leads(g, a, b)
    ensures NoWeaker(g, a, b)
  {
    var p, q := Quality(a, g), Quality(b, g);
    var d := FirstDifference(p, q);
    assert d < FIELDS ==> p[d] > q[d];
    if d == FIELDS { IdentityIsNotLater(a, b); }
    if 11 <= d { FitFollows(g, a, b, d); }
    if 3 <= d { FiguresFollow(g, a, b, d); }
    FlagsFollow(g, a, b, d);
  }

  lemma IdentityIsNotLater(a: Candidate, b: Candidate)
    requires IdentityNotAfter(a, b)
    ensures NotLater(a, b)
  {
    KeyOrder(a.pair.upper, b.pair.upper);
    KeyOrder(a.pair.lower, b.pair.lower);
  }

  lemma KeyOrder(a: B.Boundary, b: B.Boundary)
    ensures TupleNotAfter(I.Key(a), I.Key(b)) <==> if a.side != b.side then a.side.Lower? else TupleNotAfter(a.support, b.support)
    ensures I.Key(a) == I.Key(b) <==> a.side == b.side && a.support == b.support
  {
    I.KeyIsIdentity(a, b);
    assert I.Key(a)[1..] == a.support && I.Key(b)[1..] == b.support;
  }

  lemma FlagsFollow(g: Gates, a: Candidate, b: Candidate, d: int)
    requires var p, q := Quality(a, g), Quality(b, g);
             && 0 <= d <= FIELDS && (forall k :: 0 <= k < d && k < 3 ==> p[k] == q[k])
             && (if d < 3 then p[d] > q[d] else NoWeakerFigures(a, b))
    ensures NoWeaker(g, a, b)
  {
    var p, q := Quality(a, g), Quality(b, g);
    assert (if d == 0 then p[0] > q[0] else p[0] == q[0])
        && (d < 1 || (if d == 1 then p[1] > q[1] else p[1] == q[1]))
        && (d < 2 || (if d == 2 then p[2] > q[2] else p[2] == q[2]));
  }

  lemma FitFollows(g: Gates, a: Candidate, b: Candidate, d: int)
    requires var p, q := Quality(a, g), Quality(b, g);
             && 11 <= d <= FIELDS && (forall k :: 11 <= k < d ==> p[k] == q[k])
             && (if d < FIELDS then p[d] > q[d] else NotLater(a, b))
    ensures NoWeakerFit(a, b)
  {
    var p, q := Quality(a, g), Quality(b, g);
    assert (d < 11 || (if d == 11 then p[11] > q[11] else p[11] == q[11]))
        && (d < 12 || (if d == 12 then p[12] > q[12] else p[12] == q[12]))
        && (d < 13 || (if d == 13 then p[13] > q[13] else p[13] == q[13]))
        && (d < 14 || (if d == 14 then p[14] > q[14] else p[14] == q[14]))
        && (d < 15 || (if d == 15 then p[15] > q[15] else p[15] == q[15]));
  }

  lemma FiguresFollow(g: Gates, a: Candidate, b: Candidate, d: int)
    requires var p, q := Quality(a, g), Quality(b, g);
             && 3 <= d <= FIELDS && (forall k :: 3 <= k < d && k < 11 ==> p[k] == q[k])
             && (if d < 11 then p[d] > q[d] else NoWeakerFit(a, b))
    ensures NoWeakerFigures(a, b)
  {
    var p, q := Quality(a, g), Quality(b, g);
    assert (d < 3 || (if d == 3 then p[3] > q[3] else p[3] == q[3]))
        && (d < 4 || (if d == 4 then p[4] > q[4] else p[4] == q[4]))
        && (d < 5 || (if d == 5 then p[5] > q[5] else p[5] == q[5]))
        && (d < 6 || (if d == 6 then p[6] > q[6] else p[6] == q[6]))
        && (d < 7 || (if d == 7 then p[7] > q[7] else p[7] == q[7]))
        && (d < 8 || (if d == 8 then p[8] > q[8] else p[8] == q[8]))
        && (d < 9 || (if d == 9 then p[9] > q[9] else p[9] == q[9]))
        && (d < 10 || (if d == 10 then p[10] > q[10] else p[10] == q[10]));
  }

  /** Each reason for a rejection, by the figure it reports. */
  lemma RejectedFor(c: Candidate, g: Gates)
    ensures var m, r := c.pair.metrics, Rejections(c, g);
            && (forall reason :: PairInvalid(reason) in r <==> reason in m.invalid)
            && (SideNotMateriallyUsed in r <==> !m.bothUsed)
            && (InsufficientTraversals in r <==> m.traversals < g.minTraversals)
            && (InsufficientAlternation in r <==> m.alternating < g.minAlternating)
            && (TouchImbalance in r <==> m.balance < g.minBalance)
            && (InsufficientSharedSupport in r <==> m.coverage < g.minCoverage)
            && (StaleSharedSupport in r <==> g.maxGapFraction * (c.pair.end - c.pair.start) as real < Unsupported(c) as real)
            && (BodyIntegrityFailed in r <==> m.bodySides < 2)
  {
  }

  /** Admissible: valid, materially used on both sides, every figure at its gate or better, recent support, bodies held. */
  lemma AdmissibleMeans(c: Candidate, g: Gates)
    ensures Admissible(c, g) <==>
              var m := c.pair.metrics;
              && m.invalid == {} && m.bothUsed && g.minTraversals <= m.traversals && g.minAlternating <= m.alternating
              && g.minBalance <= m.balance && g.minCoverage <= m.coverage
              && Unsupported(c) as real <= g.maxGapFraction * (c.pair.end - c.pair.start) as real && 2 <= m.bodySides
  {
    RejectedFor(c, g);
    var all, m := Rejections(c, g), c.pair.metrics;
    if reason :| reason in m.invalid { assert PairInvalid(reason) in all; }
    if r :| r in all { assert r.PairInvalid? ==> r.reason in m.invalid; }
  }

  /** The reported candidate is no weaker than any other, and when one is selected no admissible candidate has more
      traversals, nor as many and more alternations, and so on. */
  lemma StrongestIsReported(rows: seq<Candidate>, g: Gates, ranked: seq<Candidate>)
    requires RankingOf(rows, g, ranked) && rows != []
    ensures var s := Report(ranked, g);
            && s.top.Some? && s.top.value in rows
            && (forall c :: c in rows && c != s.top.value ==> NoWeaker(g, s.top.value, c))
            && (forall c :: c in rows && c != s.top.value && Admissible(c, g) ==>
                  s.status == Selected && NoWeakerFigures(s.top.value, c))
  {
    SelectedIffSomeAdmissible(rows, g, ranked);
    var top := Report(ranked, g).top.value;
    forall c | c in rows && c != top ensures NoWeaker(g, top, c) && (Admissible(c, g) ==> NoWeakerFigures(top, c)) {
      LeadsIsNoWeaker(g, top, c);
      if Admissible(c, g) {
        AdmissibleFirst(g, top, c);
        NoRejection(c, g);
        NoRejection(top, g);
      }
    }
  }

  // ----- candidates from boundaries -----

  /** What one selection is asked: the history, the episode and the thresholds of each stage. */
  datatype Request = Request(history: P.History, start: int, end: int, pair: P.PairParams, terminal: T.Parameters, gates: Gates)
  {
    predicate Valid() {
      P.Episode(history, start, end) && T.ValidParameters(terminal)
    }
  }

  /** The terminal stage: it is handed a whole pair and reads its lines over its episode. */
  function Evaluate(h: P.History, pair: P.Pair, t: T.Parameters): T.Evidence {
    if T.ValidParameters(t) && T.InsideFrame(h.rows, pair.start, pair.end)
    then T.TerminalEvidence(h.rows, pair.upper.line, pair.lower.line, pair.start, pair.end, t)
    else T.InsufficientWindow
  }

  /** The candidate two boundaries make. */
  function Made(r: Request, upper: B.Boundary, lower: B.Boundary): Candidate
    requires r.Valid()
  {
    var pair := P.Pair(upper, lower, r.start, r.end, P.Measure(r.history, upper, lower, r.start, r.end, r.pair));
    Candidate(pair, Evaluate(r.history, pair, r.terminal))
  }

  lemma MadeOf(r: Request, upper: B.Boundary, lower: B.Boundary, pair: P.Pair)
    requires r.Valid()
    requires pair == P.Pair(upper, lower, r.start, r.end, P.Measure(r.history, upper, lower, r.start, r.end, r.pair))
    ensures Made(r, upper, lower) == Candidate(pair, Evaluate(r.history, pair, r.terminal))
  {
  }

  function Maker(r: Request): (B.Boundary, B.Boundary) -> Candidate
    requires r.Valid()
  {
    (upper: B.Boundary, lower: B.Boundary) => Made(r, upper, lower)
  }

  ghost predicate Makes(make: (B.Boundary, B.Boundary) -> Candidate, r: Request)
    requires r.Valid()
  {
    forall u, l {:trigger Made(r, u, l)} :: make(u, l) == Made(r, u, l)
  }

  /** Every upper with every lower boundary. */
  function Pairings(make: (B.Boundary, B.Boundary) -> Candidate, uppers: seq<B.Boundary>, lowers: seq<B.Boundary>): seq<Candidate> {
    if uppers == [] then []
    else Pairings(make, uppers[..|uppers| - 1], lowers) + PairingsOf(make, uppers[|uppers| - 1], lowers)
  }

  function PairingsOf(make: (B.Boundary, B.Boundary) -> Candidate, upper: B.Boundary, lowers: seq<B.Boundary>): seq<Candidate> {
    if lowers == [] then []
    else PairingsOf(make, upper, lowers[..|lowers| - 1]) + [make(upper, lowers[|lowers| - 1])]
  }

  datatype PairIdentity = PairIdentity(upper: seq<int>, lower: seq<int>)

  type Pairs = map<PairIdentity, Candidate>

  function Get(pairs: Pairs, id: PairIdentity): Option<Candidate> {
    if id in pairs then Some(pairs[id]) else None
  }

  /** The pair recorded under an identity once every assignment was made: the last one. */
  function Recorded(make: (B.Boundary, B.Boundary) -> Candidate, uppers: seq<B.Boundary>, lowers: seq<B.Boundary>,
                    id: PairIdentity): Option<Candidate> {
    var upper, lower := I.LastOf(uppers, id.upper), I.LastOf(lowers, id.lower);
    if upper.Some? && lower.Some? then Some(make(upper.value, lower.value)) else None
  }

  ghost predicate Tabulates(make: (B.Boundary, B.Boundary) -> Candidate, uppers: seq<B.Boundary>, lowers: seq<B.Boundary>,
                            pairs: Pairs) {
    forall id {:trigger Get(pairs, id)} :: Get(pairs, id) == Recorded(make, uppers, lowers, id)
  }

  /** What the inner loop adds for one upper boundary. */
  ghost predicate Adds(make: (B.Boundary, B.Boundary) -> Candidate, upper: B.Boundary, lowers: seq<B.Boundary>,
                       before: Pairs, after: Pairs) {
    forall id {:trigger Get(after, id)} ::
      Get(after, id) == if id.upper == I.Key(upper) && I.LastOf(lowers, id.lower).Some?
                        then Some(make(upper, I.LastOf(lowers, id.lower).value)) else Get(before, id)
  }

  /** Boundaries to selection: each side is sorted, every pairing is built and measured, one is kept per identity,
      and the kept ones are ranked. */
  method SelectEnvelopePair(r: Request, uppers: seq<B.Boundary>, lowers: seq<B.Boundary>)
    returns (s: Selection, ranked: seq<Candidate>)
    requires r.Valid()
    ensures RankingOf(Pairings(Maker(r), I.Canonical(uppers), I.Canonical(lowers)), r.gates, ranked)
    ensures s == Report(ranked, r.gates)
  {
    var us, ls := Sorted(I.BySeed(), uppers), Sorted(I.BySeed(), lowers);
    ghost var make := Maker(r);
    MakerMakes(r);
    var pairs := BuildPairs(r, make, us, ls);
    var rows := Values(pairs);
    RecordedArePairings(make, us, ls, pairs, rows);
    s, ranked := Select(rows, r.gates);
  }

  lemma MakerMakes(r: Request)
    requires r.Valid()
    ensures Makes(Maker(r), r) && Injective(Maker(r))
  {
    forall u, l, v, m | Maker(r)(u, l) == Maker(r)(v, m) ensures u == v && l == m {
      assert Made(r, u, l).pair == Made(r, v, m).pair;
    }
  }

  method BuildPairs(r: Request, ghost make: (B.Boundary, B.Boundary) -> Candidate, uppers: seq<B.Boundary>,
                    lowers: seq<B.Boundary>) returns (pairs: Pairs)
    requires r.Valid() && Makes(make, r)
    ensures Tabulates(make, uppers, lowers, pairs)
  {
    pairs := map[];
    for i := 0 to |uppers|
      invariant Tabulates(make, uppers[..i], lowers, pairs)
    {
      assert uppers[..i + 1] == uppers[..i] + [uppers[i]];
      ghost var before := pairs;
      pairs := AddPairs(r, make, pairs, uppers[i], lowers);
      OneMoreTabulated(make, uppers[..i], uppers[i], lowers, before, pairs);
    }
    assert uppers[..|uppers|] == uppers;
  }

  lemma OneMoreTabulated(make: (B.Boundary, B.Boundary) -> Candidate, uppers: seq<B.Boundary>, upper: B.Boundary,
                         lowers: seq<B.Boundary>, before: Pairs, after: Pairs)
    requires Tabulates(make, uppers, lowers, before) && Adds(make, upper, lowers, before, after)
    ensures Tabulates(make, uppers + [upper], lowers, after)
  {
    forall id ensures Get(after, id) == Recorded(make, uppers + [upper], lowers, id) {
      I.LastOfAppended(uppers, upper, id.upper);
      assert Get(before, id) == Recorded(make, uppers, lowers, id);
    }
  }

  method AddPairs(r: Request, ghost make: (B.Boundary, B.Boundary) -> Candidate, before: Pairs,
                  upper: B.Boundary, lowers: seq<B.Boundary>) returns (pairs: Pairs)
    requires r.Valid() && Makes(make, r)
    ensures Adds(make, upper, lowers, before, pairs)
  {
    pairs := before;
    for j := 0 to |lowers|
      invariant Adds(make, upper, lowers[..j], before, pairs)
    {
      assert lowers[..j + 1] == lowers[..j] + [lowers[j]];
      var made := BuildCandidate(r, make, upper, lowers[j]);
      OneMoreAdded(make, upper, lowers[..j], lowers[j], before, pairs);
      pairs := pairs[PairIdentity(I.Key(upper), I.Key(lowers[j])) := made];
    }
    assert lowers[..|lowers|] == lowers;
  }

  lemma OneMoreAdded(make: (B.Boundary, B.Boundary) -> Candidate, upper: B.Boundary, lowers: seq<B.Boundary>,
                     lower: B.Boundary, before: Pairs, after: Pairs)
    requires Adds(make, upper, lowers, before, after)
    ensures Adds(make, upper, lowers + [lower], before, after[PairIdentity(I.Key(upper), I.Key(lower)) := make(upper, lower)])
  {
    var next := after[PairIdentity(I.Key(upper), I.Key(lower)) := make(upper, lower)];
    forall id ensures Get(next, id) == if id.upper == I.Key(upper) && I.LastOf(lowers + [lower], id.lower).Some?
                                       then Some(make(upper, I.LastOf(lowers + [lower], id.lower).value)) else Get(before, id)
    {
      I.LastOfAppended(lowers, lower, id.lower);
      assert Get(after, id) == if id.upper == I.Key(upper) && I.LastOf(lowers, id.lower).Some?
                               then Some(make(upper, I.LastOf(lowers, id.lower).value)) else Get(before, id);
    }
  }

  method BuildCandidate(r: Request, ghost make: (B.Boundary, B.Boundary) -> Candidate, upper: B.Boundary, lower: B.Boundary)
    returns (c: Candidate)
    requires r.Valid() && Makes(make, r)
    ensures c == make(upper, lower)
  {
    var pair := P.BuildPair(r.history, upper, lower, r.start, r.end, r.pair);
    c := Candidate(pair, Evaluate(r.history, pair, r.terminal));
    assert c == Made(r, upper, lower);
  }

  /** The recorded pairs, each once. */
  method Values(pairs: Pairs) returns (rows: seq<Candidate>)
    ensures multiset(rows) == multiset(pairs.Values)
  {
    rows := [];
    var rest := pairs.Values;
    while rest != {}
      invariant rest <= pairs.Values
      invariant multiset(rows) + multiset(rest) == multiset(pairs.Values)
      decreases |rest|
    {
      var c :| c in rest;
      rows := rows + [c];
      rest := rest - {c};
    }
  }

  ghost predicate Injective(make: (B.Boundary, B.Boundary) -> Candidate) {
    forall u, l, v, m :: make(u, l) == make(v, m) ==> u == v && l == m
  }

  /** Overwriting keeps the pairings of the boundaries that come last under their identities. */
  lemma RecordedArePairings(make: (B.Boundary, B.Boundary) -> Candidate, uppers: seq<B.Boundary>, lowers: seq<B.Boundary>,
                            pairs: Pairs, rows: seq<Candidate>)
    requires Injective(make) && Tabulates(make, uppers, lowers, pairs) && multiset(rows) == multiset(pairs.Values)
    ensures multiset(Pairings(make, I.Kept(uppers), I.Kept(lowers))) == multiset(rows)
  {
    var us, ls := I.Kept(uppers), I.Kept(lowers);
    I.KeptIsDistinct(uppers);
    I.KeptIsDistinct(lowers);
    PairingsHaveNoRepeats(make, us, ls);
    forall c ensures c in Pairings(make, us, ls) <==> c in pairs.Values {
      PairingsMembers(make, us, ls, c);
      RecordedMembers(make, uppers, lowers, pairs, c);
    }
    ListingOfSet(Pairings(make, us, ls), pairs.Values);
  }

  lemma RecordedMembers(make: (B.Boundary, B.Boundary) -> Candidate, uppers: seq<B.Boundary>, lowers: seq<B.Boundary>,
                        pairs: Pairs, c: Candidate)
    requires Tabulates(make, uppers, lowers, pairs)
    ensures c in pairs.Values <==> exists u, l :: u in I.Kept(uppers) && l in I.Kept(lowers) && c == make(u, l)
  {
    if c in pairs.Values {
      var id :| id in pairs && pairs[id] == c;
      assert Get(pairs, id) == Recorded(make, uppers, lowers, id);
      var u, l := I.LastOf(uppers, id.upper).value, I.LastOf(lowers, id.lower).value;
      I.KeptMembers(uppers, u);
      I.KeptMembers(lowers, l);
    }
    if u, l :| u in I.Kept(uppers) && l in I.Kept(lowers) && c == make(u, l) {
      I.KeptMembers(uppers, u);
      I.KeptMembers(lowers, l);
      var id := PairIdentity(I.Key(u), I.Key(l));
      assert Get(pairs, id) == Recorded(make, uppers, lowers, id);
    }
  }

  lemma {:induction false} RowHasNoRepeats(make: (B.Boundary, B.Boundary) -> Candidate, upper: B.Boundary, lowers: seq<B.Boundary>)
    requires Injective(make) && NoRepeats(lowers)
    ensures NoRepeats(PairingsOf(make, upper, lowers))
  {
    if lowers != [] {
      var init, last := lowers[..|lowers| - 1], lowers[|lowers| - 1];
      RowHasNoRepeats(make, upper, init);
      PairingsOfMembers(make, upper, init, make(upper, last));
      var row := PairingsOf(make, upper, init);
      forall i | 0 <= i < |row| ensures row[i] != make(upper, last) {
        assert row[i] in row;
      }
    }
  }

  lemma {:induction false} PairingsHaveNoRepeats(make: (B.Boundary, B.Boundary) -> Candidate,
                                                 uppers: seq<B.Boundary>, lowers: seq<B.Boundary>)
    requires Injective(make) && NoRepeats(uppers) && NoRepeats(lowers)
    ensures NoRepeats(Pairings(make, uppers, lowers))
  {
    if uppers != [] {
      var init, last := uppers[..|uppers| - 1], uppers[|uppers| - 1];
      PairingsHaveNoRepeats(make, init, lowers);
      RowHasNoRepeats(make, last, lowers);
      var before, row := Pairings(make, init, lowers), PairingsOf(make, last, lowers);
      forall i, j | 0 <= i < |before| && 0 <= j < |row| ensures before[i] != row[j] {
        assert before[i] in before && row[j] in row;
        PairingsMembers(make, init, lowers, before[i]);
        PairingsOfMembers(make, last, lowers, row[j]);
      }
    }
  }

  lemma {:induction false} PairingsOfMembers(make: (B.Boundary, B.Boundary) -> Candidate, upper: B.Boundary,
                                             lowers: seq<B.Boundary>, c: Candidate)
    ensures c in PairingsOf(make, upper, lowers) <==> exists l :: l in lowers && c == make(upper, l)
  {
    if lowers != [] {
      var init, last := lowers[..|lowers| - 1], lowers[|lowers| - 1];
      PairingsOfMembers(make, upper, init, c);
      assert lowers == init + [last];
    }
  }

  lemma {:induction false} PairingsMembers(make: (B.Boundary, B.Boundary) -> Candidate, uppers: seq<B.Boundary>,
                                           lowers: seq<B.Boundary>, c: Candidate)
    ensures c in Pairings(make, uppers, lowers) <==> exists u, l :: u in uppers && l in lowers && c == make(u, l)
  {
    if uppers != [] {
      var init, last := uppers[..|uppers| - 1], uppers[|uppers| - 1];
      PairingsMembers(make, init, lowers, c);
      PairingsOfMembers(make, last, lowers, c);
      OneMoreUpper(make, init, last, lowers, c);
      assert uppers == init + [last];
    }
  }

  lemma OneMoreUpper(make: (B.Boundary, B.Boundary) -> Candidate, init: seq<B.Boundary>, last: B.Boundary,
                     lowers: seq<B.Boundary>, c: Candidate)
    ensures (exists u, l :: u in init + [last] && l in lowers && c == make(u, l)) <==>
            (exists u, l :: u in init && l in lowers && c == make(u, l)) || (exists l :: l in lowers && c == make(last, l))
  {
    if u, l :| u in init + [last] && l in lowers && c == make(u, l) {
      assert u in init || u == last;
    }
    if l :| l in lowers && c == make(last, l) {
      assert last in init + [last];
    }
  }

  /** A pair is selected exactly when some upper and some lower boundary, the last of their identities, make an
      admissible candidate. */
  lemma SelectedIffSomePairing(r: Request, uppers: seq<B.Boundary>, lowers: seq<B.Boundary>, ranked: seq<Candidate>)
    requires r.Valid() && RankingOf(Pairings(Maker(r), I.Canonical(uppers), I.Canonical(lowers)), r.gates, ranked)
    ensures Report(ranked, r.gates).status == Selected <==>
            exists u, l :: u in I.Canonical(uppers) && l in I.Canonical(lowers) && Admissible(Made(r, u, l), r.gates)
  {
    SomePairing(r, I.Canonical(uppers), I.Canonical(lowers), ranked);
  }

  lemma SomePairing(r: Request, uppers: seq<B.Boundary>, lowers: seq<B.Boundary>, ranked: seq<Candidate>)
    requires r.Valid() && RankingOf(Pairings(Maker(r), uppers, lowers), r.gates, ranked)
    ensures Report(ranked, r.gates).status == Selected <==>
            exists u, l :: u in uppers && l in lowers && Admissible(Made(r, u, l), r.gates)
  {
    var make, rows := Maker(r), Pairings(Maker(r), uppers, lowers);
    SelectedIffSomeAdmissible(rows, r.gates, ranked);
    if c :| c in rows && Admissible(c, r.gates) {
      PairingsMembers(make, uppers, lowers, c);
      var u, l :| u in uppers && l in lowers && c == make(u, l);
      assert Admissible(Made(r, u, l), r.gates);
    }
    if u, l :| u in uppers && l in lowers && Admissible(Made(r, u, l), r.gates) {
      assert make(u, l) == Made(r, u, l);
      PairingsMembers(make, uppers, lowers, make(u, l));
    }
  }

  lemma PairingsAreDistinct(make: (B.Boundary, B.Boundary) -> Candidate, r: Request, uppers: seq<B.Boundary>, lowers: seq<B.Boundary>)
    requires r.Valid() && make == Maker(r) && I.DistinctKeys(uppers) && I.DistinctKeys(lowers)
    ensures DistinctIdentities(Pairings(make, uppers, lowers))
  {
    var rows := Pairings(make, uppers, lowers);
    MakerMakes(r);
    PairingsHaveNoRepeats(make, uppers, lowers);
    forall i, j | 0 <= i < j < |rows| ensures !SameIdentity(rows[i], rows[j]) {
      assert rows[i] in rows && rows[j] in rows;
      PairingsMembers(make, uppers, lowers, rows[i]);
      PairingsMembers(make, uppers, lowers, rows[j]);
      var u, l :| u in uppers && l in lowers && rows[i] == make(u, l);
      var v, m :| v in uppers && m in lowers && rows[j] == make(v, m);
      assert rows[i] == Made(r, u, l) && rows[j] == Made(r, v, m);
      assert rows[i] != rows[j] && (u != v || l != m);
    }
  }

  /** The whole selection, ranking included, ignores the order in which the boundaries of each side arrive, as long as
      their seeds tell those of one identity apart. */
  lemma EnvelopeIgnoresOrder(r: Request, uppers: seq<B.Boundary>, lowers: seq<B.Boundary>, otherUppers: seq<B.Boundary>,
                             otherLowers: seq<B.Boundary>, a: seq<Candidate>, b: seq<Candidate>)
    requires r.Valid() && I.SeedsDecide(uppers) && I.SeedsDecide(lowers)
    requires multiset(uppers) == multiset(otherUppers) && multiset(lowers) == multiset(otherLowers)
    requires RankingOf(Pairings(Maker(r), I.Canonical(uppers), I.Canonical(lowers)), r.gates, a)
    requires RankingOf(Pairings(Maker(r), I.Canonical(otherUppers), I.Canonical(otherLowers)), r.gates, b)
    ensures a == b && Report(a, r.gates) == Report(b, r.gates)
  {
    I.CanonicalIgnoresOrder(uppers, otherUppers);
    I.CanonicalIgnoresOrder(lowers, otherLowers);
    I.KeptIsDistinct(Sorted(I.BySeed(), uppers));
    I.KeptIsDistinct(Sorted(I.BySeed(), lowers));
    var rows := Pairings(Maker(r), I.Canonical(uppers), I.Canonical(lowers));
    PairingsAreDistinct(Maker(r), r, I.Canonical(uppers), I.Canonical(lowers));
    SelectionIgnoresOrder(rows, rows, r.gates, a, b);
  }

  const COVERAGE := 8

  const SHARED_SPAN := 9

  lemma CoverageIsSpan(r: Request, upper: B.Boundary, lower: B.Boundary)
    requires r.Valid()
    ensures var m := Made(r, upper, lower).pair.metrics; m.coverage == m.sharedSpan as real / (r.end - r.start) as real
  {
  }

  lemma CoverageComesFirst(a: Candidate, b: Candidate, g: Gates, n: real)
    requires 0.0 < n && a.pair.metrics.coverage == a.pair.metrics.sharedSpan as real / n
    requires b.pair.metrics.coverage == b.pair.metrics.sharedSpan as real / n
    ensures FirstDifference(Quality(a, g), Quality(b, g)) != SHARED_SPAN
  {
    var x, y := a.pair.metrics.sharedSpan as real, b.pair.metrics.sharedSpan as real;
    A.SharedDivisor(x, y, n);
    A.SharedDivisor(y, x, n);
    SpanIsIdle(Quality(a, g), Quality(b, g));
  }

  lemma SpanIsIdle(p: seq<real>, q: seq<real>)
    requires |p| == |q| == FIELDS && (p[COVERAGE] == q[COVERAGE] ==> p[SHARED_SPAN] == q[SHARED_SPAN])
    ensures FirstDifference(p, q) != SHARED_SPAN
  {
    if FirstDifference(p, q) > COVERAGE {
      assert p[COVERAGE] == q[COVERAGE];
    }
  }

  /** Among the pairs of one selection the shared span is never the deciding component: the coverage ahead of it orders and
      ties alike. */
  lemma SharedSpanNeverDecides(r: Request, u: B.Boundary, l: B.Boundary, v: B.Boundary, m: B.Boundary)
    requires r.Valid()
    ensures FirstDifference(Quality(Made(r, u, l), r.gates), Quality(Made(r, v, m), r.gates)) != SHARED_SPAN
  {
    CoverageIsSpan(r, u, l);
    CoverageIsSpan(r, v, m);
    CoverageComesFirst(Made(r, u, l), Made(r, v, m), r.gates, (r.end - r.start) as real);
  }

  /** Evidence of a channel: the width is positive at every candle of the episode, the trend agrees with the
      lines, and the figures meet every gate and bound each other. */
  ghost predicate IsChannel(r: Request, c: Candidate) {
    var upper, lower, m := c.pair.upper, c.pair.lower, c.pair.metrics;
    && (forall i :: r.start <= i <= r.end ==> 0.0 < T.Widths(upper.line, lower.line)(i))
    && c.terminal != T.NonPositiveWidth
    && (c.terminal.Measured? ==>
          && (c.terminal.trend.PersistentCompression? ==> upper.line.slope < lower.line.slope)
          && (c.terminal.trend.Expansion? ==> lower.line.slope < upper.line.slope))
    && upper.side.Upper? && lower.side.Lower? && upper.fit.bodyHolds && lower.fit.bodyHolds
    && r.gates.minTraversals <= m.traversals <= m.swings
    && (m.traversals > 0 ==> m.traversals < m.alternating <= 2 * m.upperCount + 1 && m.alternating <= 2 * m.lowerCount + 1)
    && r.gates.minBalance <= m.balance <= 1.0 && r.gates.minCoverage <= m.coverage <= 1.0 && 0.0 <= m.reach <= 1.0
    && m.sharedEnd.Some? && r.start <= m.sharedEnd.value <= r.end
  }

  lemma AdmissibleIsChannel(r: Request, upper: B.Boundary, lower: B.Boundary)
    requires r.Valid() && Admissible(Made(r, upper, lower), r.gates)
    ensures IsChannel(r, Made(r, upper, lower))
  {
    var c := Made(r, upper, lower);
    NoRejection(c, r.gates);
    forall i | r.start <= i <= r.end ensures 0.0 < T.Widths(upper.line, lower.line)(i) {
      P.ValidPairIsOrdered(upper, lower, r.start, r.end, i);
    }
    T.ValidPairHasPositiveWidth(r.history.rows, upper, lower, r.start, r.end, r.terminal);
    if c.terminal.Measured? {
      T.TrendFollowsBoundaries(r.history.rows, upper.line, lower.line, r.start, r.end, r.terminal);
    }
    P.MetricsAreConsistent(r.history, upper, lower, r.start, r.end, r.pair);
    P.ValidPairFacesItsSides(upper, lower, r.start, r.end);
  }

  lemma NoRejection(c: Candidate, g: Gates)
    requires Admissible(c, g)
    ensures var m := c.pair.metrics;
            && m.invalid == {} && m.bothUsed && g.minTraversals <= m.traversals && g.minAlternating <= m.alternating
            && g.minBalance <= m.balance && g.minCoverage <= m.coverage && 2 <= m.bodySides
  {
    var m, all := c.pair.metrics, Rejections(c, g);
    assert forall reason :: reason in m.invalid ==> PairInvalid(reason) in all;
    assert SideNotMateriallyUsed !in all && InsufficientTraversals !in all && InsufficientAlternation !in all;
    assert TouchImbalance !in all && InsufficientSharedSupport !in all && BodyIntegrityFailed !in all;
  }

  /** From boundaries to selection: whatever is selected is a channel made of two of the given boundaries. */
  lemma SelectedPairIsAChannel(r: Request, uppers: seq<B.Boundary>, lowers: seq<B.Boundary>, ranked: seq<Candidate>)
    requires r.Valid() && RankingOf(Pairings(Maker(r), I.Canonical(uppers), I.Canonical(lowers)), r.gates, ranked)
    requires Report(ranked, r.gates).status == Selected
    ensures var c := Report(ranked, r.gates).top.value;
            && c.pair.upper in uppers && c.pair.lower in lowers && c == Made(r, c.pair.upper, c.pair.lower)
            && IsChannel(r, c)
  {
    var us, ls, make, c := I.Canonical(uppers), I.Canonical(lowers), Maker(r), ranked[0];
    SameMembers(Pairings(make, us, ls), ranked);
    PairingsMembers(make, us, ls, c);
    var u, l :| u in us && l in ls && c == make(u, l);
    I.CanonicalIsLatest(uppers, u);
    I.CanonicalIsLatest(lowers, l);
    AdmissibleIsChannel(r, u, l);
  }
}
