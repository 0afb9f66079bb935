/**
  One side's boundaries as they are reported: one per inlier set, strongest evidence first, ties by
  seed and then by inlier set.
 */
module ConsensusOrder {
  import opened Wrappers
  import opened Ranking
  import opened ConsensusBoundary
  import A = Arithmetic
  import P = ConsensusPair

  function SupportSpan(b: Boundary): int {
    b.last - b.first
  }

  /** The part of the episode the support covers. */
  function Coverage(b: Boundary, episode: nat): real {
    SupportSpan(b) as real / (if episode > 1 then episode else 1) as real
  }

  const FIELDS := 7

  const COVERAGE := 2

  const SPAN := 3

  function Quality(b: Boundary, episode: nat): (q: seq<real>)
    ensures |q| == FIELDS
  {
    [P.Flag(b.fit.bodyHolds) as real, |b.clusters| as real, Coverage(b, episode), SupportSpan(b) as real,
     -b.fit.meanResidual, -b.fit.maxResidual, -(b.fit.excursions as real)]
  }

  function TieKey(b: Boundary): seq<int> {
    [b.seed.first, b.seed.second] + b.support
  }

  predicate Leads(episode: nat, a: Boundary, b: Boundary) {
    var p, q := Quality(a, episode), Quality(b, episode);
    var d := FirstDifference(p, q);
    if d < FIELDS then p[d] > q[d] else TupleNotAfter(TieKey(a), TieKey(b))
  }

  function ByStrength(episode: nat): Order<Boundary> {
    (a: Boundary, b: Boundary) => Leads(episode, a, b)
  }

  /** Any two boundaries are ordered, and both ways only with one seed and one inlier set. */
  lemma LeadsIsTotal(episode: nat, a: Boundary, b: Boundary)
    ensures Leads(episode, a, b) || Leads(episode, b, a)
    ensures Leads(episode, a, b) && Leads(episode, b, a) ==> a.seed == b.seed && a.support == b.support
  {
    DifferenceIs(Quality(b, episode), Quality(a, episode), FirstDifference(Quality(a, episode), Quality(b, episode)));
    TupleOrder(TieKey(a), TieKey(b));
    assert TieKey(a)[2..] == a.support && TieKey(b)[2..] == b.support;
    assert TieKey(a)[0] == a.seed.first && TieKey(a)[1] == a.seed.second;
    assert TieKey(b)[0] == b.seed.first && TieKey(b)[1] == b.seed.second;
  }

  lemma LeadsChains(episode: nat, a: Boundary, b: Boundary, c: Boundary)
    requires Leads(episode, a, b) && Leads(episode, b, c)
    ensures Leads(episode, a, c)
  {
    DifferencesChain(Quality(a, episode), Quality(b, episode), Quality(c, episode));
    if FirstDifference(Quality(a, episode), Quality(c, episode)) == FIELDS {
      TupleOrderChains(TieKey(a), TieKey(b), TieKey(c));
    }
  }

  lemma StrengthIsTotal(episode: nat)
    ensures Total(ByStrength(episode))
  {
    forall a: Boundary, b: Boundary ensures Leads(episode, a, b) || Leads(episode, b, a) {
      LeadsIsTotal(episode, a, b);
    }
    forall a: Boundary, b: Boundary, c: Boundary | Leads(episode, a, b) && Leads(episode, b, c) ensures Leads(episode, a, c) {
      LeadsChains(episode, a, b, c);
    }
  }

  /** The reported boundaries: those of every supported inlier set, each once, strongest first. */
  ghost predicate IsConsensus(e: Evidence, episode: nat, rows: seq<Boundary>)
    requires e.Valid()
  {
    exists found :: BySupport(SeedTable(e), found) && Lists(rows, found, episode)
  }

  ghost predicate Lists(rows: seq<Boundary>, found: map<seq<int>, Boundary>, episode: nat) {
    multiset(rows) == multiset(found.Values) && Ranked(ByStrength(episode), rows)
  }

  method BuildBoundaryConsensus(e: Evidence, episode: nat) returns (rows: seq<Boundary>)
    requires e.Valid()
    ensures IsConsensus(e, episode, rows)
  {
    var found := BuildBoundaries(e);
    var values: seq<Boundary> := [];
    var rest := found.Values;
    while rest != {}
      invariant rest <= found.Values
      invariant multiset(values) + multiset(rest) == multiset(found.Values)
      decreases |rest|
    {
      var b :| b in rest;
      values := values + [b];
      rest := rest - {b};
    }
    StrengthIsTotal(episode);
    SortedIsRanked(ByStrength(episode), values);
    rows := Sorted(ByStrength(episode), values);
    assert Lists(rows, found, episode);
  }

  /** Evidence and episode determine the report, order included: no enumeration order shows. */
  lemma ConsensusIsUnique(e: Evidence, episode: nat, a: seq<Boundary>, b: seq<Boundary>)
    requires e.Valid() && IsConsensus(e, episode, a) && IsConsensus(e, episode, b)
    ensures a == b
  {
    var found :| BySupport(SeedTable(e), found) && Lists(a, found, episode);
    var other :| BySupport(SeedTable(e), other) && Lists(b, other, episode);
    BySupportIsUnique(e, found, other);
    ListsTheSet(a, found.Values);
    forall i, j | 0 <= i < |a| && 0 <= j < |a| && Leads(episode, a[i], a[j]) && Leads(episode, a[j], a[i]) ensures a[i] == a[j] {
      LeadsIsTotal(episode, a[i], a[j]);
      assert a[i] in found.Values && a[j] in found.Values;
    }
    RankingIsUnique(ByStrength(episode), a, b);
  }

  /** The span component of the tuple is idle: coverage, the component before it, orders and ties alike. */
  lemma SpanNeverDecides(episode: nat, a: Boundary, b: Boundary)
    ensures Coverage(a, episode) > Coverage(b, episode) <==> SupportSpan(a) > SupportSpan(b)
    ensures FirstDifference(Quality(a, episode), Quality(b, episode)) != SPAN
  {
    var p, q, n := Quality(a, episode), Quality(b, episode), (if episode > 1 then episode else 1) as real;
    A.SharedDivisor(SupportSpan(a) as real, SupportSpan(b) as real, n);
    A.SharedDivisor(SupportSpan(b) as real, SupportSpan(a) as real, n);
    if FirstDifference(p, q) > COVERAGE {
      assert p[COVERAGE] == q[COVERAGE] && p[SPAN] == q[SPAN];
    }
  }

  // ----- the order, read off the boundaries -----

  /** Bodies held first, then more touches, a longer support, smaller mean and largest residuals, fewer excursions, the
      earlier seed, and the earlier inliers. */
  predicate NoWeaker(a: Boundary, b: Boundary) {
    MoreOr(if a.fit.bodyHolds then 1.0 else 0.0, if b.fit.bodyHolds then 1.0 else 0.0,
    MoreOr(|a.clusters| as real, |b.clusters| as real,
    MoreOr((a.last - a.first) as real, (b.last - b.first) as real,
    LessOr(a.fit.meanResidual, b.fit.meanResidual,
    LessOr(a.fit.maxResidual, b.fit.maxResidual,
    LessOr(a.fit.excursions as real, b.fit.excursions as real, NotLater(a, b)))))))
  }

  predicate NotLater(a: Boundary, b: Boundary) {
    if a.seed.first != b.seed.first then a.seed.first < b.seed.first
    else if a.seed.second != b.seed.second then a.seed.second < b.seed.second
    else TupleNotAfter(a.support, b.support)
  }

  lemma TieKeyOrder(a: Boundary, b: Boundary)
    requires TupleNotAfter(TieKey(a), TieKey(b))
    ensures NotLater(a, b)
  {
    assert TieKey(a)[1..] == [a.seed.second] + a.support && TieKey(b)[1..] == [b.seed.second] + b.support;
    assert ([a.seed.second] + a.support)[1..] == a.support && ([b.seed.second] + b.support)[1..] == b.support;
  }

  lemma LeadsIsNoWeaker(episode: nat, a: Boundary, b: Boundary)
    requires Leads(episode, a, b)
    ensures NoWeaker(a, b)
  {
    var p, q := Quality(a, episode), Quality(b, episode);
    var d := FirstDifference(p, q);
    SpanNeverDecides(episode, a, b);
    SpanNeverDecides(episode, b, a);
    if d == FIELDS { TieKeyOrder(a, b); }
    DecidedAt(a, b, p, q, d);
  }

  lemma DecidedAt(a: Boundary, b: Boundary, p: seq<real>, q: seq<real>, d: nat)
    requires exists episode: nat :: p == Quality(a, episode) && q == Quality(b, episode)
    requires d <= FIELDS && (forall k :: 0 <= k < d ==> p[k] == q[k])
    requires if d < FIELDS then d != SPAN && p[d] > q[d] else NotLater(a, b)
    requires p[COVERAGE] > q[COVERAGE] <==> SupportSpan(a) > SupportSpan(b)
    requires p[COVERAGE] < q[COVERAGE] <==> SupportSpan(a) < SupportSpan(b)
    ensures NoWeaker(a, b)
  {
    assert (if d == 0 then p[0] > q[0] else p[0] == q[0])
        && (d < 1 || (if d == 1 then p[1] > q[1] else p[1] == q[1]))
        && (d < 2 || (if d == 2 then p[2] > q[2] else p[2] == q[2]))
        && (d < 4 || (if d == 4 then p[4] > q[4] else p[4] == q[4]))
        && (d < 5 || (if d == 5 then p[5] > q[5] else p[5] == q[5]))
        && (d < 6 || (if d == 6 then p[6] > q[6] else p[6] == q[6]));
  }

  /** Every boundary of a report is no weaker than those listed after it. */
  lemma ReportIsRanked(e: Evidence, episode: nat, rows: seq<Boundary>, i: int, j: int)
    requires e.Valid() && IsConsensus(e, episode, rows) && 0 <= i < j < |rows|
    ensures NoWeaker(rows[i], rows[j])
  {
    LeadsIsNoWeaker(episode, rows[i], rows[j]);
  }
}
