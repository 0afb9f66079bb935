/**
  The offline two-impulse detector: four nested loops over the length of the second leg, the
  shelf and the first impulse, keeping the candidate of the highest rank.
 */
module IkigaiFormation {
  import opened Market
  import opened Wrappers
  import opened Ranking
  import opened IkigaiBox
  import opened IkigaiWatch
  import A = Arithmetic

  /** How the last bars of the frame are cut into first impulse, shelf and second leg. */
  datatype Split = Split(direction: Direction, secondBars: int, boxBars: int, firstBars: int)

  datatype Formation = Formation(
    id: Identity, boxStart: int, boxEnd: int, secondStart: int, asOf: int,
    anchorStartPrice: real, anchorEndPrice: real, boxLow: real, boxHigh: real, secondExtreme: real,
    fibonacci1: real, fibonacci1618: real, fibonacci2618: real)

  /** Nearness to an extension, compactness of the shelf, strength of the impulse, then the earlier anchors. */
  datatype Merit = Merit(nearness: real, compactness: real, strength: real, start: int, end: int)

  datatype Proposal = Proposal(formation: Formation, merit: Merit)

  predicate MeritBelow(a: Merit, b: Merit) {
    || a.nearness < b.nearness
    || (a.nearness == b.nearness
        && (|| a.compactness < b.compactness
            || (a.compactness == b.compactness
                && (|| a.strength < b.strength
                    || (a.strength == b.strength && (a.start < b.start || (a.start == b.start && a.end < b.end)))))))
  }

  predicate InRange(p: Parameters, s: Split) {
    && p.secondMinBars <= s.secondBars <= p.secondMaxBars
    && p.boxMinBars <= s.boxBars <= p.boxMaxBars
    && p.firstMinBars <= s.firstBars <= p.firstMaxBars
  }

  function FirstStart(rows: seq<Row>, s: Split): int {
    |rows| - s.secondBars - s.boxBars - s.firstBars
  }

  function SecondExtreme(rows: seq<Row>, d: Direction, start: int): real
    requires 0 <= start < |rows|
  {
    if d.Short? then MaxHigh(rows, start, |rows|) else MinLow(rows, start, |rows|)
  }

  /** The second leg's reach past B, in units of the first impulse. */
  function Progress(d: Direction, q: Impulse, extreme: real): real
    requires q.span != 0.0
  {
    (if d.Short? then extreme - q.b else q.b - extreme) / q.span
  }

  /** Closes gained in the impulse direction since the end of the shelf. */
  function LegClose(rows: seq<Row>, d: Direction, boxEnd: int): real
    requires 0 <= boxEnd < |rows|
  {
    var gain := rows[|rows| - 1].close - rows[boxEnd].close;
    if d.Short? then gain else -gain
  }

  function Nearest(progress: real): real {
    Min(Abs(progress - 0.618), Abs(progress - 1.618))
  }

  predicate LegPasses(rows: seq<Row>, p: Parameters, d: Direction, boxEnd: int, extreme: real, q: Impulse)
    requires 0 <= boxEnd < |rows| && q.span != 0.0
  {
    && p.minSecondProgress <= Progress(d, q, extreme) <= p.maxSecondProgress
    && LegClose(rows, d, boxEnd) >= 0.22 * q.span
  }

  function MeritOf(f: Formation, q: Impulse): Merit
    requires q.span != 0.0 && q.atr != 0.0
  {
    Merit(-Nearest(Progress(f.id.direction, q, f.secondExtreme)), -((f.boxHigh - f.boxLow) / q.span), q.span / q.atr,
          -f.id.start, -f.id.end)
  }

  /** The innermost loop body past the impulse gates: progress, close and rank of the second leg. */
  function JudgeLeg(rows: seq<Row>, p: Parameters, id: Identity, boxEnd: int, boxLow: real, boxHigh: real, extreme: real,
                    q: Impulse): Option<Proposal>
    requires 0 <= boxEnd < |rows| && q.span != 0.0 && q.atr != 0.0
  {
    if !LegPasses(rows, p, id.direction, boxEnd, extreme, q) then None
    else
      var f := Formation(id, id.end + 1, boxEnd, boxEnd + 1, |rows| - 1, q.a, q.b, boxLow, boxHigh, extreme,
                         q.b, Fibonacci(q.a, q.b, 1.618), Fibonacci(q.a, q.b, 2.618));
      Some(Proposal(f, MeritOf(f, q)))
  }

  /** What the innermost loop body makes of a measured shelf and second leg. */
  function Judge(rows: seq<Row>, p: Parameters, id: Identity, boxEnd: int, boxLow: real, boxHigh: real, extreme: real): Option<Proposal>
    requires ValidParameters(p) && ATR_BARS <= id.start < id.end < boxEnd < |rows| - 1
  {
    match QualifiedImpulseAndBox(rows, id.start, id.end, boxLow, boxHigh, id.direction, p)
    case None => None
    case Some(q) => JudgeLeg(rows, p, id, boxEnd, boxLow, boxHigh, extreme, q)
  }

  /** The proposal of one way to cut the frame. */
  function Proposed(rows: seq<Row>, p: Parameters, s: Split): Option<Proposal>
    requires ValidParameters(p)
  {
    if !InRange(p, s) || FirstStart(rows, s) < ATR_BARS then None
    else
      var secondStart := |rows| - s.secondBars;
      var boxStart := secondStart - s.boxBars;
      Judge(rows, p, Identity(s.direction, FirstStart(rows, s), boxStart - 1), secondStart - 1,
            MinLow(rows, boxStart, secondStart), MaxHigh(rows, boxStart, secondStart),
            SecondExtreme(rows, s.direction, secondStart))
  }

  // ----- the winner -----

  /** A higher rank wins; on equal ranks the shorter second leg does. */
  predicate Wins(a: Proposal, b: Proposal) {
    MeritBelow(b.merit, a.merit) || (a.merit == b.merit && b.formation.secondStart < a.formation.secondStart)
  }

  /** What each cut of the frame proposes. */
  type Table = Split -> Option<Proposal>

  function TableOf(rows: seq<Row>, p: Parameters): Table
    requires ValidParameters(p)
  {
    (s: Split) => Proposed(rows, p, s)
  }

  /** Among the proposals of these cuts, `best` wins against every other. */
  ghost predicate Champion(table: Table, cuts: iset<Split>, best: Option<Proposal>) {
    && (best.None? ==> forall s :: s in cuts ==> table(s).None?)
    && (best.Some? ==>
          && (exists s :: s in cuts && table(s) == best)
          && forall s :: s in cuts && table(s).Some? ==> table(s) == best || Wins(best.value, table(s).value))
  }

  /** Proposals carry the end of their shelf, and equal merits come from one direction and one impulse. */
  ghost predicate Faithful(table: Table, n: int) {
    && (forall s :: table(s).Some? ==> table(s).value.formation.secondStart == n - s.secondBars)
    && forall s, t :: table(s).Some? && table(t).Some? && table(s).value.merit == table(t).value.merit ==>
         s.direction == t.direction && (s.secondBars == t.secondBars ==> s == t)
  }

  /** A proposal names the cut it came from. */
  predicate Names(rows: seq<Row>, s: Split, g: Proposal) {
    var last := |rows| - s.secondBars - s.boxBars - 1;
    && g.formation.id == Identity(s.direction, FirstStart(rows, s), last)
    && g.formation.secondStart == |rows| - s.secondBars
    && g.merit.start == -FirstStart(rows, s) && g.merit.end == -last
    && 0 <= FirstStart(rows, s) < last < |rows|
    && FrozenExtremes(rows, FirstStart(rows, s), last, s.direction)
  }

  lemma ProposalNamesCut(rows: seq<Row>, p: Parameters, s: Split)
    requires ValidParameters(p) && Proposed(rows, p, s).Some?
    ensures Names(rows, s, Proposed(rows, p, s).value)
  {
  }

  lemma SameMeritSameImpulse(rows: seq<Row>, s: Split, t: Split, g: Proposal, h: Proposal)
    requires Names(rows, s, g) && Names(rows, t, h) && g.merit == h.merit
    ensures s.direction == t.direction && (s.secondBars == t.secondBars ==> s == t)
  {
  }

  lemma NamedIsFaithful(rows: seq<Row>, table: Table)
    requires forall s :: table(s).Some? ==> Names(rows, s, table(s).value)
    ensures Faithful(table, |rows|)
  {
    forall s, t | table(s).Some? && table(t).Some? && table(s).value.merit == table(t).value.merit
      ensures s.direction == t.direction && (s.secondBars == t.secondBars ==> s == t)
    {
      SameMeritSameImpulse(rows, s, t, table(s).value, table(t).value);
    }
  }

  lemma ProposalsAreFaithful(rows: seq<Row>, p: Parameters)
    requires ValidParameters(p)
    ensures Faithful(TableOf(rows, p), |rows|)
  {
    var table := TableOf(rows, p);
    forall s | table(s).Some? ensures Names(rows, s, table(s).value) {
      ProposalNamesCut(rows, p, s);
    }
    NamedIsFaithful(rows, table);
  }

  lemma WinsChains(a: Proposal, b: Proposal, c: Proposal)
    requires Wins(a, b) && Wins(b, c)
    ensures Wins(a, c) && a != c
  {
  }

  /** The cut is visited after all of these: in one direction the second leg never shrinks on the way. */
  ghost predicate VisitedAfter(cuts: iset<Split>, s: Split) {
    s !in cuts && forall t :: t in cuts && t.direction == s.direction ==> t.secondBars <= s.secondBars
  }

  /** The source's update: a new proposal replaces the best one unless its rank is no higher. */
  function Better(best: Option<Proposal>, g: Option<Proposal>): Option<Proposal> {
    if g.None? || (best.Some? && !MeritBelow(best.value.merit, g.value.merit)) then best else g
  }

  lemma ChampionAfter(table: Table, n: int, cuts: iset<Split>, best: Option<Proposal>, s: Split)
    requires Faithful(table, n) && Champion(table, cuts, best) && VisitedAfter(cuts, s)
    ensures Champion(table, cuts + iset{s}, Better(best, table(s)))
  {
  }

  // ----- the search loops -----

  /** Cuts of one direction with this second leg and shelf, and fewer than `stop` bars in the impulse. */
  ghost function Impulses(p: Parameters, d: Direction, secondBars: int, boxBars: int, stop: int): iset<Split> {
    iset s: Split | s.direction == d && s.secondBars == secondBars && s.boxBars == boxBars && p.firstMinBars <= s.firstBars < stop
  }

  ghost function Shelves(p: Parameters, d: Direction, secondBars: int, stop: int): iset<Split> {
    iset s: Split | s.direction == d && s.secondBars == secondBars && p.boxMinBars <= s.boxBars < stop
                    && p.firstMinBars <= s.firstBars <= p.firstMaxBars
  }

  ghost function Legs(p: Parameters, d: Direction, stop: int): iset<Split> {
    iset s: Split | s.direction == d && p.secondMinBars <= s.secondBars < stop && p.boxMinBars <= s.boxBars <= p.boxMaxBars
                    && p.firstMinBars <= s.firstBars <= p.firstMaxBars
  }

  lemma NextImpulse(p: Parameters, d: Direction, secondBars: int, boxBars: int, k: int, cuts: iset<Split>)
    requires p.firstMinBars <= k
    ensures cuts + Impulses(p, d, secondBars, boxBars, k) + iset{Split(d, secondBars, boxBars, k)}
            == cuts + Impulses(p, d, secondBars, boxBars, k + 1)
    ensures cuts + Impulses(p, d, secondBars, boxBars, p.firstMinBars) == cuts
  {
  }

  lemma NextShelf(p: Parameters, d: Direction, secondBars: int, k: int, cuts: iset<Split>)
    requires p.boxMinBars <= k
    ensures cuts + Shelves(p, d, secondBars, k) + Impulses(p, d, secondBars, k, p.firstMaxBars + 1)
            == cuts + Shelves(p, d, secondBars, k + 1)
    ensures cuts + Shelves(p, d, secondBars, p.boxMinBars) == cuts
  {
  }

  lemma NextLeg(p: Parameters, d: Direction, k: int, cuts: iset<Split>)
    requires p.secondMinBars <= k
    ensures cuts + Legs(p, d, k) + Shelves(p, d, k, p.boxMaxBars + 1) == cuts + Legs(p, d, k + 1)
    ensures cuts + Legs(p, d, p.secondMinBars) == cuts
  {
  }

  /** Body of the innermost loop: one impulse length against a measured shelf and second leg. */
  method Examine(rows: seq<Row>, p: Parameters, s: Split, boxLow: real, boxHigh: real, extreme: real, ghost expected: Option<Proposal>)
    returns (proposed: Option<Proposal>)
    requires ValidParameters(p) && InRange(p, s) && 0 < |rows| - s.secondBars - s.boxBars
    requires boxLow == MinLow(rows, |rows| - s.secondBars - s.boxBars, |rows| - s.secondBars)
    requires boxHigh == MaxHigh(rows, |rows| - s.secondBars - s.boxBars, |rows| - s.secondBars)
    requires extreme == SecondExtreme(rows, s.direction, |rows| - s.secondBars)
    requires expected == Proposed(rows, p, s)
    ensures proposed == expected
  {
    var boxStart := |rows| - s.secondBars - s.boxBars;
    var first := boxStart - s.firstBars;
    if first < ATR_BARS {
      return None;
    }
    assert expected == Judge(rows, p, Identity(s.direction, first, boxStart - 1), |rows| - s.secondBars - 1, boxLow, boxHigh, extreme);
    proposed := Judge(rows, p, Identity(s.direction, first, boxStart - 1), |rows| - s.secondBars - 1, boxLow, boxHigh, extreme);
  }

  method SearchImpulses(rows: seq<Row>, p: Parameters, d: Direction, secondBars: int, boxBars: int,
                        best: Option<Proposal>, ghost table: Table, ghost cuts: iset<Split>) returns (next: Option<Proposal>)
    requires ValidParameters(p) && Champion(table, cuts, best) && Faithful(table, |rows|)
    requires forall s {:trigger Proposed(rows, p, s)} :: table(s) == Proposed(rows, p, s)
    requires p.secondMinBars <= secondBars <= p.secondMaxBars && p.boxMinBars <= boxBars <= p.boxMaxBars
    requires |rows| - secondBars - boxBars >= ATR_BARS + p.firstMinBars
    requires forall t :: t in cuts && t.direction == d ==>
      t.secondBars < secondBars || (t.secondBars == secondBars && t.boxBars < boxBars)
    ensures Champion(table, cuts + Impulses(p, d, secondBars, boxBars, p.firstMaxBars + 1), next)
  {
    next := best;
    var secondStart := |rows| - secondBars;
    var boxStart := secondStart - boxBars;
    var boxLow, boxHigh := MinLow(rows, boxStart, secondStart), MaxHigh(rows, boxStart, secondStart);
    var extreme := SecondExtreme(rows, d, secondStart);
    NextImpulse(p, d, secondBars, boxBars, p.firstMinBars, cuts);
    for firstBars := p.firstMinBars to p.firstMaxBars + 1
      invariant Champion(table, cuts + Impulses(p, d, secondBars, boxBars, firstBars), next)
    {
      var s := Split(d, secondBars, boxBars, firstBars);
      ChampionAfter(table, |rows|, cuts + Impulses(p, d, secondBars, boxBars, firstBars), next, s);
      NextImpulse(p, d, secondBars, boxBars, firstBars, cuts);
      var proposed := Examine(rows, p, s, boxLow, boxHigh, extreme, table(s));
      next := Better(next, proposed);
    }
  }

  /** Cuts that propose nothing change nothing. */
  lemma SilentCuts(table: Table, cuts: iset<Split>, more: iset<Split>, best: Option<Proposal>)
    requires Champion(table, cuts, best) && forall s :: s in more ==> table(s).None?
    ensures Champion(table, cuts + more, best)
  {
  }

  lemma EarlyShelfIsSilent(rows: seq<Row>, p: Parameters, s: Split)
    requires ValidParameters(p) && |rows| - s.secondBars - s.boxBars < ATR_BARS + p.firstMinBars
    ensures Proposed(rows, p, s) == None
  {
  }

  method SearchShelves(rows: seq<Row>, p: Parameters, d: Direction, secondBars: int,
                       best: Option<Proposal>, ghost table: Table, ghost cuts: iset<Split>) returns (next: Option<Proposal>)
    requires ValidParameters(p) && Champion(table, cuts, best) && Faithful(table, |rows|)
    requires forall s {:trigger Proposed(rows, p, s)} :: table(s) == Proposed(rows, p, s)
    requires p.secondMinBars <= secondBars <= p.secondMaxBars
    requires forall t :: t in cuts && t.direction == d ==> t.secondBars < secondBars
    ensures Champion(table, cuts + Shelves(p, d, secondBars, p.boxMaxBars + 1), next)
  {
    next := best;
    NextShelf(p, d, secondBars, p.boxMinBars, cuts);
    for boxBars := p.boxMinBars to p.boxMaxBars + 1
      invariant Champion(table, cuts + Shelves(p, d, secondBars, boxBars), next)
    {
      ghost var seen := cuts + Shelves(p, d, secondBars, boxBars);
      NextShelf(p, d, secondBars, boxBars, cuts);
      if |rows| - secondBars - boxBars < ATR_BARS + p.firstMinBars {
        ghost var here := Impulses(p, d, secondBars, boxBars, p.firstMaxBars + 1);
        forall s | s in here ensures table(s).None? { EarlyShelfIsSilent(rows, p, s); }
        SilentCuts(table, seen, here, next);
      } else {
        next := SearchImpulses(rows, p, d, secondBars, boxBars, next, table, seen);
      }
    }
  }

  method SearchDirection(rows: seq<Row>, p: Parameters, d: Direction, best: Option<Proposal>,
                         ghost table: Table, ghost cuts: iset<Split>) returns (next: Option<Proposal>)
    requires ValidParameters(p) && Champion(table, cuts, best) && Faithful(table, |rows|)
    requires forall s {:trigger Proposed(rows, p, s)} :: table(s) == Proposed(rows, p, s)
    requires forall t :: t in cuts ==> t.direction != d
    ensures Champion(table, cuts + Legs(p, d, p.secondMaxBars + 1), next)
  {
    next := best;
    NextLeg(p, d, p.secondMinBars, cuts);
    for secondBars := p.secondMinBars to p.secondMaxBars + 1
      invariant Champion(table, cuts + Legs(p, d, secondBars), next)
    {
      NextLeg(p, d, secondBars, cuts);
      next := SearchShelves(rows, p, d, secondBars, next, table, cuts + Legs(p, d, secondBars));
    }
  }

  ghost function AllCuts(p: Parameters): iset<Split> {
    iset s: Split | InRange(p, s)
  }

  predicate LongEnough(rows: seq<Row>, p: Parameters) {
    ATR_BARS + p.firstMinBars + p.boxMinBars + p.secondMinBars <= |rows|
  }

  /** The winner over every way to cut the frame; nothing on malformed candles. */
  ghost predicate IsDetected(rows: seq<Row>, p: Parameters, r: Option<Formation>)
    requires ValidParameters(p)
  {
    if exists i :: 0 <= i < |rows| && !ValidRow(rows[i]) then r.None?
    else exists best :: Champion(TableOf(rows, p), AllCuts(p), best) && r == (if best.None? then None else Some(best.value.formation))
  }

  /** The detector on the closed prefix that ends at the decision candle. */
  method DetectFormation(rows: seq<Row>, p: Parameters) returns (r: Option<Formation>)
    requires ValidParameters(p)
    ensures IsDetected(rows, p, r)
  {
    if !LongEnough(rows, p) {
      forall s: Split | InRange(p, s) ensures Proposed(rows, p, s) == None {}
      assert Champion(TableOf(rows, p), AllCuts(p), None);
      return None;
    }
    if !(forall i :: 0 <= i < |rows| ==> ValidRow(rows[i])) {
      return None;
    }
    var best: Option<Proposal> := None;
    ghost var table := TableOf(rows, p);
    ProposalsAreFaithful(rows, p);
    best := SearchDirection(rows, p, Short, best, table, iset{});
    ghost var short := iset{} + Legs(p, Short, p.secondMaxBars + 1);
    best := SearchDirection(rows, p, Long, best, table, short);
    assert short + Legs(p, Long, p.secondMaxBars + 1) == AllCuts(p);
    return if best.None? then None else Some(best.value.formation);
  }

  /** The answer does not depend on the order of the loops. */
  lemma DetectionIsUnique(rows: seq<Row>, p: Parameters, r: Option<Formation>, s: Option<Formation>)
    requires ValidParameters(p) && IsDetected(rows, p, r) && IsDetected(rows, p, s)
    ensures r == s
  {
    if forall i :: 0 <= i < |rows| ==> ValidRow(rows[i]) {
      var a :| Champion(TableOf(rows, p), AllCuts(p), a) && r == (if a.None? then None else Some(a.value.formation));
      var b :| Champion(TableOf(rows, p), AllCuts(p), b) && s == (if b.None? then None else Some(b.value.formation));
      if a.Some? && b.Some? && a != b {
        WinsChains(a.value, b.value, a.value);
      }
    }
  }

  // ----- the winner, read off the figures -----

  function Size(f: Formation): real {
    if f.anchorStartPrice < f.anchorEndPrice then f.anchorEndPrice - f.anchorStartPrice else f.anchorStartPrice - f.anchorEndPrice
  }

  function Gap(x: real, y: real): real {
    if x < y then y - x else x - y
  }

  /** How far the second leg ended from the nearer of its two extensions, in units of the first impulse. */
  function Miss(f: Formation): real
    requires Size(f) != 0.0
  {
    var near, far := Gap(f.secondExtreme, f.fibonacci1618), Gap(f.secondExtreme, f.fibonacci2618);
    (if near < far then near else far) / Size(f)
  }

  function Width(f: Formation): real
    requires Size(f) != 0.0
  {
    (f.boxHigh - f.boxLow) / Size(f)
  }

  /** The impulse in mean true ranges of the fourteen bars before it. */
  function Strength(rows: seq<Row>, f: Formation): real
    requires 14 <= f.id.start <= |rows| && SumTrueRange(rows, f.id.start - 14, f.id.start) != 0.0
  {
    Size(f) / (SumTrueRange(rows, f.id.start - 14, f.id.start) / 14.0)
  }

  predicate Measurable(rows: seq<Row>, f: Formation) {
    14 <= f.id.start <= |rows| && SumTrueRange(rows, f.id.start - 14, f.id.start) != 0.0 && Size(f) != 0.0
  }

  /** Ends nearer to an extension; else has the narrower shelf; else the stronger impulse; else the earlier anchors; else
      the shorter second leg. */
  predicate NotBehind(rows: seq<Row>, f: Formation, g: Formation)
    requires Measurable(rows, f) && Measurable(rows, g)
  {
    LessOr(Miss(f), Miss(g),
    LessOr(Width(f), Width(g),
    MoreOr(Strength(rows, f), Strength(rows, g),
    LessOr(f.id.start as real, g.id.start as real,
    LessOr(f.id.end as real, g.id.end as real, g.secondStart <= f.secondStart)))))
  }

  /** What a proposal's rank measures. */
  predicate RankedBy(rows: seq<Row>, h: Proposal) {
    var f, m := h.formation, h.merit;
    && Measurable(rows, f)
    && m == Merit(-Miss(f), -Width(f), Strength(rows, f), -f.id.start, -f.id.end)
  }

  lemma RankMeasures(rows: seq<Row>, p: Parameters, s: Split)
    requires ValidParameters(p) && Proposed(rows, p, s).Some?
    ensures RankedBy(rows, Proposed(rows, p, s).value)
  {
    var q := ProposedImpulse(rows, p, s);
    RankFrom(rows, Proposed(rows, p, s).value, q);
  }

  lemma RankFrom(rows: seq<Row>, h: Proposal, q: Impulse)
    requires ReadFrom(h, q) && 14 <= h.formation.id.start <= |rows|
    requires q.atr == SumTrueRange(rows, h.formation.id.start - 14, h.formation.id.start) / 14.0
    ensures RankedBy(rows, h)
  {
    var f := h.formation;
    SumIsUsable(SumTrueRange(rows, f.id.start - 14, f.id.start), q.atr);
    RankReads(h, q);
    UnitsAre(f, q, Size(f), SumTrueRange(rows, f.id.start - 14, f.id.start) / 14.0);
  }

  /** A proposal is read from this impulse: anchors, levels and rank. */
  predicate ReadFrom(h: Proposal, q: Impulse) {
    var f := h.formation;
    && f.anchorStartPrice == q.a && f.anchorEndPrice == q.b && 0.0 < q.span && q.atr != 0.0
    && q.span == (if f.id.direction.Short? then q.b - q.a else q.a - q.b)
    && f.fibonacci1618 == Fibonacci(q.a, q.b, 1.618) && f.fibonacci2618 == Fibonacci(q.a, q.b, 2.618)
    && h.merit == MeritOf(f, q)
  }

  lemma SumIsUsable(sum: real, atr: real)
    requires atr == sum / 14.0 && atr != 0.0
    ensures sum != 0.0
  {
  }

  lemma RankReads(h: Proposal, q: Impulse)
    requires ReadFrom(h, q)
    ensures q.span == Size(h.formation) && h.merit.nearness == -Miss(h.formation)
    ensures h.merit.start == -h.formation.id.start && h.merit.end == -h.formation.id.end
  {
    NearestIsMiss(h.formation.id.direction, q, h.formation);
  }

  lemma UnitsAre(f: Formation, q: Impulse, size: real, atr: real)
    requires q.span == size && size != 0.0 && q.atr == atr && atr != 0.0
    ensures MeritOf(f, q).compactness == -((f.boxHigh - f.boxLow) / size) && MeritOf(f, q).strength == size / atr
  {
  }

  lemma ProposedImpulse(rows: seq<Row>, p: Parameters, s: Split) returns (q: Impulse)
    requires ValidParameters(p) && Proposed(rows, p, s).Some?
    ensures var h := Proposed(rows, p, s).value;
            ReadFrom(h, q) && 14 <= h.formation.id.start <= |rows|
            && q.atr == SumTrueRange(rows, h.formation.id.start - 14, h.formation.id.start) / 14.0
  {
    var id, boxEnd, boxLow, boxHigh, extreme := ProposedIsJudged(rows, p, s);
    q := JudgedImpulse(rows, p, id, boxEnd, boxLow, boxHigh, extreme);
  }

  lemma ProposedIsJudged(rows: seq<Row>, p: Parameters, s: Split)
    returns (id: Identity, boxEnd: int, boxLow: real, boxHigh: real, extreme: real)
    requires ValidParameters(p) && Proposed(rows, p, s).Some?
    ensures ATR_BARS <= id.start < id.end < boxEnd < |rows| - 1
    ensures Proposed(rows, p, s) == Judge(rows, p, id, boxEnd, boxLow, boxHigh, extreme)
  {
    var secondStart := |rows| - s.secondBars;
    var boxStart := secondStart - s.boxBars;
    id, boxEnd := Identity(s.direction, FirstStart(rows, s), boxStart - 1), secondStart - 1;
    boxLow, boxHigh := MinLow(rows, boxStart, secondStart), MaxHigh(rows, boxStart, secondStart);
    extreme := SecondExtreme(rows, s.direction, secondStart);
  }

  lemma JudgedImpulse(rows: seq<Row>, p: Parameters, id: Identity, boxEnd: int, boxLow: real, boxHigh: real, extreme: real)
    returns (q: Impulse)
    requires ValidParameters(p) && ATR_BARS <= id.start < id.end < boxEnd < |rows| - 1
    requires Judge(rows, p, id, boxEnd, boxLow, boxHigh, extreme).Some?
    ensures var h := Judge(rows, p, id, boxEnd, boxLow, boxHigh, extreme).value;
            ReadFrom(h, q) && h.formation.id == id && q.atr == SumTrueRange(rows, id.start - 14, id.start) / 14.0
  {
    q := QualifiedImpulseAndBox(rows, id.start, id.end, boxLow, boxHigh, id.direction, p).value;
    AtrOfQualified(rows, id.start, id.end, boxLow, boxHigh, id.direction, p);
    LegReads(rows, p, id, boxEnd, boxLow, boxHigh, extreme, q);
  }

  lemma LegReads(rows: seq<Row>, p: Parameters, id: Identity, boxEnd: int, boxLow: real, boxHigh: real, extreme: real, q: Impulse)
    requires 0 <= boxEnd < |rows| && 0.0 < q.span && q.atr != 0.0
    requires q.span == if id.direction.Short? then q.b - q.a else q.a - q.b
    requires JudgeLeg(rows, p, id, boxEnd, boxLow, boxHigh, extreme, q).Some?
    ensures ReadFrom(JudgeLeg(rows, p, id, boxEnd, boxLow, boxHigh, extreme, q).value, q)
    ensures JudgeLeg(rows, p, id, boxEnd, boxLow, boxHigh, extreme, q).value.formation.id == id
  {
  }

  lemma AtrOfQualified(rows: seq<Row>, first: int, last: int, boxLow: real, boxHigh: real, d: Direction, p: Parameters)
    requires ATR_BARS <= first < last < |rows| && QualifiedImpulseAndBox(rows, first, last, boxLow, boxHigh, d, p).Some?
    ensures QualifiedImpulseAndBox(rows, first, last, boxLow, boxHigh, d, p).value.atr == SumTrueRange(rows, first - 14, first) / 14.0
  {
  }

  lemma NearestIsMiss(d: Direction, q: Impulse, f: Formation)
    requires f.anchorStartPrice == q.a && f.anchorEndPrice == q.b && 0.0 < q.span
    requires q.span == if d.Short? then q.b - q.a else q.a - q.b
    requires f.fibonacci1618 == q.a + 1.618 * (q.b - q.a) && f.fibonacci2618 == q.a + 2.618 * (q.b - q.a)
    ensures Nearest(Progress(d, q, f.secondExtreme)) == Miss(f)
  {
    var past := if d.Short? then f.secondExtreme - q.b else q.b - f.secondExtreme;
    GapInUnits(past, q.span, 0.618);
    GapInUnits(past, q.span, 1.618);
    var near, far := Gap(past, 0.618 * q.span), Gap(past, 1.618 * q.span);
    assert near == Gap(f.secondExtreme, f.fibonacci1618) && far == Gap(f.secondExtreme, f.fibonacci2618);
    A.SharedDivisor(near, far, q.span);
    A.SharedDivisor(far, near, q.span);
  }

  lemma GapInUnits(past: real, size: real, level: real)
    requires 0.0 < size
    ensures Abs(past / size - level) == Gap(past, level * size) / size
  {
    var there := level * size;
    A.DivideBack(level, size);
    A.QuotientAdds(past - there, there, size);
    A.QuotientAdds(there - past, past, size);
    A.SharedDivisor(past, there, size);
    A.SharedDivisor(there, past, size);
  }

  lemma WinnerIsNotBehind(rows: seq<Row>, a: Proposal, b: Proposal)
    requires RankedBy(rows, a) && RankedBy(rows, b) && (a == b || Wins(a, b))
    ensures NotBehind(rows, a.formation, b.formation)
  {
  }

  /** The returned figure is one of the accepted cuts, and none of them ends nearer to an extension, nor as near with a
      narrower shelf, and so on. */
  lemma BestFigureIsReturned(rows: seq<Row>, p: Parameters, r: Option<Formation>, s: Split)
    requires ValidParameters(p) && IsDetected(rows, p, r) && (forall i :: 0 <= i < |rows| ==> ValidRow(rows[i]))
    requires InRange(p, s) && Proposed(rows, p, s).Some?
    ensures r.Some? && Measurable(rows, r.value) && Measurable(rows, Proposed(rows, p, s).value.formation)
    ensures NotBehind(rows, r.value, Proposed(rows, p, s).value.formation)
    ensures exists t :: InRange(p, t) && Proposed(rows, p, t).Some? && Proposed(rows, p, t).value.formation == r.value
  {
    var table := TableOf(rows, p);
    var best :| Champion(table, AllCuts(p), best) && r == (if best.None? then None else Some(best.value.formation));
    assert table(s) == Proposed(rows, p, s) && s in AllCuts(p);
    var t :| t in AllCuts(p) && table(t) == best;
    assert table(t) == Proposed(rows, p, t);
    RankMeasures(rows, p, s);
    RankMeasures(rows, p, t);
    WinnerIsNotBehind(rows, best.value, table(s).value);
  }

  /** The cut ends with `secondBars` of second leg after `boxBars` of shelf after `firstBars` of impulse. */
  predicate Cut(rows: seq<Row>, s: Split, id: Identity, boxEnd: int) {
    && id.direction == s.direction && id.end - id.start + 1 == s.firstBars
    && boxEnd - id.end == s.boxBars && |rows| - 1 - boxEnd == s.secondBars
  }

  /** The second leg moved past B by a share of the impulse between the two limits, and gained at least 22% of it in closes. */
  predicate LegFollows(rows: seq<Row>, p: Parameters, id: Identity, boxEnd: int)
    requires 0 <= id.start < id.end < boxEnd < |rows| - 1
  {
    if id.direction.Short? then
      var b, size := rows[id.end].high, rows[id.end].high - rows[id.start].low;
      && p.minSecondProgress * size <= MaxHigh(rows, boxEnd + 1, |rows|) - b <= p.maxSecondProgress * size
      && 0.22 * size <= rows[|rows| - 1].close - rows[boxEnd].close
    else
      var b, size := rows[id.end].low, rows[id.start].high - rows[id.end].low;
      && p.minSecondProgress * size <= b - MinLow(rows, boxEnd + 1, |rows|) <= p.maxSecondProgress * size
      && 0.22 * size <= rows[boxEnd].close - rows[|rows| - 1].close
  }

  /** A cut is accepted exactly when its lengths fit, impulse and shelf pass every gate and the second leg follows. */
  lemma CutIsAccepted(rows: seq<Row>, p: Parameters, s: Split, id: Identity, boxEnd: int)
    requires ValidParameters(p) && Cut(rows, s, id, boxEnd)
    ensures Proposed(rows, p, s).Some? <==>
              && p.firstMinBars <= s.firstBars <= p.firstMaxBars && p.boxMinBars <= s.boxBars <= p.boxMaxBars
              && p.secondMinBars <= s.secondBars <= p.secondMaxBars && 14 <= id.start
              && PassesGates(rows, id.start, id.end, MinLow(rows, id.end + 1, boxEnd + 1), MaxHigh(rows, id.end + 1, boxEnd + 1),
                             id.direction, p)
              && LegFollows(rows, p, id, boxEnd)
  {
    if InRange(p, s) && 14 <= id.start {
      var boxLow, boxHigh := MinLow(rows, id.end + 1, boxEnd + 1), MaxHigh(rows, id.end + 1, boxEnd + 1);
      AcceptedIffPasses(rows, id.start, id.end, boxLow, boxHigh, id.direction, p);
      var extreme := SecondExtreme(rows, id.direction, boxEnd + 1);
      JudgedWhenQualified(rows, p, id, boxEnd, boxLow, boxHigh, extreme);
      CutIsJudged(rows, p, s, id, boxEnd, boxLow, boxHigh, extreme);
    }
  }

  lemma CutIsJudged(rows: seq<Row>, p: Parameters, s: Split, id: Identity, boxEnd: int, boxLow: real, boxHigh: real, extreme: real)
    requires ValidParameters(p) && InRange(p, s) && Cut(rows, s, id, boxEnd) && ATR_BARS <= id.start
    requires boxLow == MinLow(rows, id.end + 1, boxEnd + 1) && boxHigh == MaxHigh(rows, id.end + 1, boxEnd + 1)
    requires extreme == SecondExtreme(rows, id.direction, boxEnd + 1)
    ensures Proposed(rows, p, s) == Judge(rows, p, id, boxEnd, boxLow, boxHigh, extreme)
  {
  }

  lemma JudgedWhenQualified(rows: seq<Row>, p: Parameters, id: Identity, boxEnd: int, boxLow: real, boxHigh: real, extreme: real)
    requires ValidParameters(p) && ATR_BARS <= id.start < id.end < boxEnd < |rows| - 1
    requires extreme == SecondExtreme(rows, id.direction, boxEnd + 1)
    ensures Judge(rows, p, id, boxEnd, boxLow, boxHigh, extreme).Some? <==>
              && QualifiedImpulseAndBox(rows, id.start, id.end, boxLow, boxHigh, id.direction, p).Some?
              && LegFollows(rows, p, id, boxEnd)
  {
    var qualified := QualifiedImpulseAndBox(rows, id.start, id.end, boxLow, boxHigh, id.direction, p);
    if qualified.Some? { LegIsJudged(rows, p, id, boxEnd, extreme, qualified.value); }
  }

  lemma LegIsJudged(rows: seq<Row>, p: Parameters, id: Identity, boxEnd: int, extreme: real, q: Impulse)
    requires 0 <= id.start < id.end < boxEnd < |rows| - 1 && 0.0 < q.span
    requires q.a == AnchorStart(rows[id.start], id.direction) && q.b == AnchorEnd(rows[id.end], id.direction)
    requires q.span == if id.direction.Short? then q.b - q.a else q.a - q.b
    requires extreme == SecondExtreme(rows, id.direction, boxEnd + 1)
    ensures LegPasses(rows, p, id.direction, boxEnd, extreme, q) <==> LegFollows(rows, p, id, boxEnd)
  {
    var size := if id.direction.Short? then rows[id.end].high - rows[id.start].low else rows[id.start].high - rows[id.end].low;
    ProgressWithin(id.direction, q, extreme, p.minSecondProgress, p.maxSecondProgress);
    A.TimesTo(p.minSecondProgress, q.span, size);
    A.TimesTo(p.maxSecondProgress, q.span, size);
  }

  lemma ProgressWithin(d: Direction, q: Impulse, extreme: real, least: real, most: real)
    requires 0.0 < q.span
    ensures var past := if d.Short? then extreme - q.b else q.b - extreme;
            least <= Progress(d, q, extreme) <= most <==> least * q.span <= past <= most * q.span
  {
    var past := if d.Short? then extreme - q.b else q.b - extreme;
    A.QuotientOrder(past, q.span, least);
    A.QuotientOrder(past, q.span, most);
  }

  /** And the figure shows the bars of the cut. */
  lemma FigureShowsCut(rows: seq<Row>, p: Parameters, s: Split, id: Identity, boxEnd: int)
    requires ValidParameters(p) && Cut(rows, s, id, boxEnd) && Proposed(rows, p, s).Some?
    ensures 0 <= id.start < id.end < boxEnd < |rows| - 1
    ensures var f := Proposed(rows, p, s).value.formation;
            && f.id == id && f.boxStart == id.end + 1 && f.boxEnd == boxEnd && f.secondStart == boxEnd + 1 && f.asOf == |rows| - 1
            && f.boxLow == MinLow(rows, id.end + 1, boxEnd + 1) && f.boxHigh == MaxHigh(rows, id.end + 1, boxEnd + 1)
            && f.fibonacci1 == f.anchorEndPrice
            && (id.direction.Short? ==>
                  && f.anchorStartPrice == rows[id.start].low && f.anchorEndPrice == rows[id.end].high
                  && f.secondExtreme == MaxHigh(rows, boxEnd + 1, |rows|))
            && (id.direction.Long? ==>
                  && f.anchorStartPrice == rows[id.start].high && f.anchorEndPrice == rows[id.end].low
                  && f.secondExtreme == MinLow(rows, boxEnd + 1, |rows|))
            && f.fibonacci1618 == f.anchorStartPrice + 1.618 * (f.anchorEndPrice - f.anchorStartPrice)
            && f.fibonacci2618 == f.anchorStartPrice + 2.618 * (f.anchorEndPrice - f.anchorStartPrice)
  {
  }

  // ----- against the WATCH candidates -----

  /** The second leg reached F(1.618) exactly when its progress past B is at least 0.618 of the impulse. */
  lemma ZoneIsProgress(rows: seq<Row>, d: Direction, q: Impulse, start: int)
    requires 0 <= start < |rows| && 0.0 < q.span && q.span == (if d.Short? then q.b - q.a else q.a - q.b)
    ensures Touched(rows, d, Fibonacci(q.a, q.b, 1.618), start, |rows|) <==>
            0.618 <= Progress(d, q, SecondExtreme(rows, d, start))
  {
    var extreme := SecondExtreme(rows, d, start);
    var progress := Progress(d, q, extreme);
    assert progress * q.span == if d.Short? then extreme - q.b else q.b - extreme;
    var excess := progress - 0.618;
    assert excess * q.span == progress * q.span - 0.618 * q.span;
    assert excess >= 0.0 <==> excess * q.span >= 0.0;
    var i: int;
    if d.Short? { i := MaxHighIsAHigh(rows, start, |rows|); } else { i := MinLowIsALow(rows, start, |rows|); }
    assert Reaches(rows[i], d, Fibonacci(q.a, q.b, 1.618)) <==> excess * q.span >= 0.0;
  }

  /** The WATCH that shows the same anchors, shelf and levels as a proposed figure. */
  function WatchOf(f: Formation, exit: Option<int>): Watch {
    Watch(f.id.direction, BoxBreakObserved, f.asOf, f.id.start, f.id.end, f.anchorStartPrice, f.anchorEndPrice,
          f.boxStart, f.boxEnd, f.boxLow, f.boxHigh, exit, f.fibonacci1, f.fibonacci1618, f.fibonacci2618)
  }

  /** A figure the confirmation search would propose is also a WATCH candidate, with the same geometry, exactly
      when some close has left its shelf and its second leg is still short of F(1.618). */
  lemma ProposalIsWatched(rows: seq<Row>, p: Parameters, id: Identity, boxEnd: int)
    requires ValidParameters(p) && InSearchRange(p, id, boxEnd) && boxEnd < |rows| - 1
    requires var shelf := Shelf(MinLow(rows, id.end + 1, boxEnd + 1), MaxHigh(rows, id.end + 1, boxEnd + 1), None);
             Judge(rows, p, id, boxEnd, shelf.low, shelf.high, SecondExtreme(rows, id.direction, boxEnd + 1)).Some?
    ensures var boxLow, boxHigh := MinLow(rows, id.end + 1, boxEnd + 1), MaxHigh(rows, id.end + 1, boxEnd + 1);
            var f := Judge(rows, p, id, boxEnd, boxLow, boxHigh, SecondExtreme(rows, id.direction, boxEnd + 1)).value.formation;
            var exit := FirstExit(rows, id.direction, boxLow, boxHigh, boxEnd + 1, |rows|);
            Candidate(rows, p, id, boxEnd) ==
              if exit.Some? && !Touched(rows, id.direction, f.fibonacci1618, boxEnd + 1, |rows|) then Some(WatchOf(f, exit)) else None
  {
    var boxLow, boxHigh := MinLow(rows, id.end + 1, boxEnd + 1), MaxHigh(rows, id.end + 1, boxEnd + 1);
    var q := JudgedFigure(rows, p, id, boxEnd, boxLow, boxHigh, SecondExtreme(rows, id.direction, boxEnd + 1));
    CandidateOf(rows, p, id, boxEnd, q);
  }

  lemma JudgedFigure(rows: seq<Row>, p: Parameters, id: Identity, boxEnd: int, boxLow: real, boxHigh: real, extreme: real)
    returns (q: Impulse)
    requires ValidParameters(p) && ATR_BARS <= id.start < id.end < boxEnd < |rows| - 1
    requires Judge(rows, p, id, boxEnd, boxLow, boxHigh, extreme).Some?
    ensures QualifiedImpulseAndBox(rows, id.start, id.end, boxLow, boxHigh, id.direction, p) == Some(q)
    ensures Judge(rows, p, id, boxEnd, boxLow, boxHigh, extreme).value.formation
            == Formation(id, id.end + 1, boxEnd, boxEnd + 1, |rows| - 1, q.a, q.b, boxLow, boxHigh, extreme,
                         q.b, Fibonacci(q.a, q.b, 1.618), Fibonacci(q.a, q.b, 2.618))
  {
    q := QualifiedImpulseAndBox(rows, id.start, id.end, boxLow, boxHigh, id.direction, p).value;
  }

  lemma CandidateOf(rows: seq<Row>, p: Parameters, id: Identity, boxEnd: int, q: Impulse)
    requires InSearchRange(p, id, boxEnd) && id.end < boxEnd < |rows| - 1
    requires var boxLow, boxHigh := MinLow(rows, id.end + 1, boxEnd + 1), MaxHigh(rows, id.end + 1, boxEnd + 1);
             QualifiedImpulseAndBox(rows, id.start, id.end, boxLow, boxHigh, id.direction, p) == Some(q)
    ensures var boxLow, boxHigh := MinLow(rows, id.end + 1, boxEnd + 1), MaxHigh(rows, id.end + 1, boxEnd + 1);
            var exit := FirstExit(rows, id.direction, boxLow, boxHigh, boxEnd + 1, |rows|);
            Candidate(rows, p, id, boxEnd) ==
              if exit.Some? && !Touched(rows, id.direction, Fibonacci(q.a, q.b, 1.618), boxEnd + 1, |rows|)
              then Some(Watch(id.direction, BoxBreakObserved, |rows| - 1, id.start, id.end, q.a, q.b, id.end + 1, boxEnd,
                              boxLow, boxHigh, exit, q.b, Fibonacci(q.a, q.b, 1.618), Fibonacci(q.a, q.b, 2.618)))
              else None
  {
  }
}
