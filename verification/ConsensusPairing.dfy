/**
  Which boundaries enter the pairing: one per identity (its side and its inlier set), the one that comes
  last when a side's boundaries are sorted by identity and seed.
 */
module ConsensusPairing {
  import opened Wrappers
  import opened Ranking
  import opened ConsensusBoundary

  /** The identity as a tuple: the side's name, "lower" ahead of "upper", then the inlier pivots. */
  function Key(b: Boundary): seq<int> {
    [if b.side.Lower? then 0 else 1] + b.support
  }

  lemma KeyIsIdentity(a: Boundary, b: Boundary)
    ensures Key(a) == Key(b) <==> a.side == b.side && a.support == b.support
  {
    assert Key(a)[1..] == a.support && Key(b)[1..] == b.support;
  }

  predicate SortsBefore(a: Boundary, b: Boundary) {
    TupleNotAfter(Key(a), Key(b)) && (Key(a) == Key(b) ==> !Before(b.seed, a.seed))
  }

  function BySeed(): Order<Boundary> {
    (a: Boundary, b: Boundary) => SortsBefore(a, b)
  }

  lemma SeedOrderIsTotal()
    ensures Total(BySeed())
  {
    forall a: Boundary, b: Boundary ensures SortsBefore(a, b) || SortsBefore(b, a) {
      TupleOrder(Key(a), Key(b));
    }
    forall a: Boundary, b: Boundary, c: Boundary | SortsBefore(a, b) && SortsBefore(b, c) ensures SortsBefore(a, c) {
      TupleOrderChains(Key(a), Key(b), Key(c));
      TupleOrder(Key(a), Key(b));
      TupleOrder(Key(b), Key(c));
    }
  }

  /** The last boundary of this identity. */
  function LastOf(bs: seq<Boundary>, key: seq<int>): (r: Option<Boundary>)
    ensures r.Some? ==> Key(r.value) == key && r.value in bs
    ensures r.None? ==> forall b :: b in bs ==> Key(b) != key
  {
    if bs == [] then None
    else
      var later := LastOf(bs[1..], key);
      if later.Some? then later else if Key(bs[0]) == key then Some(bs[0]) else None
  }

  lemma {:induction false} LastOfAppended(bs: seq<Boundary>, b: Boundary, key: seq<int>)
    ensures LastOf(bs + [b], key) == if Key(b) == key then Some(b) else LastOf(bs, key)
  {
    if bs == [] {
      assert (bs + [b])[1..] == [];
    } else {
      LastOfAppended(bs[1..], b, key);
      assert (bs + [b])[1..] == bs[1..] + [b];
    }
  }

  /** The last boundary of every identity, in order. */
  function Kept(bs: seq<Boundary>): seq<Boundary> {
    if bs == [] then []
    else if LastOf(bs[1..], Key(bs[0])).Some? then Kept(bs[1..])
    else [bs[0]] + Kept(bs[1..])
  }

  predicate DistinctKeys(bs: seq<Boundary>) {
    forall i, j :: 0 <= i < j < |bs| ==> Key(bs[i]) != Key(bs[j])
  }

  lemma {:induction false} KeptMembers(bs: seq<Boundary>, b: Boundary)
    ensures b in Kept(bs) <==> LastOf(bs, Key(b)) == Some(b)
  {
    if bs != [] { KeptMembers(bs[1..], b); }
  }

  lemma {:induction false} KeptIsDistinct(bs: seq<Boundary>)
    ensures DistinctKeys(Kept(bs))
  {
    if bs != [] {
      KeptIsDistinct(bs[1..]);
      forall b | b in Kept(bs[1..]) ensures LastOf(bs[1..], Key(bs[0])).None? ==> Key(b) != Key(bs[0]) {
        KeptMembers(bs[1..], b);
      }
    }
  }

  lemma {:induction false} KeptOfDistinct(bs: seq<Boundary>)
    requires DistinctKeys(bs)
    ensures Kept(bs) == bs
  {
    if bs != [] { KeptOfDistinct(bs[1..]); }
  }

  lemma {:induction false} LastIsLatest(bs: seq<Boundary>, b: Boundary)
    requires Ranked(BySeed(), bs) && b in bs
    ensures LastOf(bs, Key(b)).Some? && !Before(LastOf(bs, Key(b)).value.seed, b.seed)
  {
    var last := LastOf(bs[1..], Key(b));
    if b in bs[1..] {
      LastIsLatest(bs[1..], b);
    } else if last.Some? {
      assert b == bs[0] && SortsBefore(bs[0], last.value);
    }
  }

  /** The boundaries that enter the pairing. */
  function Canonical(bs: seq<Boundary>): seq<Boundary> {
    Kept(Sorted(BySeed(), bs))
  }

  /** Some of the given boundaries: one of each identity, with a latest seed. */
  lemma CanonicalIsLatest(bs: seq<Boundary>, b: Boundary)
    ensures DistinctKeys(Canonical(bs))
    ensures b in Canonical(bs) ==> b in bs && forall other :: other in bs && Key(other) == Key(b) ==> !Before(b.seed, other.seed)
    ensures b in bs ==> exists kept :: kept in Canonical(bs) && Key(kept) == Key(b)
  {
    var sorted := Sorted(BySeed(), bs);
    SeedOrderIsTotal();
    SortedIsRanked(BySeed(), bs);
    SameMembers(sorted, bs);
    KeptIsDistinct(sorted);
    KeptMembers(sorted, b);
    forall other | other in bs && Key(other) == Key(b) && b in Canonical(bs) ensures !Before(b.seed, other.seed) {
      LastIsLatest(sorted, other);
    }
    if b in bs {
      var kept := LastOf(sorted, Key(b)).value;
      KeptMembers(sorted, kept);
    }
  }

  /** Boundaries of different identities are all paired. */
  lemma CanonicalOfDistinct(bs: seq<Boundary>)
    requires DistinctKeys(bs)
    ensures multiset(Canonical(bs)) == multiset(bs)
  {
    var sorted := Sorted(BySeed(), bs);
    SeedOrderIsTotal();
    SortedIsRanked(BySeed(), bs);
    OnePerKey(sorted, bs);
    KeptOfDistinct(sorted);
  }

  lemma OnePerKey(sorted: seq<Boundary>, bs: seq<Boundary>)
    requires DistinctKeys(bs) && multiset(sorted) == multiset(bs)
    ensures DistinctKeys(sorted)
  {
    var pool := set b | b in bs;
    ListingOfSet(bs, pool);
    ListsTheSet(sorted, pool);
    forall i, j | 0 <= i < j < |sorted| ensures Key(sorted[i]) != Key(sorted[j]) {
      assert sorted[i] in pool && sorted[j] in pool && sorted[i] != sorted[j];
    }
  }

  /** Boundaries of one identity are told apart by their seeds. */
  predicate SeedsDecide(bs: seq<Boundary>) {
    forall i, j :: 0 <= i < |bs| && 0 <= j < |bs| && Key(bs[i]) == Key(bs[j]) && bs[i].seed == bs[j].seed ==> bs[i] == bs[j]
  }

  lemma CanonicalIgnoresOrder(bs: seq<Boundary>, other: seq<Boundary>)
    requires multiset(bs) == multiset(other) && SeedsDecide(bs)
    ensures Canonical(bs) == Canonical(other)
  {
    var sorted := Sorted(BySeed(), bs);
    SeedOrderIsTotal();
    SortedIsRanked(BySeed(), bs);
    SortedIsRanked(BySeed(), other);
    SameMembers(sorted, bs);
    forall i, j | 0 <= i < |sorted| && 0 <= j < |sorted| && SortsBefore(sorted[i], sorted[j]) && SortsBefore(sorted[j], sorted[i])
      ensures sorted[i] == sorted[j]
    {
      TupleOrder(Key(sorted[i]), Key(sorted[j]));
      assert sorted[i] in bs && sorted[j] in bs;
    }
    RankingIsUnique(BySeed(), sorted, Sorted(BySeed(), other));
  }
}
