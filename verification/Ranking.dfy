/** Stable sorting by a total order, and its independence of the order of arrival. */
module Ranking {

  /** May the first stand ahead of the second? */
  type Order<!T> = (T, T) -> bool

  ghost predicate Total<T(!new)>(ahead: Order<T>) {
    && (forall a, b :: ahead(a, b) || ahead(b, a))
    && forall a, b, c :: ahead(a, b) && ahead(b, c) ==> ahead(a, c)
  }

  predicate Ranked<T>(ahead: Order<T>, rows: seq<T>) {
    forall i, j :: 0 <= i < j < |rows| ==> ahead(rows[i], rows[j])
  }

  /** Behind every row that may stand ahead of it, so equal rows keep their order. */
  function Insert<T>(ahead: Order<T>, rows: seq<T>, x: T): seq<T> {
    if rows == [] then [x]
    else if ahead(rows[|rows| - 1], x) then rows + [x]
    else Insert(ahead, rows[..|rows| - 1], x) + [rows[|rows| - 1]]
  }

  function Sorted<T>(ahead: Order<T>, rows: seq<T>): seq<T> {
    if rows == [] then [] else Insert(ahead, Sorted(ahead, rows[..|rows| - 1]), rows[|rows| - 1])
  }

  lemma SameMembers<T>(a: seq<T>, b: seq<T>)
    requires multiset(a) == multiset(b)
    ensures forall c :: c in a <==> c in b
  {
    forall c ensures c in a <==> c in b {
      assert c in a <==> c in multiset(a);
      assert c in b <==> c in multiset(b);
    }
  }

  lemma {:induction false} InsertPermutes<T>(ahead: Order<T>, rows: seq<T>, x: T)
    ensures multiset(Insert(ahead, rows, x)) == multiset(rows) + multiset{x}
  {
    if rows != [] {
      var init, last := rows[..|rows| - 1], rows[|rows| - 1];
      assert rows == init + [last];
      InsertPermutes(ahead, init, x);
    }
  }

  lemma AppendKeepsOrder<T>(ahead: Order<T>, rows: seq<T>, last: T)
    requires Ranked(ahead, rows) && forall q :: q in rows ==> ahead(q, last)
    ensures Ranked(ahead, rows + [last])
  {
  }

  lemma {:induction false} InsertKeepsOrder<T(!new)>(ahead: Order<T>, rows: seq<T>, x: T)
    requires Total(ahead) && Ranked(ahead, rows)
    ensures Ranked(ahead, Insert(ahead, rows, x))
  {
    if rows != [] {
      var init, last := rows[..|rows| - 1], rows[|rows| - 1];
      if ahead(last, x) {
        forall q | q in rows ensures ahead(q, x) {
          var i :| 0 <= i < |rows| && rows[i] == q;
          assert i < |rows| - 1 ==> ahead(rows[i], last);
        }
        AppendKeepsOrder(ahead, rows, x);
      } else {
        InsertKeepsOrder(ahead, init, x);
        InsertPermutes(ahead, init, x);
        forall q | q in Insert(ahead, init, x) ensures ahead(q, last) {
          assert q in multiset(init) + multiset{x};
        }
        AppendKeepsOrder(ahead, Insert(ahead, init, x), last);
      }
    }
  }

  lemma {:induction false} SortedIsRanked<T(!new)>(ahead: Order<T>, rows: seq<T>)
    requires Total(ahead)
    ensures Ranked(ahead, Sorted(ahead, rows)) && multiset(Sorted(ahead, rows)) == multiset(rows)
  {
    if rows != [] {
      var init, last := rows[..|rows| - 1], rows[|rows| - 1];
      assert rows == init + [last];
      SortedIsRanked(ahead, init);
      InsertKeepsOrder(ahead, Sorted(ahead, init), last);
      InsertPermutes(ahead, Sorted(ahead, init), last);
    }
  }

  /** No two different rows may stand either way. */
  predicate Decided<T(==)>(ahead: Order<T>, rows: seq<T>) {
    forall i, j :: 0 <= i < |rows| && 0 <= j < |rows| && ahead(rows[i], rows[j]) && ahead(rows[j], rows[i]) ==>
      rows[i] == rows[j]
  }

  lemma HeadIsUnique<T>(ahead: Order<T>, a: seq<T>, b: seq<T>)
    requires Ranked(ahead, a) && Ranked(ahead, b) && Decided(ahead, a)
    requires multiset(a) == multiset(b) && a != [] && b != []
    ensures a[0] == b[0]
  {
    SameMembers(a, b);
    assert b[0] in b && a[0] in a;
    var i :| 0 <= i < |a| && a[i] == b[0];
    var j :| 0 <= j < |b| && b[j] == a[0];
  }

  lemma SameTails<T>(a: seq<T>, b: seq<T>)
    requires a != [] && b != [] && a[0] == b[0] && multiset(a) == multiset(b)
    ensures multiset(a[1..]) == multiset(b[1..])
  {
    assert a == [a[0]] + a[1..] && b == [b[0]] + b[1..];
    assert multiset(a[1..]) == multiset(a) - multiset{a[0]};
    assert multiset(b[1..]) == multiset(b) - multiset{b[0]};
  }

  /** The rows alone decide such a ranking. */
  lemma {:induction false} RankingIsUnique<T>(ahead: Order<T>, a: seq<T>, b: seq<T>)
    requires Ranked(ahead, a) && Ranked(ahead, b) && Decided(ahead, a) && multiset(a) == multiset(b)
    ensures a == b
    decreases |a|
  {
    assert |multiset(a)| == |a| && |multiset(b)| == |b|;
    if a != [] {
      HeadIsUnique(ahead, a, b);
      SameTails(a, b);
      RankingIsUnique(ahead, a[1..], b[1..]);
      assert a == [a[0]] + a[1..] && b == [b[0]] + b[1..];
    }
  }

  // ----- listing a set -----

  predicate NoRepeats<T(==)>(rows: seq<T>) {
    forall i, j :: 0 <= i < j < |rows| ==> rows[i] != rows[j]
  }

  /** A list with the multiset of a set has its members, each once. */
  lemma ListsTheSet<T>(rows: seq<T>, pool: set<T>)
    requires multiset(rows) == multiset(pool)
    ensures NoRepeats(rows) && forall x :: x in rows <==> x in pool
  {
    forall x ensures x in rows <==> x in pool {
      assert x in rows <==> x in multiset(rows);
    }
    forall i, j | 0 <= i < j < |rows| ensures rows[i] != rows[j] {
      var head, tail := rows[..j], rows[j..];
      assert rows == head + tail && rows[i] == head[i] && rows[j] == tail[0];
      assert multiset(rows)[rows[j]] == multiset(head)[rows[j]] + multiset(tail)[rows[j]];
      assert tail[0] in multiset(tail) && head[i] in multiset(head);
    }
  }

  /** And conversely. */
  lemma {:induction false} ListingOfSet<T>(rows: seq<T>, pool: set<T>)
    requires NoRepeats(rows) && forall x :: x in rows <==> x in pool
    ensures multiset(rows) == multiset(pool)
  {
    if rows == [] {
      assert pool == {};
    } else {
      var init, last := rows[..|rows| - 1], rows[|rows| - 1];
      assert rows == init + [last];
      ListingOfSet(init, pool - {last});
      assert pool == (pool - {last}) + {last};
    }
  }

  // ----- tuples -----

  /** The lexicographic order on tuples of integers, equal tuples included. */
  predicate TupleNotAfter(a: seq<int>, b: seq<int>) {
    a == [] || (b != [] && (a[0] < b[0] || (a[0] == b[0] && TupleNotAfter(a[1..], b[1..]))))
  }

  lemma {:induction false} TupleOrder(a: seq<int>, b: seq<int>)
    ensures TupleNotAfter(a, b) || TupleNotAfter(b, a)
    ensures TupleNotAfter(a, b) && TupleNotAfter(b, a) ==> a == b
  {
    if a != [] && b != [] {
      TupleOrder(a[1..], b[1..]);
      if a[0] == b[0] && a[1..] == b[1..] {
        assert a == [a[0]] + a[1..] && b == [b[0]] + b[1..];
      }
    }
  }

  lemma {:induction false} TupleOrderChains(a: seq<int>, b: seq<int>, c: seq<int>)
    requires TupleNotAfter(a, b) && TupleNotAfter(b, c)
    ensures TupleNotAfter(a, c)
  {
    if a != [] && a[0] == b[0] && b[0] == c[0] {
      TupleOrderChains(a[1..], b[1..], c[1..]);
    }
  }

  // ----- tuples of evidence -----

  /** The first component on which two evidence tuples differ. */
  function FirstDifference(a: seq<real>, b: seq<real>): (d: nat)
    requires |a| == |b|
    ensures d <= |a|
    ensures forall k :: 0 <= k < d ==> a[k] == b[k]
    ensures d < |a| ==> a[d] != b[d]
  {
    if a == [] || a[0] != b[0] then 0 else 1 + FirstDifference(a[1..], b[1..])
  }

  lemma DifferenceIs(a: seq<real>, b: seq<real>, d: nat)
    requires |a| == |b| && d <= |a|
    requires forall k :: 0 <= k < d ==> a[k] == b[k]
    requires d < |a| ==> a[d] != b[d]
    ensures FirstDifference(a, b) == d
  {
  }

  /** Of two consecutive first differences the nearer one is the first difference of the ends. */
  lemma DifferencesChain(p: seq<real>, q: seq<real>, r: seq<real>)
    requires |p| == |q| == |r|
    requires FirstDifference(p, q) < |p| ==> p[FirstDifference(p, q)] > q[FirstDifference(p, q)]
    requires FirstDifference(q, r) < |p| ==> q[FirstDifference(q, r)] > r[FirstDifference(q, r)]
    ensures var d, e, f := FirstDifference(p, q), FirstDifference(q, r), FirstDifference(p, r);
            f == (if d <= e then d else e) && (f < |p| ==> p[f] > r[f])
  {
  }

  /** More of it, or as much and the rest decides. */
  predicate MoreOr(x: real, y: real, rest: bool) {
    x > y || (x == y && rest)
  }

  /** Less of it, or as little and the rest decides. */
  predicate LessOr(x: real, y: real, rest: bool) {
    x < y || (x == y && rest)
  }
}
