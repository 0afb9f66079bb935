/**
  Compact storage of calibration outcomes: each case keeps its distinct outcomes once and
  one index per parameter-set label.
 */
module OutcomeMatrix {
  datatype CaseRow<T> = CaseRow(distinct: seq<T>, index: seq<nat>)

  predicate WellFormed<T>(row: CaseRow<T>, labels: seq<string>) {
    |row.index| == |labels| && forall k :: 0 <= k < |labels| ==> row.index[k] < |row.distinct|
  }

  predicate Covers<T>(outcomes: map<string, T>, labels: seq<string>) {
    forall l :: l in labels ==> l in outcomes
  }

  /** The outcomes of the first n labels; a repeated label is looked up once more. */
  function Expand<T>(row: CaseRow<T>, labels: seq<string>, n: nat): map<string, T>
    requires WellFormed(row, labels) && n <= |labels|
  {
    if n == 0 then map[] else Expand(row, labels, n - 1)[labels[n - 1] := row.distinct[row.index[n - 1]]]
  }

  /** Every label points at its own outcome. */
  predicate Represents<T(==)>(row: CaseRow<T>, outcomes: map<string, T>, labels: seq<string>)
    requires Covers(outcomes, labels)
  {
    WellFormed(row, labels) && forall k :: 0 <= k < |labels| ==> row.distinct[row.index[k]] == outcomes[labels[k]]
  }

  /** No outcome is stored twice, and none is stored without a label. */
  ghost predicate Minimal<T>(row: CaseRow<T>) {
    && (forall i, j :: 0 <= i < j < |row.distinct| ==> row.distinct[i] != row.distinct[j])
    && forall i :: 0 <= i < |row.distinct| ==> i in row.index
  }

  method Compact<T(==)>(outcomes: map<string, T>, labels: seq<string>) returns (row: CaseRow<T>)
    requires Covers(outcomes, labels)
    ensures Represents(row, outcomes, labels) && Minimal(row)
  {
    var table: seq<T>, rows: seq<nat> := [], [];
    var index: map<T, nat> := map[];
    for k := 0 to |labels|
      invariant |rows| == k
      invariant forall j :: 0 <= j < k ==> rows[j] < |table| && table[rows[j]] == outcomes[labels[j]]
      invariant forall t :: t in index ==> index[t] < |table| && table[index[t]] == t
      invariant forall i :: 0 <= i < |table| ==> table[i] in index && index[table[i]] == i && i in rows
    {
      assert labels[k] in labels;
      var outcome := outcomes[labels[k]];
      if outcome !in index {
        index := index[outcome := |table|];
        table := table + [outcome];
      }
      rows := rows + [index[outcome]];
      assert rows[k] == index[outcome];
    }
    row := CaseRow(table, rows);
  }

  /** Compacting loses nothing: expanding gives back exactly the labelled outcomes. */
  lemma {:induction false} ExpandInvertsCompact<T>(row: CaseRow<T>, outcomes: map<string, T>, labels: seq<string>, n: nat)
    requires Covers(outcomes, labels) && Represents(row, outcomes, labels) && n <= |labels|
    ensures Expand(row, labels, n) == map l | l in labels[..n] :: outcomes[l]
  {
    if n > 0 {
      ExpandInvertsCompact(row, outcomes, labels, n - 1);
      assert labels[..n] == labels[..n - 1] + [labels[n - 1]];
    }
  }

  /** A minimal row stores as few outcomes as any row can. */
  lemma NoSmallerTable<T>(row: CaseRow<T>, other: CaseRow<T>, outcomes: map<string, T>, labels: seq<string>)
    requires Covers(outcomes, labels) && Represents(row, outcomes, labels) && Minimal(row)
    requires Represents(other, outcomes, labels)
    ensures |row.distinct| <= |other.distinct|
  {
    forall i | 0 <= i < |row.distinct| ensures row.distinct[i] in other.distinct {
      assert i in row.index;
      var k :| 0 <= k < |row.index| && row.index[k] == i;
      assert other.distinct[other.index[k]] == outcomes[labels[k]];
    }
    DistinctFit(row.distinct, other.distinct);
  }

  lemma {:induction false} DistinctFit<T>(a: seq<T>, b: seq<T>)
    requires forall i, j :: 0 <= i < j < |a| ==> a[i] != a[j]
    requires forall i :: 0 <= i < |a| ==> a[i] in b
    ensures |a| <= |b|
  {
    if a != [] {
      var n := |a| - 1;
      var k :| 0 <= k < |b| && b[k] == a[n];
      var rest := b[..k] + b[k + 1..];
      forall i | 0 <= i < n ensures a[i] in rest {
        var m :| 0 <= m < |b| && b[m] == a[i];
        assert m != k;
        assert rest[if m < k then m else m - 1] == a[i];
      }
      DistinctFit(a[..n], rest);
    }
  }
}
