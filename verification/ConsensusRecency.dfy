/** Which pair sets the memo still holds: the most recently used ones. */
module ConsensusRecency {
  import opened Wrappers
  import opened ConsensusMemo
  import R = Ranking

  function Keys(slots: seq<Slot>): (ks: seq<PairKey>)
    ensures |ks| == |slots| && forall i :: 0 <= i < |slots| ==> ks[i] == slots[i].key
  {
    seq(|slots|, i requires 0 <= i < |slots| => slots[i].key)
  }

  function Without<K(==)>(ks: seq<K>, k: K): seq<K> {
    if ks == [] then []
    else Without(ks[..|ks| - 1], k) + if ks[|ks| - 1] == k then [] else [ks[|ks| - 1]]
  }

  /** Every key used, each once, in the order of its last use. */
  function Recency<K(==)>(used: seq<K>): seq<K> {
    if used == [] then []
    else Without(Recency(used[..|used| - 1]), used[|used| - 1]) + [used[|used| - 1]]
  }

  function Newest<K>(ks: seq<K>, limit: nat): seq<K> {
    if |ks| <= limit then ks else ks[|ks| - limit..]
  }

  /** The slots after a sequence of uses, starting with none. */
  function AfterUses(uses: seq<Slot>, limit: nat): seq<Slot> {
    if uses == [] then [] else Touch(AfterUses(uses[..|uses| - 1], limit), uses[|uses| - 1], limit)
  }

  lemma {:induction false} WithoutSplits<K>(a: seq<K>, b: seq<K>, k: K)
    ensures Without(a + b, k) == Without(a, k) + Without(b, k)
  {
    if b == [] {
      assert a + b == a;
    } else {
      WithoutSplits(a, b[..|b| - 1], k);
      assert (a + b)[..|a + b| - 1] == a + b[..|b| - 1];
    }
  }

  lemma {:induction false} WithoutAbsent<K>(ks: seq<K>, k: K)
    requires k !in ks
    ensures Without(ks, k) == ks
  {
    if ks != [] { WithoutAbsent(ks[..|ks| - 1], k); }
  }

  lemma WithoutOne<K>(k: K)
    ensures Without([k], k) == []
  {
    assert [k][..0] == [];
  }

  lemma WithoutLast<K>(a: seq<K>, k: K)
    requires k !in a
    ensures Without(a + [k], k) == a
  {
    WithoutSplits(a, [k], k);
    WithoutOne(k);
    WithoutAbsent(a, k);
  }

  lemma WithoutBetween<K>(a: seq<K>, k: K, b: seq<K>)
    requires k !in a && k !in b
    ensures Without(a + [k] + b, k) == a + b
  {
    WithoutSplits(a + [k], b, k);
    WithoutLast(a, k);
    WithoutAbsent(b, k);
  }

  lemma WithoutAt<K>(ks: seq<K>, i: int)
    requires R.NoRepeats(ks) && 0 <= i < |ks|
    ensures Without(ks, ks[i]) == ks[..i] + ks[i + 1..]
  {
    assert ks == ks[..i] + [ks[i]] + ks[i + 1..];
    WithoutBetween(ks[..i], ks[i], ks[i + 1..]);
  }

  lemma {:induction false} WithoutMembers<K>(ks: seq<K>, k: K)
    requires R.NoRepeats(ks)
    ensures R.NoRepeats(Without(ks, k)) && k !in Without(ks, k)
  {
    if i :| 0 <= i < |ks| && ks[i] == k {
      WithoutAt(ks, i);
    } else {
      WithoutAbsent(ks, k);
    }
  }

  lemma {:induction false} RecencyHasNoRepeats<K>(used: seq<K>)
    ensures R.NoRepeats(Recency(used))
  {
    if used != [] {
      var before, last := Recency(used[..|used| - 1]), used[|used| - 1];
      RecencyHasNoRepeats(used[..|used| - 1]);
      WithoutMembers(before, last);
      var rest := Without(before, last);
      forall i | 0 <= i < |rest| ensures rest[i] != last { assert rest[i] in rest; }
    }
  }

  /** One use, on the keys. */
  lemma TouchMovesToEnd(slots: seq<Slot>, slot: Slot, limit: nat)
    requires R.NoRepeats(Keys(slots)) && |slots| <= limit
    ensures Keys(Touch(slots, slot, limit)) == Newest(Without(Keys(slots), slot.key) + [slot.key], limit)
  {
    var position := Position(slots, slot.key);
    if position.Some? {
      HitMovesToEnd(slots, slot, position.value, limit);
    } else {
      MissIsAppended(slots, slot, limit);
    }
  }

  lemma MissIsAppended(slots: seq<Slot>, slot: Slot, limit: nat)
    requires Position(slots, slot.key).None?
    ensures Keys(Touch(slots, slot, limit)) == Newest(Without(Keys(slots), slot.key) + [slot.key], limit)
  {
    var ks := Keys(slots);
    assert slot.key !in ks;
    WithoutAbsent(ks, slot.key);
    assert Keys(slots + [slot]) == ks + [slot.key];
  }

  lemma {:induction false} HitMovesToEnd(slots: seq<Slot>, slot: Slot, i: nat, limit: nat)
    requires R.NoRepeats(Keys(slots)) && |slots| <= limit && Position(slots, slot.key) == Some(i)
    ensures Keys(Touch(slots, slot, limit)) == Newest(Without(Keys(slots), slot.key) + [slot.key], limit)
  {
    var ks := Keys(slots);
    WithoutAt(ks, i);
    assert Keys(slots[..i] + slots[i + 1..] + [slots[i]]) == ks[..i] + ks[i + 1..] + [ks[i]];
  }

  /** Dropping old keys before or after a use leaves the same newest ones. */
  lemma NewestAfterUse<K>(ks: seq<K>, k: K, limit: nat)
    requires R.NoRepeats(ks) && 0 < limit
    ensures Newest(Without(Newest(ks, limit), k) + [k], limit) == Newest(Without(ks, k) + [k], limit)
  {
    if limit < |ks| {
      var dropped, kept := ks[..|ks| - limit], ks[|ks| - limit..];
      assert ks == dropped + kept;
      WithoutSplits(dropped, kept, k);
      KeptAfterUse(Without(dropped, k), kept, k, limit);
    }
  }

  lemma KeptAfterUse<K>(before: seq<K>, kept: seq<K>, k: K, limit: nat)
    requires R.NoRepeats(kept) && |kept| == limit > 0
    ensures Newest(Without(kept, k) + [k], limit) == Newest(before + Without(kept, k) + [k], limit)
  {
    if i :| 0 <= i < |kept| && kept[i] == k {
      WithoutAt(kept, i);
    } else {
      WithoutAbsent(kept, k);
    }
    NewestOfSum(before, Without(kept, k) + [k], limit);
    assert before + (Without(kept, k) + [k]) == before + Without(kept, k) + [k];
  }

  lemma NewestOfSum<K>(a: seq<K>, b: seq<K>, limit: nat)
    requires limit <= |b|
    ensures Newest(a + b, limit) == Newest(b, limit)
  {
  }

  /** With room for at least one pair set, the memo holds exactly the sets used most recently, the oldest first: as many of
      the recency list as there is room for. */
  lemma {:induction false} MostRecentAreHeld(uses: seq<Slot>, limit: nat)
    requires 0 < limit
    ensures Keys(AfterUses(uses, limit)) == Newest(Recency(Keys(uses)), limit)
  {
    if uses == [] {
      assert Keys([]) == [];
    } else {
      var init, last := uses[..|uses| - 1], uses[|uses| - 1];
      MostRecentAreHeld(init, limit);
      assert Keys(uses)[..|uses| - 1] == Keys(init);
      RecencyHasNoRepeats(Keys(init));
      NewestAfterUse(Recency(Keys(init)), last.key, limit);
      TouchMovesToEnd(AfterUses(init, limit), last, limit);
    }
  }
}
