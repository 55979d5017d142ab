/** Sums over finite maps. A Go `for range` loop over a map visits the entries in an order the
    program must not depend on; `Sum` is the order-free value such a loop accumulates. */
module MapSum {

  ghost function Sum<K>(m: map<K, int>): int
    decreases |m|
  {
    if m == map[] then 0 else
      var k :| k in m;
      m[k] + Sum(m - {k})
  }

  /** Any key can be taken first. */
  lemma {:induction false} SumRemove<K>(m: map<K, int>, k: K)
    requires k in m
    ensures Sum(m) == m[k] + Sum(m - {k})
    decreases |m|
  {
    var k0 :| k0 in m && Sum(m) == m[k0] + Sum(m - {k0});
    if k0 != k {
      SumRemove(m - {k0}, k);
      SumRemove(m - {k}, k0);
      assert m - {k0} - {k} == m - {k} - {k0};
    }
  }

  function Get<K>(m: map<K, int>, k: K): int {
    if k in m then m[k] else 0
  }

  lemma SumUpdate<K>(m: map<K, int>, k: K, v: int)
    ensures Sum(m[k := v]) == Sum(m) - Get(m, k) + v
  {
    SumRemove(m[k := v], k);
    assert m[k := v] - {k} == m - {k};
    if k in m {
      SumRemove(m, k);
    } else {
      assert m - {k} == m;
    }
  }

  lemma OneEntryLess<K>(m: map<K, int>, k: K)
    requires k in m
    ensures |m - {k}| == |m| - 1
  {
    assert (m - {k}).Keys == m.Keys - {k};
    assert |(m - {k}).Keys| == |m - {k}|;
  }

  lemma OneTimeMore(n: int, top: int)
    ensures (n + 1) * top == n * top + top
  {
  }

  /** Values between 0 and `top` sum to at most `top` per entry. */
  lemma {:induction false} SumBounds<K>(m: map<K, int>, top: nat)
    requires forall k :: k in m ==> 0 <= m[k] <= top
    ensures 0 <= Sum(m) <= |m| * top
    decreases |m|
  {
    if m != map[] {
      var k :| k in m;
      SumRemove(m, k);
      SumBounds(m - {k}, top);
      OneEntryLess(m, k);
      OneTimeMore(|m| - 1, top);
    }
  }

  lemma RemoveFromUnion<K>(a: map<K, int>, b: map<K, int>, k: K)
    requires k !in b
    ensures (a + b) - {k} == (a - {k}) + b
  {
    var l, r := (a + b) - {k}, (a - {k}) + b;
    assert l.Keys == r.Keys;
  }

  lemma {:induction false} SumUnion<K>(a: map<K, int>, b: map<K, int>)
    requires forall k :: k in a ==> k !in b
    ensures Sum(a + b) == Sum(a) + Sum(b)
    decreases |a|
  {
    if a == map[] {
      assert a + b == b;
    } else {
      var k :| k in a;
      var a' := a - {k};
      assert Sum(a) == a[k] + Sum(a') by { SumRemove(a, k); }
      assert Sum(a + b) == a[k] + Sum(a' + b) by {
        SumRemove(a + b, k);
        RemoveFromUnion(a, b, k);
      }
      SumUnion(a', b);
    }
  }

  /** The part of `m` whose keys belong to group `g`. */
  function GroupOf<K, G(==)>(m: map<K, int>, group: K -> G, g: G): map<K, int> {
    map k | k in m && group(k) == g :: m[k]
  }

  ghost function GroupSums<K, G>(m: map<K, int>, group: K -> G, groups: set<G>): map<G, int> {
    map g | g in groups :: Sum(GroupOf(m, group, g))
  }

  lemma SplitByGroup<K, G>(m: map<K, int>, group: K -> G, g: G)
    ensures var rest := map k | k in m && group(k) != g :: m[k];
            Sum(m) == Sum(GroupOf(m, group, g)) + Sum(rest)
  {
    var mine := GroupOf(m, group, g);
    var rest := map k | k in m && group(k) != g :: m[k];
    assert mine + rest == m by {
      assert (mine + rest).Keys == m.Keys;
    }
    SumUnion(mine, rest);
  }

  /** Summing group by group gives the whole sum. */
  lemma {:induction false} SumByGroup<K, G>(m: map<K, int>, group: K -> G, groups: set<G>)
    requires forall k :: k in m ==> group(k) in groups
    ensures Sum(GroupSums(m, group, groups)) == Sum(m)
    decreases |groups|
  {
    if groups == {} {
      assert m == map[];
    } else {
      var g :| g in groups;
      var rest := map k | k in m && group(k) != g :: m[k];
      SplitByGroup(m, group, g);
      SumRemove(GroupSums(m, group, groups), g);
      SumByGroup(rest, group, groups - {g});
      OtherGroups(m, group, groups, g);
    }
  }

  lemma OtherGroups<K, G>(m: map<K, int>, group: K -> G, groups: set<G>, g: G)
    requires g in groups
    ensures var rest := map k | k in m && group(k) != g :: m[k];
            GroupSums(m, group, groups) - {g} == GroupSums(rest, group, groups - {g})
  {
    var rest := map k | k in m && group(k) != g :: m[k];
    forall h | h in groups - {g}
      ensures GroupOf(m, group, h) == GroupOf(rest, group, h)
    {
      assert GroupOf(m, group, h).Keys == GroupOf(rest, group, h).Keys;
    }
    var l, r := GroupSums(m, group, groups) - {g}, GroupSums(rest, group, groups - {g});
    assert l.Keys == r.Keys;
    forall h | h in l.Keys
      ensures l[h] == r[h]
    {
    }
  }
}
