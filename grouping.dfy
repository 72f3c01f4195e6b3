/** The LinkedHashMap a Spy fills while grouping its records: entries in
    insertion order, looked up through the part of the key that the key's
    equals compares (its identity), and either added or accumulated into the
    entry already there. */
module Grouping {
  import opened Wrappers

  /** The identities of a map's keys, in order. */
  function Ids<K, P, V>(m: seq<(K, V)>, id: K -> P): (ps: seq<P>)
    ensures |ps| == |m| && forall i :: 0 <= i < |m| ==> ps[i] == id(m[i].0)
  {
    seq(|m|, i requires 0 <= i < |m| => id(m[i].0))
  }

  /** Where `p` first occurs, or -1. */
  function Position<P(==)>(ps: seq<P>, p: P): (i: int)
    ensures -1 <= i < |ps|
    ensures i >= 0 ==> ps[i] == p && forall j :: 0 <= j < i ==> ps[j] != p
    ensures i == -1 <==> forall j :: 0 <= j < |ps| ==> ps[j] != p
  {
    if |ps| == 0 then -1
    else if ps[0] == p then 0
    else
      var j := Position(ps[1..], p);
      if j == -1 then -1 else j + 1
  }

  lemma PositionAppend<P>(ps: seq<P>, q: P, p: P)
    ensures Position(ps + [q], p) ==
      if Position(ps, p) >= 0 then Position(ps, p) else if q == p then |ps| else -1
  {
    var i := Position(ps + [q], p);
    if Position(ps, p) >= 0 {
      assert (ps + [q])[Position(ps, p)] == p;
    } else if q == p {
      assert (ps + [q])[|ps|] == p;
    }
  }

  /** get followed by put of the new value, or accumulate into the value found. */
  function Upsert<K, P(==), V>(m: seq<(K, V)>, k: K, v: V, id: K -> P, acc: (V, V) -> V): seq<(K, V)> {
    var i := Position(Ids(m, id), id(k));
    if i == -1 then m + [(k, v)] else m[i := (m[i].0, acc(m[i].1, v))]
  }

  /** The map after adding every entry, in order. */
  function GroupBy<K, P(==), V>(entries: seq<(K, V)>, id: K -> P, acc: (V, V) -> V): seq<(K, V)> {
    if |entries| == 0 then []
    else
      var last := entries[|entries| - 1];
      Upsert(GroupBy(entries[..|entries| - 1], id, acc), last.0, last.1, id, acc)
  }

  /** The values of the entries whose key has identity `p`, accumulated in
      order; None when there is none. */
  function Merged<K, P(==), V>(entries: seq<(K, V)>, p: P, id: K -> P, acc: (V, V) -> V): Option<V> {
    if |entries| == 0 then None
    else
      var last := entries[|entries| - 1];
      var before := Merged(entries[..|entries| - 1], p, id, acc);
      if id(last.0) != p then before
      else if before.None? then Some(last.1)
      else Some(acc(before.value, last.1))
  }

  ghost predicate DistinctIds<K, P, V>(m: seq<(K, V)>, id: K -> P) {
    forall i, j :: 0 <= i < j < |m| ==> id(m[i].0) != id(m[j].0)
  }

  lemma IdsAppend<K, P, V>(m: seq<(K, V)>, x: (K, V), id: K -> P)
    ensures Ids(m + [x], id) == Ids(m, id) + [id(x.0)]
  {
  }

  lemma IdsUpdate<K, P, V>(m: seq<(K, V)>, i: nat, v: V, id: K -> P)
    requires i < |m|
    ensures Ids(m[i := (m[i].0, v)], id) == Ids(m, id)
  {
  }

  lemma MergedAbsent<K, P, V>(entries: seq<(K, V)>, p: P, id: K -> P, acc: (V, V) -> V)
    requires Position(Ids(entries, id), p) == -1
    ensures Merged(entries, p, id, acc) == None
  {
    if |entries| > 0 {
      var init := entries[..|entries| - 1];
      assert Ids(init, id) == Ids(entries, id)[..|entries| - 1];
      MergedAbsent(init, p, id, acc);
    }
  }

  /** The grouped map holds one entry per identity that occurs in the input,
      and no other. */
  lemma {:induction false} GroupByKeys<K, P, V>(entries: seq<(K, V)>, id: K -> P, acc: (V, V) -> V)
    ensures forall p :: Position(Ids(GroupBy(entries, id, acc), id), p) >= 0 <==> Position(Ids(entries, id), p) >= 0
    ensures DistinctIds(GroupBy(entries, id, acc), id)
  {
    if |entries| > 0 {
      var init, x := entries[..|entries| - 1], entries[|entries| - 1];
      GroupByKeys(init, id, acc);
      var g := GroupBy(init, id, acc);
      var i := Position(Ids(g, id), id(x.0));
      assert entries == init + [x];
      IdsAppend(init, x, id);
      forall p
        ensures Position(Ids(entries, id), p) == if Position(Ids(init, id), p) >= 0 then Position(Ids(init, id), p) else if id(x.0) == p then |init| else -1
      {
        PositionAppend(Ids(init, id), id(x.0), p);
      }
      if i == -1 {
        IdsAppend(g, x, id);
        forall p
          ensures Position(Ids(g + [x], id), p) >= 0 <==> Position(Ids(entries, id), p) >= 0
        {
          PositionAppend(Ids(g, id), id(x.0), p);
        }
      } else {
        IdsUpdate(g, i, acc(g[i].1, x.1), id);
        assert Ids(GroupBy(entries, id, acc), id) == Ids(g, id);
      }
    }
  }

  /** The facts every step of the grouping lemmas below starts from: how
      adding the last entry moves first positions. */
  lemma LastStep<K, P, V>(entries: seq<(K, V)>, id: K -> P)
    requires |entries| > 0
    ensures var init, x := entries[..|entries| - 1], entries[|entries| - 1];
      forall p :: Position(Ids(entries, id), p) ==
        if Position(Ids(init, id), p) >= 0 then Position(Ids(init, id), p) else if id(x.0) == p then |init| else -1
  {
    var init, x := entries[..|entries| - 1], entries[|entries| - 1];
    assert entries == init + [x];
    IdsAppend(init, x, id);
    forall p
      ensures Position(Ids(entries, id), p) == if Position(Ids(init, id), p) >= 0 then Position(Ids(init, id), p) else if id(x.0) == p then |init| else -1
    {
      PositionAppend(Ids(init, id), id(x.0), p);
    }
  }

  /** Each entry keeps the key it was first put with: the map never replaces
      a key. */
  lemma {:induction false} GroupByFirstKey<K, P, V>(entries: seq<(K, V)>, id: K -> P, acc: (V, V) -> V, k: nat)
    requires k < |GroupBy(entries, id, acc)|
    ensures var g := GroupBy(entries, id, acc);
      Position(Ids(entries, id), id(g[k].0)) >= 0 &&
      g[k].0 == entries[Position(Ids(entries, id), id(g[k].0))].0
  {
    var init, x := entries[..|entries| - 1], entries[|entries| - 1];
    GroupByKeys(init, id, acc);
    LastStep(entries, id);
    var g := GroupBy(init, id, acc);
    var g2 := GroupBy(entries, id, acc);
    var i := Position(Ids(g, id), id(x.0));
    if k < |g| {
      GroupByFirstKey(init, id, acc, k);
      assert g2[k].0 == g[k].0;
      var q := Position(Ids(init, id), id(g[k].0));
      assert Position(Ids(entries, id), id(g2[k].0)) == q;
      assert entries[q] == init[q];
    } else {
      assert i == -1 && g2 == g + [x] && g2[k] == x;
      assert Position(Ids(init, id), id(x.0)) == -1;
      assert entries[|init|] == x;
    }
  }

  /** The entries are in the order their identities first occur. */
  lemma {:induction false} GroupByOrder<K, P, V>(entries: seq<(K, V)>, id: K -> P, acc: (V, V) -> V, a: nat, b: nat)
    requires a < b < |GroupBy(entries, id, acc)|
    ensures var g := GroupBy(entries, id, acc);
      0 <= Position(Ids(entries, id), id(g[a].0)) < Position(Ids(entries, id), id(g[b].0))
  {
    var init, x := entries[..|entries| - 1], entries[|entries| - 1];
    GroupByKeys(init, id, acc);
    LastStep(entries, id);
    var g := GroupBy(init, id, acc);
    var g2 := GroupBy(entries, id, acc);
    var i := Position(Ids(g, id), id(x.0));
    assert g2[a].0 == g[a].0;
    GroupByFirstKey(init, id, acc, a);
    if b < |g| {
      GroupByOrder(init, id, acc, a, b);
      assert g2[b].0 == g[b].0;
      GroupByFirstKey(init, id, acc, b);
    } else {
      assert i == -1 && g2 == g + [x] && g2[b] == x;
      assert Position(Ids(init, id), id(x.0)) == -1;
    }
  }

  /** Each value is the accumulation of all the values of its identity, in
      input order. */
  lemma {:induction false} GroupByMerged<K, P, V>(entries: seq<(K, V)>, id: K -> P, acc: (V, V) -> V, k: nat)
    requires k < |GroupBy(entries, id, acc)|
    ensures var g := GroupBy(entries, id, acc);
      Merged(entries, id(g[k].0), id, acc) == Some(g[k].1)
  {
    var init, x := entries[..|entries| - 1], entries[|entries| - 1];
    GroupByKeys(init, id, acc);
    var g := GroupBy(init, id, acc);
    var g2 := GroupBy(entries, id, acc);
    var i := Position(Ids(g, id), id(x.0));
    if i == -1 {
      assert g2 == g + [x];
      if k == |g| {
        assert Position(Ids(init, id), id(x.0)) == -1;
        MergedAbsent(init, id(x.0), id, acc);
      } else {
        GroupByMerged(init, id, acc, k);
        assert Ids(g, id)[k] == id(g[k].0);
        assert g2[k] == g[k] && id(g[k].0) != id(x.0);
      }
    } else {
      assert g2 == g[i := (g[i].0, acc(g[i].1, x.1))];
      GroupByMerged(init, id, acc, k);
      assert Ids(g, id)[k] == id(g[k].0);
      if k != i {
        assert g2[k] == g[k] && id(g[k].0) != id(x.0);
      }
    }
  }

  /** One entry, or two with different identities, are grouped as they are;
      two with the same identity become one entry under the first key. */
  lemma GroupBySmall<K, P, V>(x: (K, V), y: (K, V), id: K -> P, acc: (V, V) -> V)
    ensures GroupBy([x], id, acc) == [x]
    ensures id(x.0) != id(y.0) ==> GroupBy([x, y], id, acc) == [x, y]
    ensures id(x.0) == id(y.0) ==> GroupBy([x, y], id, acc) == [(x.0, acc(x.1, y.1))]
  {
    assert [x][..0] == [] && [x, y][..1] == [x];
    assert Ids([x], id) == [id(x.0)];
  }

  // ---------------------------------------------------------------- maps to lists

  /** All the elements of a map whose values are lists, entry after entry. */
  function Flatten<K, T>(m: seq<(K, seq<T>)>): seq<T> {
    if |m| == 0 then [] else Flatten(m[..|m| - 1]) + m[|m| - 1].1
  }

  /** No element occurs twice. */
  predicate Distinct<T(==)>(s: seq<T>) {
    forall i, j :: 0 <= i < j < |s| ==> s[i] != s[j]
  }

  lemma {:induction false} DistinctIsMultiset<T>(s: seq<T>)
    ensures Distinct(s) <==> forall x :: multiset(s)[x] <= 1
  {
    if |s| > 0 {
      var init, y := s[..|s| - 1], s[|s| - 1];
      assert s == init + [y];
      DistinctIsMultiset(init);
      if Distinct(s) {
        assert Distinct(init) by {
          forall i, j | 0 <= i < j < |init| ensures init[i] != init[j] {
            assert init[i] == s[i] && init[j] == s[j];
          }
        }
        assert y !in init by {
          forall i | 0 <= i < |init| ensures init[i] != y {
            assert init[i] == s[i];
          }
        }
      } else {
        var i, j :| 0 <= i < j < |s| && s[i] == s[j];
        if j < |init| {
          assert init[i] == init[j];
          assert !Distinct(init);
          var z :| multiset(init)[z] > 1;
          assert multiset(s)[z] >= multiset(init)[z];
        } else {
          assert init[i] == y;
          assert multiset(init)[y] >= 1;
          assert multiset(s) == multiset(init) + multiset{y};
          assert multiset(s)[y] >= 2;
        }
      }
    }
  }

  /** Adding v to the list of entry i adds v's elements and nothing else. */
  lemma {:induction false} FlattenUpdate<K, T>(m: seq<(K, seq<T>)>, i: nat, k: K, v: seq<T>)
    requires i < |m|
    ensures multiset(Flatten(m[i := (k, m[i].1 + v)])) == multiset(Flatten(m)) + multiset(v)
  {
    var n := |m|;
    var m2 := m[i := (k, m[i].1 + v)];
    if i == n - 1 {
      assert m2[..n - 1] == m[..n - 1];
    } else {
      assert m2[..n - 1] == m[..n - 1][i := (k, m[i].1 + v)];
      FlattenUpdate(m[..n - 1], i, k, v);
    }
  }

  /** Grouping with list concatenation loses and duplicates no element. */
  lemma {:induction false} GroupByKeepsElements<K, P, T>(entries: seq<(K, seq<T>)>, id: K -> P, acc: (seq<T>, seq<T>) -> seq<T>)
    requires forall a, b :: acc(a, b) == a + b
    ensures multiset(Flatten(GroupBy(entries, id, acc))) == multiset(Flatten(entries))
  {
    if |entries| > 0 {
      var init, x := entries[..|entries| - 1], entries[|entries| - 1];
      GroupByKeepsElements(init, id, acc);
      var g := GroupBy(init, id, acc);
      var i := Position(Ids(g, id), id(x.0));
      if i == -1 {
        assert (g + [x])[..|g|] == g;
      } else {
        FlattenUpdate(g, i, g[i].0, x.1);
      }
    }
  }

  /** In a map whose elements are all distinct, every list is distinct and
      two lists share no element. */
  lemma {:induction false} FlattenDistinct<K, T>(m: seq<(K, seq<T>)>, j: nat, k: nat)
    requires Distinct(Flatten(m)) && j < |m| && k < |m|
    ensures Distinct(m[k].1)
    ensures j != k ==> forall p :: p in m[j].1 ==> p !in m[k].1
  {
    var n := |m|;
    var f, last := Flatten(m[..n - 1]), m[n - 1].1;
    assert Flatten(m) == f + last;
    assert Distinct(f) by {
      forall a, b | 0 <= a < b < |f| ensures f[a] != f[b] {
        assert f[a] == Flatten(m)[a] && f[b] == Flatten(m)[b];
      }
    }
    assert Distinct(last) by {
      forall a, b | 0 <= a < b < |last| ensures last[a] != last[b] {
        assert last[a] == Flatten(m)[|f| + a] && last[b] == Flatten(m)[|f| + b];
      }
    }
    assert forall p :: p in f ==> p !in last by {
      forall a, b | 0 <= a < |f| && 0 <= b < |last| ensures f[a] != last[b] {
        assert f[a] == Flatten(m)[a] && last[b] == Flatten(m)[|f| + b];
      }
    }
    FlattenHasEntries(m[..n - 1]);
    if j < n - 1 && k < n - 1 {
      FlattenDistinct(m[..n - 1], j, k);
    } else if j < n - 1 {
      assert m[..n - 1][j] == m[j];
    } else if k < n - 1 {
      assert m[..n - 1][k] == m[k];
      FlattenDistinct(m[..n - 1], k, k);
    }
  }

  /** Every list of a map is part of its flattening. */
  lemma {:induction false} FlattenHasEntries<K, T>(m: seq<(K, seq<T>)>)
    ensures forall k, p :: 0 <= k < |m| && p in m[k].1 ==> p in Flatten(m)
  {
    if |m| > 0 {
      FlattenHasEntries(m[..|m| - 1]);
      forall k, p | 0 <= k < |m| && p in m[k].1 ensures p in Flatten(m) {
        if k < |m| - 1 {
          assert m[..|m| - 1][k] == m[k];
        }
      }
    }
  }

  /** The elements of all the lists of a map, as a set. */
  function Elements<K, T(==)>(m: seq<(K, seq<T>)>): set<T> {
    set k, p | 0 <= k < |m| && p in m[k].1 :: p
  }

  /** The first k + 1 elements of a sequence. */
  lemma TakeSnoc<T>(s: seq<T>, k: nat)
    requires k < |s|
    ensures s[..k] + [s[k]] == s[..k + 1]
  {
  }

  /** All the elements of a sequence. */
  lemma TakeAll<T>(s: seq<T>)
    ensures s[..|s|] == s
  {
  }

  /** The elements of the first k + 1 entries of a map. */
  lemma ElementsPrefix<K, T>(m: seq<(K, seq<T>)>, k: nat)
    requires k < |m|
    ensures Elements(m[..k + 1]) == Elements(m[..k]) + set p | p in m[k].1
    ensures k + 1 == |m| ==> Elements(m[..k + 1]) == Elements(m)
  {
    assert m[..k + 1] == m[..k] + [m[k]];
    ElementsSnoc(m[..k], m[k]);
    if k + 1 == |m| {
      assert m[..k + 1] == m;
    }
  }

  /** In a map whose elements are all distinct, the lists before entry k
      share no element with entry k. */
  lemma PrefixDisjoint<K, T>(m: seq<(K, seq<T>)>, k: nat)
    requires Distinct(Flatten(m)) && k < |m|
    ensures forall p :: p in Elements(m[..k]) ==> p !in m[k].1
  {
    forall p | p in Elements(m[..k]) ensures p !in m[k].1 {
      var j :| 0 <= j < k && p in m[..k][j].1;
      assert m[..k][j] == m[j];
      FlattenDistinct(m, j, k);
    }
  }

  /** The elements of a map with one more entry. */
  lemma ElementsSnoc<K, T>(m: seq<(K, seq<T>)>, e: (K, seq<T>))
    ensures Elements(m + [e]) == Elements(m) + set p | p in e.1
  {
    var m' := m + [e];
    forall p | p in Elements(m') ensures p in Elements(m) + set p | p in e.1 {
      var k :| 0 <= k < |m'| && p in m'[k].1;
      if k < |m| {
        assert m[k] == m'[k];
      }
    }
    forall p | p in Elements(m) ensures p in Elements(m') {
      var k :| 0 <= k < |m| && p in m[k].1;
      assert m'[k] == m[k];
    }
    assert m'[|m|] == e;
  }

  /** The flattening holds exactly the elements of the lists. */
  lemma {:induction false} FlattenElements<K, T>(m: seq<(K, seq<T>)>)
    ensures forall p :: p in Flatten(m) ==> p in Elements(m)
    ensures forall p :: p in Elements(m) ==> p in Flatten(m)
  {
    FlattenHasEntries(m);
    if |m| > 0 {
      var init := m[..|m| - 1];
      FlattenElements(init);
      forall p | p in Flatten(m) ensures p in Elements(m) {
        if p in Flatten(init) {
          assert p in Elements(init);
          var k :| 0 <= k < |init| && p in init[k].1;
          assert m[k] == init[k];
        } else {
          assert p in m[|m| - 1].1;
        }
      }
    }
  }
}
