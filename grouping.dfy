/** A group-by-and-aggregate over a sequence of (key, value) pairs, as a one-pass hash aggregation
    does it: each pair is folded into the group of its key, and a key seen for the first time
    opens a new group at the end. Its correctness is stated against the declarative reading of a
    group-by: one group per key that occurs, holding the reduction of exactly that key's values. */
module Grouping {

  /** One group per key: no key occurs twice. */
  ghost predicate DistinctKeys<K, V>(gs: seq<(K, V)>) {
    forall i, j :: 0 <= i < j < |gs| ==> gs[i].0 != gs[j].0
  }

  /** The keys that occur in a sequence of pairs. */
  ghost function KeySet<K, V>(gs: seq<(K, V)>): set<K> {
    set i | 0 <= i < |gs| :: gs[i].0
  }

  /** The value of the first group with key `k`, or `zero` when there is none. */
  function Lookup<K(==, !new), V>(gs: seq<(K, V)>, k: K, zero: V): V {
    if gs == [] then zero
    else if gs[0].0 == k then gs[0].1
    else Lookup(gs[1..], k, zero)
  }

  /** The values paired with key `k`, in their original order. */
  function Select<K(==, !new), V>(pairs: seq<(K, V)>, k: K): seq<V> {
    if pairs == [] then []
    else
      var last := pairs[|pairs| - 1];
      Select(pairs[..|pairs| - 1], k) + (if last.0 == k then [last.1] else [])
  }

  /** The left fold of `plus` over `vs`, starting from `zero`. */
  function Reduce<V>(vs: seq<V>, zero: V, plus: (V, V) -> V): V {
    if vs == [] then zero else plus(Reduce(vs[..|vs| - 1], zero, plus), vs[|vs| - 1])
  }

  /** Folds the value `v` into the group of key `k`, opening that group at the end if it is new. */
  function Insert<K(==, !new), V>(gs: seq<(K, V)>, k: K, v: V, zero: V, plus: (V, V) -> V): (r: seq<(K, V)>)
    ensures KeySet(r) == KeySet(gs) + {k}
    ensures DistinctKeys(gs) ==> DistinctKeys(r)
    ensures forall k' :: Lookup(r, k', zero) == if k' == k then plus(Lookup(gs, k, zero), v) else Lookup(gs, k', zero)
    decreases |gs|
  {
    if gs == [] then
      KeySetCons((k, plus(zero, v)), []);
      [(k, plus(zero, v))]
    else if gs[0].0 == k then
      KeySetCons(gs[0], gs[1..]);
      KeySetCons((k, plus(gs[0].1, v)), gs[1..]);
      assert gs == [gs[0]] + gs[1..];
      DistinctTail(gs);
      DistinctCons((k, plus(gs[0].1, v)), gs[1..]);
      [(k, plus(gs[0].1, v))] + gs[1..]
    else
      var rest := Insert(gs[1..], k, v, zero, plus);
      KeySetCons(gs[0], gs[1..]);
      KeySetCons(gs[0], rest);
      assert gs == [gs[0]] + gs[1..];
      DistinctTail(gs);
      DistinctCons(gs[0], rest);
      [gs[0]] + rest
  }

  /** Groups `pairs` by key in one left-to-right pass: exactly one group for each key that occurs,
      and each group holds the reduction of its key's values in their original order. */
  function GroupBy<K(==, !new), V>(pairs: seq<(K, V)>, zero: V, plus: (V, V) -> V): (gs: seq<(K, V)>)
    ensures DistinctKeys(gs)
    ensures KeySet(gs) == KeySet(pairs)
    ensures forall k :: Lookup(gs, k, zero) == Reduce(Select(pairs, k), zero, plus)
    decreases |pairs|
  {
    if pairs == [] then []
    else
      var init := pairs[..|pairs| - 1];
      var last := pairs[|pairs| - 1];
      var gs := Insert(GroupBy(init, zero, plus), last.0, last.1, zero, plus);
      KeySetSnoc(init, last);
      assert pairs == init + [last];
      ReduceSelectSnoc(init, last, zero, plus);
      gs
  }

  /** In a grouping with distinct keys, looking up a group's own key finds that group. */
  lemma {:induction false} LookupAt<K(!new), V>(gs: seq<(K, V)>, i: nat, zero: V)
    requires DistinctKeys(gs)
    requires i < |gs|
    ensures Lookup(gs, gs[i].0, zero) == gs[i].1
  {
    if i > 0 {
      DistinctTail(gs);
      LookupAt(gs[1..], i - 1, zero);
    }
  }

  /** The sum of an integer measure `w` over the values. */
  function Weight<K, V>(gs: seq<(K, V)>, w: V -> int): int {
    if gs == [] then 0 else w(gs[0].1) + Weight(gs[1..], w)
  }

  /** Grouping keeps the total of any measure that adds up under `plus`: the values are
      regrouped, none is dropped and none is counted twice. */
  lemma {:induction false} GroupByKeepsWeight<K(!new), V>(pairs: seq<(K, V)>, zero: V, plus: (V, V) -> V, w: V -> int)
    requires w(zero) == 0
    requires forall a, b :: w(plus(a, b)) == w(a) + w(b)
    ensures Weight(GroupBy(pairs, zero, plus), w) == Weight(pairs, w)
    decreases |pairs|
  {
    if pairs != [] {
      var init := pairs[..|pairs| - 1];
      var last := pairs[|pairs| - 1];
      GroupByKeepsWeight(init, zero, plus, w);
      InsertWeight(GroupBy(init, zero, plus), last.0, last.1, zero, plus, w);
      assert pairs == init + [last];
      WeightAppend(init, [last], w);
    }
  }

  // Helper lemmas.

  lemma KeySetCons<K, V>(x: (K, V), s: seq<(K, V)>)
    ensures KeySet([x] + s) == {x.0} + KeySet(s)
  {
    var t := [x] + s;
    forall k | k in KeySet(t) ensures k in {x.0} + KeySet(s) {
      var i :| 0 <= i < |t| && t[i].0 == k;
      if i > 0 { assert s[i - 1].0 == k; }
    }
    forall k | k in KeySet(s) ensures k in KeySet(t) {
      var i :| 0 <= i < |s| && s[i].0 == k;
      assert t[i + 1].0 == k;
    }
    assert t[0].0 == x.0;
  }

  lemma KeySetSnoc<K, V>(s: seq<(K, V)>, x: (K, V))
    ensures KeySet(s + [x]) == KeySet(s) + {x.0}
  {
    var t := s + [x];
    forall k | k in KeySet(t) ensures k in KeySet(s) + {x.0} {
      var i :| 0 <= i < |t| && t[i].0 == k;
      if i < |s| { assert s[i].0 == k; }
    }
    forall k | k in KeySet(s) ensures k in KeySet(t) {
      var i :| 0 <= i < |s| && s[i].0 == k;
      assert t[i].0 == k;
    }
    assert t[|s|].0 == x.0;
  }

  lemma DistinctTail<K, V>(gs: seq<(K, V)>)
    requires gs != []
    ensures DistinctKeys(gs) ==> DistinctKeys(gs[1..]) && gs[0].0 !in KeySet(gs[1..])
  {
    if !DistinctKeys(gs) { return; }
    forall i | 0 <= i < |gs[1..]| ensures gs[1..][i].0 != gs[0].0 {
      assert gs[1..][i] == gs[i + 1];
    }
    forall i, j | 0 <= i < j < |gs[1..]| ensures gs[1..][i].0 != gs[1..][j].0 {
      assert gs[1..][i] == gs[i + 1] && gs[1..][j] == gs[j + 1];
    }
  }

  lemma DistinctCons<K, V>(x: (K, V), s: seq<(K, V)>)
    ensures DistinctKeys(s) && x.0 !in KeySet(s) ==> DistinctKeys([x] + s)
  {
    if !DistinctKeys(s) || x.0 in KeySet(s) { return; }
    var t := [x] + s;
    forall i, j | 0 <= i < j < |t| ensures t[i].0 != t[j].0 {
      assert t[j] == s[j - 1];
      if i == 0 {
        assert s[j - 1].0 in KeySet(s);
      } else {
        assert t[i] == s[i - 1];
      }
    }
  }

  lemma ReduceSelectSnoc<K(!new), V>(init: seq<(K, V)>, last: (K, V), zero: V, plus: (V, V) -> V)
    ensures forall k :: (Reduce(Select(init + [last], k), zero, plus)
      == if k == last.0 then plus(Reduce(Select(init, k), zero, plus), last.1) else Reduce(Select(init, k), zero, plus))
  {
    var pairs := init + [last];
    assert pairs[..|pairs| - 1] == init;
    forall k ensures Reduce(Select(pairs, k), zero, plus)
      == if k == last.0 then plus(Reduce(Select(init, k), zero, plus), last.1) else Reduce(Select(init, k), zero, plus)
    {
      var s := Select(init, k);
      if k == last.0 {
        assert (s + [last.1])[..|s|] == s;
      } else {
        assert s + [] == s;
      }
    }
  }

  lemma {:induction false} WeightAppend<K, V>(a: seq<(K, V)>, b: seq<(K, V)>, w: V -> int)
    ensures Weight(a + b, w) == Weight(a, w) + Weight(b, w)
    decreases |a|
  {
    if a != [] {
      assert (a + b)[1..] == a[1..] + b;
      WeightAppend(a[1..], b, w);
    } else {
      assert a + b == b;
    }
  }

  lemma {:induction false} InsertWeight<K(!new), V>(gs: seq<(K, V)>, k: K, v: V, zero: V, plus: (V, V) -> V, w: V -> int)
    requires w(zero) == 0
    requires forall a, b :: w(plus(a, b)) == w(a) + w(b)
    ensures Weight(Insert(gs, k, v, zero, plus), w) == Weight(gs, w) + w(v)
    decreases |gs|
  {
    if gs == [] {
    } else if gs[0].0 == k {
      var r := Insert(gs, k, v, zero, plus);
      assert r[1..] == gs[1..];
    } else {
      var r := Insert(gs, k, v, zero, plus);
      assert r[1..] == Insert(gs[1..], k, v, zero, plus);
      InsertWeight(gs[1..], k, v, zero, plus, w);
    }
  }
}
