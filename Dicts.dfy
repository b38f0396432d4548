/** Python dictionaries as insertion-ordered association lists. The order in
    which a dict is iterated decides the order of the template substitutions,
    so a dict is a sequence of (key, value) pairs with distinct keys; assigning
    an existing key keeps its position, a new key goes to the end. */
module Dicts {
  import opened Wrappers

  type Dict<K, V> = seq<(K, V)>

  /** No key appears twice. */
  predicate Valid<K(==), V>(d: Dict<K, V>) {
    forall i, j :: 0 <= i < j < |d| ==> d[i].0 != d[j].0
  }

  function Keys<K, V>(d: Dict<K, V>): set<K> {
    set i | 0 <= i < |d| :: d[i].0
  }

  lemma KeysCons<K, V>(x: (K, V), d: Dict<K, V>)
    ensures Keys([x] + d) == {x.0} + Keys(d)
  {
    var e := [x] + d;
    forall y | y in Keys(e) ensures y in {x.0} + Keys(d) {
      var i :| 0 <= i < |e| && e[i].0 == y;
      if i > 0 { assert d[i - 1].0 == y; }
    }
    forall y | y in Keys(d) ensures y in Keys(e) {
      var i :| 0 <= i < |d| && d[i].0 == y;
      assert e[i + 1].0 == y;
    }
    assert e[0].0 == x.0;
  }

  /** `d.get(k)`. */
  function Get<K(==,!new), V>(d: Dict<K, V>, k: K): (r: Option<V>)
    ensures r.Some? <==> k in Keys(d)
  {
    if d == [] then None
    else if d[0].0 == k then Some(d[0].1)
    else
      KeysCons(d[0], d[1..]);
      assert d == [d[0]] + d[1..];
      Get(d[1..], k)
  }

  /** In a dict with distinct keys each pair is found by its key. */
  lemma {:induction false} GetAt<K(!new), V>(d: Dict<K, V>, i: nat)
    requires Valid(d) && i < |d|
    ensures Get(d, d[i].0) == Some(d[i].1)
  {
    if i > 0 {
      assert d[0].0 != d[i].0;
      assert Valid(d[1..]) && d[1..][i - 1] == d[i];
      GetAt(d[1..], i - 1);
    }
  }

  /** `d.get(k, default)`. */
  function GetOr<K(==,!new), V>(d: Dict<K, V>, k: K, default: V): V {
    Get(d, k).GetOr(default)
  }

  /** `d[k] = v`. */
  function Put<K(==,!new), V>(d: Dict<K, V>, k: K, v: V): (r: Dict<K, V>)
    ensures Get(r, k) == Some(v)
    ensures forall k' :: k' != k ==> Get(r, k') == Get(d, k')
    ensures Keys(r) == Keys(d) + {k}
    ensures Valid(d) ==> Valid(r)
  {
    if d == [] then [(k, v)]
    else if d[0].0 == k then
      var r := [(k, v)] + d[1..];
      KeysCons((k, v), d[1..]);
      KeysCons(d[0], d[1..]);
      assert d == [d[0]] + d[1..];
      assert forall i :: 1 <= i < |r| ==> r[i] == d[i];
      r
    else
      var t := Put(d[1..], k, v);
      var r := [d[0]] + t;
      KeysCons(d[0], t);
      KeysCons(d[0], d[1..]);
      assert d == [d[0]] + d[1..];
      assert Valid(d) ==> d[0].0 !in Keys(d[1..]);
      r
  }

  /** `{**a, **b}`: the keys of `a` in their order, then the new keys of `b`;
      on a shared key the value of `b` wins. */
  function Merge<K(==,!new), V>(a: Dict<K, V>, b: Dict<K, V>): (r: Dict<K, V>)
    ensures Keys(r) == Keys(a) + Keys(b)
    ensures Valid(a) ==> Valid(r)
    decreases |b|
  {
    if b == [] then a
    else
      var r := Merge(Put(a, b[0].0, b[0].1), b[1..]);
      KeysCons(b[0], b[1..]);
      assert b == [b[0]] + b[1..];
      r
  }

  /** The merged dict answers from `b` first, then from `a`. */
  lemma {:induction false} MergeGet<K(!new), V>(a: Dict<K, V>, b: Dict<K, V>, k: K)
    requires Valid(b)
    ensures Get(Merge(a, b), k) == if k in Keys(b) then Get(b, k) else Get(a, k)
    decreases |b|
  {
    if b != [] {
      KeysCons(b[0], b[1..]);
      assert b == [b[0]] + b[1..];
      assert Valid(b[1..]);
      MergeGet(Put(a, b[0].0, b[0].1), b[1..], k);
      if k == b[0].0 {
        assert k !in Keys(b[1..]);
      }
    }
  }

  /** The dict a loop builds by assigning `d[k] = v` for each entry in turn,
      skipping the positions that yield none. */
  function Collect<K(==,!new), V>(es: seq<Option<(K, V)>>): (d: Dict<K, V>)
    ensures Valid(d)
  {
    if es == [] then []
    else
      var d := Collect(es[..|es| - 1]);
      match es[|es| - 1]
      case Some(e) => Put(d, e.0, e.1)
      case None => d
  }

  /** Position `i` holds the last entry for key `k`. */
  predicate LastFor<K(==), V>(es: seq<Option<(K, V)>>, i: nat, k: K) {
    && i < |es| && es[i].Some? && es[i].value.0 == k
    && forall j :: i < j < |es| ==> !(es[j].Some? && es[j].value.0 == k)
  }

  /** A later entry overwrites an earlier one: the collected dict maps `k` to
      the value of the last entry for `k`. */
  lemma {:induction false} CollectLast<K(!new), V>(es: seq<Option<(K, V)>>, k: K, i: nat)
    requires LastFor(es, i, k)
    ensures Get(Collect(es), k) == Some(es[i].value.1)
    decreases |es|
  {
    var n := |es| - 1;
    var init := es[..n];
    if i < n {
      assert LastFor(init, i, k) by {
        assert forall j :: i < j < n ==> init[j] == es[j];
      }
      CollectLast(init, k, i);
      var d := Collect(init);
      assert es == init + [es[n]];
      match es[n]
      case Some(e) =>
        assert e.0 != k;
        assert Get(Put(d, e.0, e.1), k) == Get(d, k);
      case None =>
    }
  }

  /** With no entry for `k` the collected dict has no `k`. */
  lemma {:induction false} CollectAbsent<K(!new), V>(es: seq<Option<(K, V)>>, k: K)
    requires forall i :: 0 <= i < |es| ==> !(es[i].Some? && es[i].value.0 == k)
    ensures Get(Collect(es), k) == None
    decreases |es|
  {
    if es != [] {
      var init := es[..|es| - 1];
      assert forall i :: 0 <= i < |init| ==> init[i] == es[i];
      CollectAbsent(init, k);
    }
  }

  /** Some entry for `k` is the last one. */
  lemma {:induction false} LastExists<K, V>(es: seq<Option<(K, V)>>, k: K, i: nat)
    requires i < |es| && es[i].Some? && es[i].value.0 == k
    ensures exists j: nat :: LastFor(es, j, k)
    decreases |es| - i
  {
    if !LastFor(es, i, k) {
      var j :| i < j < |es| && es[j].Some? && es[j].value.0 == k;
      LastExists(es, k, j);
    }
  }

  /** So the collected dict holds `k` exactly when some entry is for `k`, and
      then with the last such entry's value. */
  lemma CollectGet<K(!new), V>(es: seq<Option<(K, V)>>, k: K)
    ensures Get(Collect(es), k).Some? <==> exists i :: 0 <= i < |es| && es[i].Some? && es[i].value.0 == k
    ensures forall i: nat :: LastFor(es, i, k) ==> Get(Collect(es), k) == Some(es[i].value.1)
  {
    if i :| 0 <= i < |es| && es[i].Some? && es[i].value.0 == k {
      LastExists(es, k, i);
      var j: nat :| LastFor(es, j, k);
      CollectLast(es, k, j);
    } else {
      CollectAbsent(es, k);
    }
    forall i: nat | LastFor(es, i, k) ensures Get(Collect(es), k) == Some(es[i].value.1) {
      CollectLast(es, k, i);
    }
  }
}
