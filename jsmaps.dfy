/**
 * A JavaScript `Map`: a finite map that also remembers the order in which
 * its keys were first inserted. `forEach` visits the entries in that order,
 * and `set` on a key already present replaces its value in place.
 */
module JsMaps {
  import opened Options

  /** No key is listed twice. */
  predicate NoDuplicates<K(==)>(ks: seq<K>) {
    forall i, j :: 0 <= i < j < |ks| ==> ks[i] != ks[j]
  }

  /** A listed key does not occur earlier in the list. */
  lemma NoDuplicatesAt<K>(ks: seq<K>, j: nat)
    requires NoDuplicates(ks)
    requires j < |ks|
    ensures ks[j] !in ks[..j]
  {
  }

  datatype OrderedMap<K(==, !new), V> = OrderedMap(keys: seq<K>, values: map<K, V>)
  {
    /** Keys are listed once each, and exactly the keys of `values` are listed. */
    predicate Valid() {
      && NoDuplicates(keys)
      && (forall k | k in values :: k in keys)
      && (forall i | 0 <= i < |keys| :: keys[i] in values)
    }
  }

  type JsMap<K(==, !new), V> = m: OrderedMap<K, V> | m.Valid() witness OrderedMap([], map[])

  /** `new Map()`. */
  function Empty<K(==, !new), V>(): JsMap<K, V> {
    OrderedMap([], map[])
  }

  /** `m.get(k)`: `None` stands for `undefined`. */
  function Get<K(==, !new), V>(m: JsMap<K, V>, k: K): Option<V>
  {
    if k in m.values then Some(m.values[k]) else None
  }

  /** `m.set(k, v)`: a new key goes to the end of the order, a known key keeps its place. */
  function Set<K(==, !new), V>(m: JsMap<K, V>, k: K, v: V): JsMap<K, V>
  {
    if k in m.values then OrderedMap(m.keys, m.values[k := v])
    else
      assert (m.keys + [k])[..|m.keys|] == m.keys;
      OrderedMap(m.keys + [k], m.values[k := v])
  }

  /**
   * `set` stores `v` under `k` and leaves every other key alone; a new key goes
   * to the end of the iteration order, a known key keeps its place.
   */
  lemma SetGet<K(!new), V>(m: JsMap<K, V>, k: K, v: V, j: K)
    ensures Get(Set(m, k, v), j) == if j == k then Some(v) else Get(m, j)
    ensures Set(m, k, v).keys == if k in m.keys then m.keys else m.keys + [k]
    ensures Get(m, j).Some? <==> j in m.keys
  {
  }

  /** The entries in iteration order, as `forEach` or `Array.from(m)` sees them. */
  function Entries<K(==, !new), V>(m: JsMap<K, V>): (es: seq<(K, V)>)
    ensures |es| == |m.keys|
    ensures forall i :: 0 <= i < |es| ==> es[i].0 == m.keys[i] && Get(m, m.keys[i]) == Some(es[i].1)
  {
    seq(|m.keys|, i requires 0 <= i < |m.keys| => (m.keys[i], m.values[m.keys[i]]))
  }

  /**
   * The loop `m.forEach((v, k) => acc.set(k, f(acc.get(k), v)))` stopped after
   * its first `n` turns: each visited key gets `f` of its previous value in the
   * accumulator (if any) and its value in `m`.
   */
  function MergeFirst<K(==, !new), V>(acc: JsMap<K, V>, m: JsMap<K, V>, n: nat, f: (Option<V>, V) -> V): JsMap<K, V>
    requires n <= |m.keys|
  {
    if n == 0 then acc
    else
      var r := MergeFirst(acc, m, n - 1, f);
      var k := m.keys[n - 1];
      Set(r, k, f(Get(r, k), m.values[k]))
  }

  /**
   * The whole loop: `m.forEach((v, k) => acc.set(k, f(acc.get(k), v)))`. The
   * result lists the accumulator's keys in their order, then the keys of `m`
   * it lacked, in `m`'s order.
   */
  function MergeAll<K(==, !new), V>(acc: JsMap<K, V>, m: JsMap<K, V>, f: (Option<V>, V) -> V): (r: JsMap<K, V>)
    ensures r.keys == AppendNew(acc.keys, m.keys)
  {
    MergeFirstOrder(acc, m, |m.keys|, f);
    assert m.keys[..|m.keys|] == m.keys;
    MergeFirst(acc, m, |m.keys|, f)
  }

  /** `acc` followed by the elements of `ks` it does not yet hold, each once, in the order of `ks`. */
  function AppendNew<K(==)>(acc: seq<K>, ks: seq<K>): seq<K>
    decreases |ks|
  {
    if ks == [] then acc
    else
      var d := AppendNew(acc, ks[..|ks| - 1]);
      if ks[|ks| - 1] in d then d else d + [ks[|ks| - 1]]
  }

  /** The position at which `x` first occurs in `ks`. */
  function FirstIndex<K(==)>(ks: seq<K>, x: K): (i: nat)
    requires x in ks
    ensures i < |ks| && ks[i] == x && x !in ks[..i]
    decreases |ks|
  {
    var init := ks[..|ks| - 1];
    if x in init then
      var i := FirstIndex(init, x);
      assert ks[..i] == init[..i];
      i
    else
      |ks| - 1
  }

  /** `r` is ordered by where its elements first occur in `ks`, each occurring once. */
  predicate ByFirstOccurrence<K(==)>(r: seq<K>, ks: seq<K>) {
    forall i, j | 0 <= i < j < |r| ::
      r[i] in ks && r[j] in ks && FirstIndex(ks, r[i]) < FirstIndex(ks, r[j])
  }

  /**
   * `AppendNew([], ks)` lists each element of `ks` once, ordered by where it
   * first occurs in `ks`.
   */
  lemma {:induction false} AppendNewFirstOccurrences<K>(ks: seq<K>)
    ensures forall x :: x in AppendNew([], ks) <==> x in ks
    ensures ByFirstOccurrence(AppendNew([], ks), ks)
    decreases |ks|
  {
    if ks != [] {
      var init, last := ks[..|ks| - 1], ks[|ks| - 1];
      AppendNewFirstOccurrences(init);
      assert ks == init + [last];
      FirstOccurrencesStep(init, last, AppendNew([], init));
    }
  }

  /** Appending `last` to the keys, when it is new, puts it after all the others. */
  lemma FirstOccurrencesStep<K>(init: seq<K>, last: K, d: seq<K>)
    requires forall x :: x in d <==> x in init
    requires ByFirstOccurrence(d, init)
    ensures ByFirstOccurrence(if last in d then d else d + [last], init + [last])
  {
    var ks, r := init + [last], if last in d then d else d + [last];
    assert ks[..|ks| - 1] == init;
    forall i, j | 0 <= i < j < |r|
      ensures r[i] in ks && r[j] in ks && FirstIndex(ks, r[i]) < FirstIndex(ks, r[j])
    {
      assert r[i] == d[i] && d[i] in d;
      assert FirstIndex(ks, d[i]) == FirstIndex(init, d[i]);
      if j < |d| {
        assert r[j] == d[j] && d[j] in d;
        assert FirstIndex(ks, d[j]) == FirstIndex(init, d[j]);
      } else {
        assert r[j] == last && last !in init;
        assert FirstIndex(ks, last) == |ks| - 1;
      }
    }
  }

  /** Appending two lists of keys one after the other appends their concatenation. */
  lemma {:induction false} AppendNewConcat<K>(acc: seq<K>, xs: seq<K>, ys: seq<K>)
    ensures AppendNew(AppendNew(acc, xs), ys) == AppendNew(acc, xs + ys)
    decreases |ys|
  {
    if ys == [] {
      assert xs + ys == xs;
    } else {
      var init := ys[..|ys| - 1];
      assert (xs + ys)[..|xs + ys| - 1] == xs + init;
      assert (xs + ys)[|xs + ys| - 1] == ys[|ys| - 1];
      AppendNewConcat(acc, xs, init);
    }
  }

  /** The first `n` turns list the accumulator's keys, then the new keys among the first `n` of `m`. */
  lemma {:induction false} MergeFirstOrder<K(!new), V>(acc: JsMap<K, V>, m: JsMap<K, V>, n: nat, f: (Option<V>, V) -> V)
    requires n <= |m.keys|
    ensures MergeFirst(acc, m, n, f).keys == AppendNew(acc.keys, m.keys[..n])
    decreases n
  {
    if n > 0 {
      var r := MergeFirst(acc, m, n - 1, f);
      var k := m.keys[n - 1];
      var d := AppendNew(acc.keys, m.keys[..n - 1]);
      calc {
        MergeFirst(acc, m, n, f).keys;
        Set(r, k, f(Get(r, k), m.values[k])).keys;
        { SetGet(r, k, f(Get(r, k), m.values[k]), k); }
        if k in r.keys then r.keys else r.keys + [k];
        { MergeFirstOrder(acc, m, n - 1, f); }
        if k in d then d else d + [k];
        { assert m.keys[..n][..n - 1] == m.keys[..n - 1]; }
        AppendNew(acc.keys, m.keys[..n]);
      }
    }
  }

  /** Overwrites the value held by the accumulator. */
  function Overwrite<V>(prev: Option<V>, value: V): V {
    value
  }

  /** `m.forEach((v, k) => r.set(k, v))` on a new map `r`: a copy of `m`. */
  method Copy<K(==, !new), V>(m: JsMap<K, V>) returns (r: JsMap<K, V>)
    ensures r == m
  {
    r := Empty();
    for j := 0 to |m.keys|
      invariant r == MergeFirst(Empty(), m, j, Overwrite)
    {
      r := Set(r, m.keys[j], m.values[m.keys[j]]);
    }
    CopyLoopComplete(m);
  }

  lemma CopyLoopComplete<K(!new), V>(m: JsMap<K, V>)
    ensures MergeFirst(Empty(), m, |m.keys|, Overwrite) == m
  {
    MergeAllIntoEmpty(m, Overwrite);
  }

  /** What one turn of the loop does to the value held under `k`. */
  lemma MergeStepGet<K(!new), V>(acc: JsMap<K, V>, r: JsMap<K, V>, m: JsMap<K, V>, n: nat, f: (Option<V>, V) -> V, k: K)
    requires 0 < n <= |m.keys|
    requires Get(r, k) == if k in m.keys[..n - 1] then Some(f(Get(acc, k), m.values[k])) else Get(acc, k)
    requires Get(r, m.keys[n - 1]) == Get(acc, m.keys[n - 1])
    ensures Get(Set(r, m.keys[n - 1], f(Get(r, m.keys[n - 1]), m.values[m.keys[n - 1]])), k)
      == if k in m.keys[..n] then Some(f(Get(acc, k), m.values[k])) else Get(acc, k)
  {
    assert m.keys[..n] == m.keys[..n - 1] + [m.keys[n - 1]];
    if k == m.keys[n - 1] {
      NoDuplicatesAt(m.keys, n - 1);
    }
  }

  /** What the first `n` turns of the loop leave under the key `k`. */
  lemma {:induction false} MergeFirstGet<K(!new), V>(acc: JsMap<K, V>, m: JsMap<K, V>, n: nat, f: (Option<V>, V) -> V, k: K)
    requires n <= |m.keys|
    ensures Get(MergeFirst(acc, m, n, f), k) == if k in m.keys[..n] then Some(f(Get(acc, k), m.values[k])) else Get(acc, k)
    decreases n, 1
  {
    if n > 0 {
      MergeFirstGetStep(acc, m, n, f, k);
    }
  }

  lemma {:induction false} MergeFirstGetStep<K(!new), V>(acc: JsMap<K, V>, m: JsMap<K, V>, n: nat, f: (Option<V>, V) -> V, k: K)
    requires 0 < n <= |m.keys|
    ensures Get(MergeFirst(acc, m, n, f), k) == if k in m.keys[..n] then Some(f(Get(acc, k), m.values[k])) else Get(acc, k)
    decreases n, 0
  {
    var r := MergeFirst(acc, m, n - 1, f);
    var last := m.keys[n - 1];
    assert Get(r, k) == if k in m.keys[..n - 1] then Some(f(Get(acc, k), m.values[k])) else Get(acc, k) by {
      MergeFirstGet(acc, m, n - 1, f, k);
    }
    assert Get(r, last) == Get(acc, last) by {
      MergeFirstGet(acc, m, n - 1, f, last);
      NoDuplicatesAt(m.keys, n - 1);
    }
    MergeStepGet(acc, r, m, n, f, k);
  }

  /**
   * After the loop, a key of `m` holds `f` of the accumulator's old value and
   * `m`'s value; every other key keeps the accumulator's value.
   */
  lemma MergeAllGet<K(!new), V>(acc: JsMap<K, V>, m: JsMap<K, V>, f: (Option<V>, V) -> V, k: K)
    ensures Get(MergeAll(acc, m, f), k) == match Get(m, k)
      case Some(v) => Some(f(Get(acc, k), v))
      case None => Get(acc, k)
  {
    MergeFirstGet(acc, m, |m.keys|, f, k);
    assert m.keys[..|m.keys|] == m.keys;
  }

  /** The loop adds the keys of `m` to those of the accumulator. */
  lemma MergeAllKeys<K(!new), V>(acc: JsMap<K, V>, m: JsMap<K, V>, f: (Option<V>, V) -> V)
    ensures MergeAll(acc, m, f).values.Keys == acc.values.Keys + m.values.Keys
  {
    var r := MergeAll(acc, m, f);
    forall k
      ensures k in r.values <==> k in acc.values || k in m.values
    {
      MergeAllGet(acc, m, f, k);
    }
  }

  /** Merging a key the accumulator lacks appends it to the order. */
  lemma SetNewKey<K(!new), V>(r: JsMap<K, V>, m: JsMap<K, V>, j: nat, v: V)
    requires j < |m.keys|
    requires r.keys == m.keys[..j]
    ensures Set(r, m.keys[j], v).keys == m.keys[..j + 1]
  {
    NoDuplicatesAt(m.keys, j);
    assert m.keys[..j] + [m.keys[j]] == m.keys[..j + 1];
  }

  /** Run from an empty accumulator, the first `n` turns list exactly the first `n` keys of `m`. */
  lemma {:induction false} MergeFirstIntoEmptyOrder<K(!new), V>(m: JsMap<K, V>, n: nat, f: (Option<V>, V) -> V)
    requires n <= |m.keys|
    ensures MergeFirst(Empty(), m, n, f).keys == m.keys[..n]
    decreases n, 1
  {
    if n > 0 {
      MergeFirstIntoEmptyOrderStep(m, n, f);
    }
  }

  lemma {:induction false} MergeFirstIntoEmptyOrderStep<K(!new), V>(m: JsMap<K, V>, n: nat, f: (Option<V>, V) -> V)
    requires 0 < n <= |m.keys|
    ensures MergeFirst(Empty(), m, n, f).keys == m.keys[..n]
    decreases n, 0
  {
    var r := MergeFirst(Empty(), m, n - 1, f);
    assert r.keys == m.keys[..n - 1] by {
      MergeFirstIntoEmptyOrder(m, n - 1, f);
    }
    SetNewKey(r, m, n - 1, f(Get(r, m.keys[n - 1]), m.values[m.keys[n - 1]]));
  }

  /**
   * When `f` copies a value it meets for the first time, running the loop from
   * an empty map rebuilds `m`, order included: `m.forEach((v, k) => r.set(k, v))`
   * makes a copy of `m`.
   */
  lemma MergeAllIntoEmpty<K(!new), V>(m: JsMap<K, V>, f: (Option<V>, V) -> V)
    requires forall v :: f(None, v) == v
    ensures MergeAll(Empty(), m, f) == m
  {
    var r := MergeAll(Empty(), m, f);
    assert r.keys == m.keys by {
      MergeFirstIntoEmptyOrder(m, |m.keys|, f);
      assert m.keys[..|m.keys|] == m.keys;
    }
    assert r.values == m.values by {
      forall k | k in m.values
        ensures k in r.values && r.values[k] == m.values[k]
      {
        MergeAllGet(Empty(), m, f, k);
      }
      MergeAllKeys(Empty(), m, f);
    }
  }
}
