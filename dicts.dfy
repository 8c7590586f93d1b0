/** Python's insertion-ordered dict, as the router uses it. */
module Dicts {

  /** The keys in insertion order, and the key-to-value mapping. */
  datatype RawDict<K, V> = RawDict(keys: seq<K>, vals: map<K, V>)

  /** Every key is listed once, and the listed keys are exactly the mapping's keys. */
  ghost predicate WellFormed<K, V>(d: RawDict<K, V>) {
    && (forall i, j :: 0 <= i < j < |d.keys| ==> d.keys[i] != d.keys[j])
    && (forall i :: 0 <= i < |d.keys| ==> d.keys[i] in d.vals)
    && (forall k {:trigger Listed(d, k)} :: k in d.vals ==> Listed(d, k))
  }

  /** `k` is among the listed keys; named so that the solver only uses the coverage clause on request. */
  ghost predicate Listed<K, V>(d: RawDict<K, V>, k: K) {
    k in d.keys
  }

  lemma KeyListed<K, V>(d: Dict<K, V>, k: K)
    requires k in d.vals
    ensures k in d.keys
  {
    assert Listed(d, k);
  }

  lemma AllListed<K, V>(d: Dict<K, V>)
    ensures forall k :: k in d.vals ==> k in d.keys
  {
    forall k | k in d.vals
      ensures k in d.keys
    {
      KeyListed(d, k);
    }
  }

  /** A prefix one longer is the shorter prefix and the next element. */
  lemma SliceSnoc<T>(s: seq<T>, n: nat, x: T)
    requires 0 < n <= |s|
    ensures x in s[..n] <==> x in s[..n - 1] || x == s[n - 1]
  {
    assert s[..n] == s[..n - 1] + [s[n - 1]];
  }

  /** The `n`-th listed key is not among the keys listed before it. */
  lemma FreshKey<K, V>(d: RawDict<K, V>, n: nat)
    requires WellFormed(d) && n < |d.keys|
    ensures d.keys[n] !in d.keys[..n]
  {
  }

  /** The `n`-th listed key is not among the keys listed after it. */
  lemma KeyNotLater<K, V>(d: RawDict<K, V>, n: nat)
    requires WellFormed(d) && n < |d.keys|
    ensures d.keys[n] !in d.keys[n + 1..]
  {
  }

  /** A listed key has a value. */
  lemma KeyIn<K, V>(d: RawDict<K, V>, i: nat)
    requires WellFormed(d) && i < |d.keys|
    ensures d.keys[i] in d.vals
  {
  }

  type Dict<K, V> = d: RawDict<K, V> | WellFormed(d) witness RawDict([], map[])

  function Empty<K, V>(): (r: Dict<K, V>)
    ensures r.keys == [] && r.vals == map[]
  {
    RawDict([], map[])
  }

  /** `d[k] = v`: an existing key keeps its place in the order, a new key goes last. */
  function Store<K, V>(d: Dict<K, V>, k: K, v: V): (r: Dict<K, V>)
    ensures r.vals == d.vals[k := v]
    ensures k in d.vals ==> r.keys == d.keys
    ensures k !in d.vals ==> r.keys == d.keys + [k]
  {
    AllListed(d);
    if k in d.vals then
      var r := RawDict(d.keys, d.vals[k := v]);
      assert forall k' :: k' in r.vals ==> Listed(r, k');
      r
    else
      var r := RawDict(d.keys + [k], d.vals[k := v]);
      assert forall i :: 0 <= i < |d.keys| ==> r.keys[i] == d.keys[i];
      assert forall k' :: k' in r.vals ==> Listed(r, k');
      r
  }

  /** The literal `{k: v}`. */
  function Single<K, V>(k: K, v: V): (r: Dict<K, V>)
    ensures r.keys == [k] && r.vals == map[k := v]
  {
    RawDict([k], map[k := v])
  }

  /** The (key, inner key, value) triples of a dict of dicts in iteration order:
      the first `n` outer keys, each with all of its inner keys. */
  function Items<K1, K2, V>(d: Dict<K1, Dict<K2, V>>, n: nat): seq<(K1, K2, V)>
    requires n <= |d.keys|
  {
    if n == 0 then []
    else
      var k := d.keys[n - 1];
      Items(d, n - 1) + Row(k, d.vals[k], |d.vals[k].keys|)
  }

  /** The triples of outer key `k` over the first `m` keys of its inner dict. */
  function Row<K1, K2, V>(k: K1, inner: Dict<K2, V>, m: nat): seq<(K1, K2, V)>
    requires m <= |inner.keys|
  {
    if m == 0 then []
    else Row(k, inner, m - 1) + [(k, inner.keys[m - 1], inner.vals[inner.keys[m - 1]])]
  }

  function AllItems<K1, K2, V>(d: Dict<K1, Dict<K2, V>>): seq<(K1, K2, V)> {
    Items(d, |d.keys|)
  }

  lemma {:induction false} RowMembers<K1, K2, V>(k: K1, inner: Dict<K2, V>, m: nat, x: (K1, K2, V))
    requires m <= |inner.keys|
    ensures x in Row(k, inner, m) <==>
      x.0 == k && x.1 in inner.keys[..m] && x.1 in inner.vals && x.2 == inner.vals[x.1]
  {
    if m > 0 {
      RowMembers(k, inner, m - 1, x);
      assert inner.keys[..m] == inner.keys[..m - 1] + [inner.keys[m - 1]];
    }
  }

  lemma {:induction false} ItemsMembers<K1, K2, V>(d: Dict<K1, Dict<K2, V>>, n: nat, x: (K1, K2, V))
    requires n <= |d.keys|
    ensures x in Items(d, n) <==>
      x.0 in d.keys[..n] && x.0 in d.vals && x.1 in d.vals[x.0].vals && x.2 == d.vals[x.0].vals[x.1]
  {
    if n > 0 {
      var k := d.keys[n - 1];
      ItemsMembers(d, n - 1, x);
      RowMembers(k, d.vals[k], |d.vals[k].keys|, x);
      if x.0 == k && x.1 in d.vals[k].vals {
        KeyListed(d.vals[k], x.1);
      }
      assert d.keys[..n] == d.keys[..n - 1] + [k];
      assert d.vals[k].keys[..|d.vals[k].keys|] == d.vals[k].keys;
    }
  }

  /** A triple is iterated exactly when it is an entry of the dict of dicts. */
  lemma AllItemsMembers<K1, K2, V>(d: Dict<K1, Dict<K2, V>>, x: (K1, K2, V))
    ensures x in AllItems(d) <==> x.0 in d.vals && x.1 in d.vals[x.0].vals && x.2 == d.vals[x.0].vals[x.1]
  {
    ItemsMembers(d, |d.keys|, x);
    assert d.keys[..|d.keys|] == d.keys;
    if x.0 in d.vals {
      KeyListed(d, x.0);
    }
  }

  lemma {:induction false} RowKey<K1, K2, V>(k: K1, inner: Dict<K2, V>, m: nat)
    requires m <= |inner.keys|
    ensures |Row(k, inner, m)| == m
    ensures forall l :: 0 <= l < m ==> Row(k, inner, m)[l].0 == k
  {
    if m > 0 {
      RowKey(k, inner, m - 1);
    }
  }

  lemma {:induction false} RowPrefix<K1, K2, V>(k: K1, inner: Dict<K2, V>, j: nat, m: nat)
    requires j <= m <= |inner.keys|
    ensures |Row(k, inner, m)| == m && Row(k, inner, m)[..j] == Row(k, inner, j)
  {
    RowKey(k, inner, m);
    if j < m {
      RowPrefix(k, inner, j, m - 1);
      RowKey(k, inner, m - 1);
      assert Row(k, inner, m)[..j] == Row(k, inner, m - 1)[..j];
    } else {
      assert Row(k, inner, m)[..j] == Row(k, inner, m);
    }
  }

  /** Storing the value a key already has changes nothing. */
  lemma StoreSame<K, V>(d: Dict<K, V>, k: K)
    requires k in d.vals
    ensures Store(d, k, d.vals[k]) == d
  {
    assert d.vals[k := d.vals[k]] == d.vals;
  }

  /** Storing twice under a key keeps the second value and the first placement. */
  lemma StoreTwice<K, V>(d: Dict<K, V>, k: K, v: V, w: V)
    ensures Store(Store(d, k, v), k, w) == Store(d, k, w)
  {
    assert d.vals[k := v][k := w] == d.vals[k := w];
  }

  /** Iterating further only appends triples, all of them belonging to the outer keys visited since. */
  lemma {:induction false} ItemsGrow<K1, K2, V>(d: Dict<K1, Dict<K2, V>>, a: nat, b: nat)
    requires a <= b <= |d.keys|
    ensures |Items(d, a)| <= |Items(d, b)| && Items(d, b)[..|Items(d, a)|] == Items(d, a)
    ensures forall l :: |Items(d, a)| <= l < |Items(d, b)| ==> Items(d, b)[l].0 in d.keys[a..b]
  {
    if a < b {
      ItemsGrow(d, a, b - 1);
      var k := d.keys[b - 1];
      var prev := Items(d, b - 1);
      RowKey(k, d.vals[k], |d.vals[k].keys|);
      assert Items(d, b) == prev + Row(k, d.vals[k], |d.vals[k].keys|);
      assert Items(d, b)[..|prev|] == prev;
      assert d.keys[a..b] == d.keys[a..b - 1] + [k];
    }
  }

  /** The dict made of the first `i` entries of `d`. */
  function Prefix<V>(d: Dict<string, V>, i: nat): (p: Dict<string, V>)
    requires i <= |d.keys|
    ensures p.keys == d.keys[..i]
  {
    var ks := d.keys[..i];
    var p := RawDict(ks, map k | k in ks :: d.vals[k]);
    assert forall j :: 0 <= j < i ==> ks[j] in p.vals;
    p
  }

  lemma PrefixStep<V>(d: Dict<string, V>, i: nat)
    requires i < |d.keys|
    ensures Store(Prefix(d, i), d.keys[i], d.vals[d.keys[i]]) == Prefix(d, i + 1)
  {
    var k := d.keys[i];
    assert k !in d.keys[..i];
    assert d.keys[..i + 1] == d.keys[..i] + [k];
  }

  lemma PrefixAll<V>(d: Dict<string, V>)
    ensures Prefix(d, |d.keys|) == d
  {
    assert d.keys[..|d.keys|] == d.keys;
    forall k | k in d.vals
      ensures k in d.keys
    {
      KeyListed(d, k);
    }
  }
}
