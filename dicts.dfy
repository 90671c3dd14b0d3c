/** A JavaScript object used as a dictionary: its own keys in insertion
    order, and the value stored under each. */
module Dicts {

  datatype Dict<V> = Dict(keys: seq<string>, vals: map<string, V>) {
    /** Keys are listed once each, and exactly the keys that hold a value. */
    predicate Valid() {
      && (forall i, j :: 0 <= i < j < |keys| ==> keys[i] != keys[j])
      && vals.Keys == set k | k in keys
    }
  }

  function Empty<V>(): Dict<V> {
    Dict([], map[])
  }

  /** `d[k] = v`: an existing key keeps its place, a new one goes last. */
  function Put<V>(d: Dict<V>, k: string, v: V): Dict<V> {
    if k in d.keys then Dict(d.keys, d.vals[k := v]) else Dict(d.keys + [k], d.vals[k := v])
  }

  /** `if (k in d) d[k] += x; else d[k] = x;` */
  function AddTo(d: Dict<int>, k: string, x: int): Dict<int> {
    Put(d, k, if k in d.vals then d.vals[k] + x else x)
  }

  function SumOver(ks: seq<string>, vals: map<string, int>): int
    requires forall k :: k in ks ==> k in vals
  {
    if |ks| == 0 then 0 else SumOver(ks[..|ks| - 1], vals) + vals[ks[|ks| - 1]]
  }

  /** `Object.values(d).reduce((a, b) => a + b, 0n)` */
  function Total(d: Dict<int>): int
    requires d.Valid()
  {
    SumOver(d.keys, d.vals)
  }

  /** `Object.values(d)` */
  function Values<V>(d: Dict<V>): seq<V>
    requires d.Valid()
  {
    seq(|d.keys|, i requires 0 <= i < |d.keys| => d.vals[d.keys[i]])
  }

  lemma EmptyValid<V>()
    ensures Empty<V>().Valid()
  {
  }

  lemma PutValid<V>(d: Dict<V>, k: string, v: V)
    requires d.Valid()
    ensures var r := Put(d, k, v);
      && r.Valid()
      && r.vals == d.vals[k := v]
      && (k in d.vals ==> r.keys == d.keys)
      && (k !in d.vals ==> r.keys == d.keys + [k])
  {
  }

  lemma {:induction false} SumOverUpdate(ks: seq<string>, vals: map<string, int>, k: string, v: int)
    requires forall x :: x in ks ==> x in vals
    requires forall i, j :: 0 <= i < j < |ks| ==> ks[i] != ks[j]
    ensures k !in ks ==> SumOver(ks, vals[k := v]) == SumOver(ks, vals)
    ensures k in ks ==> SumOver(ks, vals[k := v]) == SumOver(ks, vals) - vals[k] + v
    decreases |ks|
  {
    if |ks| > 0 {
      var init := ks[..|ks| - 1];
      SumOverUpdate(init, vals, k, v);
      if ks[|ks| - 1] == k {
        assert k !in init;
      } else {
        assert k in ks ==> k in init;
      }
    }
  }

  lemma SumOverAppend(ks: seq<string>, vals: map<string, int>, k: string)
    requires forall x :: x in ks ==> x in vals
    requires k in vals
    ensures SumOver(ks + [k], vals) == SumOver(ks, vals) + vals[k]
  {
    assert (ks + [k])[..|ks|] == ks;
  }

  /** Adding `x` under one key keeps the dictionary well formed and changes only that key. */
  lemma AddToValid(d: Dict<int>, k: string, x: int)
    requires d.Valid()
    ensures AddTo(d, k, x).Valid()
    ensures AddTo(d, k, x).vals == d.vals[k := if k in d.vals then d.vals[k] + x else x]
  {
    PutValid(d, k, if k in d.vals then d.vals[k] + x else x);
  }

  /** Adding `x` under one key raises the total by exactly `x`. */
  lemma TotalAddTo(d: Dict<int>, k: string, x: int)
    requires d.Valid()
    ensures AddTo(d, k, x).Valid()
    ensures Total(AddTo(d, k, x)) == Total(d) + x
  {
    var present := k in d.keys;
    assert present <==> k in d.vals;
    var v := if present then d.vals[k] + x else x;
    PutValid(d, k, v);
    var m := d.vals[k := v];
    var r := AddTo(d, k, x);
    assert r == Put(d, k, v);
    assert forall y :: y in d.keys ==> y in d.vals;
    SumOverUpdate(d.keys, d.vals, k, v);
    if present {
      assert r.keys == d.keys && r.vals == m;
      assert Total(r) == SumOver(d.keys, m);
    } else {
      assert r.keys == d.keys + [k] && r.vals == m;
      SumOverAppend(d.keys, m, k);
      assert Total(r) == SumOver(d.keys, m) + v;
    }
  }

  /** `xs.forEach(x => d[key(x)] = x)` into an empty `d`: a later element
      with the same key replaces an earlier one. */
  function IndexBy<T>(xs: seq<T>, key: T -> string): Dict<T>
    decreases |xs|
  {
    if |xs| == 0 then Empty()
    else Put(IndexBy(xs[..|xs| - 1], key), key(xs[|xs| - 1]), xs[|xs| - 1])
  }

  /** `xs[i]` is the last element with key `k`. */
  predicate IsLastWithKey<T>(xs: seq<T>, key: T -> string, i: int, k: string) {
    && 0 <= i < |xs|
    && key(xs[i]) == k
    && forall j :: i < j < |xs| ==> key(xs[j]) != k
  }

  /** Exactly the keys of the elements are keys of the index. */
  lemma {:induction false} IndexByKeys<T>(xs: seq<T>, key: T -> string)
    ensures IndexBy(xs, key).Valid()
    ensures forall k :: k in IndexBy(xs, key).vals <==> exists i :: 0 <= i < |xs| && key(xs[i]) == k
    decreases |xs|
  {
    if |xs| == 0 {
      EmptyValid<T>();
    } else {
      var n := |xs| - 1;
      var init := xs[..n];
      IndexByKeys(init, key);
      PutValid(IndexBy(init, key), key(xs[n]), xs[n]);
      assert forall i :: 0 <= i < n ==> init[i] == xs[i];
    }
  }

  /** Each key is bound to the last element carrying it. */
  lemma {:induction false} IndexByLast<T>(xs: seq<T>, key: T -> string, k: string)
    requires k in IndexBy(xs, key).vals
    ensures exists i :: IsLastWithKey(xs, key, i, k) && xs[i] == IndexBy(xs, key).vals[k]
    decreases |xs|
  {
    var n := |xs| - 1;
    var init := xs[..n];
    if k == key(xs[n]) {
      assert IsLastWithKey(xs, key, n, k);
    } else {
      IndexByLast(init, key, k);
      var i :| IsLastWithKey(init, key, i, k) && init[i] == IndexBy(init, key).vals[k];
      assert IsLastWithKey(xs, key, i, k);
    }
  }
}
