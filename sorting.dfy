/** The ascending sort of the fast-sort library (`sort(xs).asc(key)`) on
    string keys: a stable sort under JavaScript's `<` on strings. */
module Sorting {

  /** JavaScript's `<` on strings: lexicographic order of code units. */
  predicate StrLt(a: string, b: string)
    decreases |a|
  {
    if |a| == 0 then |b| > 0
    else if |b| == 0 then false
    else if a[0] != b[0] then a[0] < b[0]
    else StrLt(a[1..], b[1..])
  }

  lemma {:induction false} StrLtIrreflexive(a: string)
    ensures !StrLt(a, a)
    decreases |a|
  {
    if |a| > 0 {
      StrLtIrreflexive(a[1..]);
    }
  }

  lemma {:induction false} StrLtTransitive(a: string, b: string, c: string)
    requires StrLt(a, b) && StrLt(b, c)
    ensures StrLt(a, c)
    decreases |a|
  {
    if |a| > 0 && a[0] == b[0] && b[0] == c[0] {
      StrLtTransitive(a[1..], b[1..], c[1..]);
    }
  }

  lemma {:induction false} StrLtTotal(a: string, b: string)
    ensures StrLt(a, b) || a == b || StrLt(b, a)
    decreases |a|
  {
    if |a| > 0 && |b| > 0 && a[0] == b[0] {
      StrLtTotal(a[1..], b[1..]);
      if a[1..] == b[1..] {
        assert a == [a[0]] + a[1..] && b == [b[0]] + b[1..];
      }
    }
  }

  predicate SortedBy<T>(s: seq<T>, key: T -> string) {
    forall i, j :: 0 <= i < j < |s| ==> !StrLt(key(s[j]), key(s[i]))
  }

  /** Places `x` after every element whose key is not greater than its own. */
  function Insert<T>(x: T, s: seq<T>, key: T -> string): seq<T> {
    if |s| == 0 then [x]
    else if StrLt(key(x), key(s[0])) then [x] + s
    else [s[0]] + Insert(x, s[1..], key)
  }

  /** `sort(xs).asc(key)`: elements with equal keys keep their order. */
  function SortBy<T>(xs: seq<T>, key: T -> string): seq<T> {
    if |xs| == 0 then [] else Insert(xs[|xs| - 1], SortBy(xs[..|xs| - 1], key), key)
  }

  function MapSeq<A, B>(f: A -> B, xs: seq<A>): seq<B> {
    seq(|xs|, i requires 0 <= i < |xs| => f(xs[i]))
  }

  /** A mapped prefix is the prefix of the mapped sequence. */
  lemma MapSeqPrefix<A, B>(f: A -> B, xs: seq<A>, n: nat)
    requires n < |xs|
    ensures MapSeq(f, xs)[..n] == MapSeq(f, xs[..n])
    ensures MapSeq(f, xs)[n] == f(xs[n])
  {
  }

  lemma {:induction false} InsertPermutes<T>(x: T, s: seq<T>, key: T -> string)
    ensures multiset(Insert(x, s, key)) == multiset(s) + multiset{x}
    decreases |s|
  {
    if |s| > 0 && !StrLt(key(x), key(s[0])) {
      InsertPermutes(x, s[1..], key);
      assert s == [s[0]] + s[1..];
    }
  }

  lemma {:induction false} InsertSorted<T>(x: T, s: seq<T>, key: T -> string)
    requires SortedBy(s, key)
    ensures SortedBy(Insert(x, s, key), key)
    decreases |s|
  {
    if |s| == 0 {
    } else if StrLt(key(x), key(s[0])) {
      var r := [x] + s;
      forall j | 0 < j < |r| ensures !StrLt(key(r[j]), key(x)) {
        if StrLt(key(r[j]), key(x)) {
          StrLtTransitive(key(r[j]), key(x), key(s[0]));
          if j - 1 == 0 {
            StrLtIrreflexive(key(s[0]));
          }
        }
      }
    } else {
      var tail := Insert(x, s[1..], key);
      InsertSorted(x, s[1..], key);
      InsertPermutes(x, s[1..], key);
      var r := [s[0]] + tail;
      forall j | 0 < j < |r| ensures !StrLt(key(r[j]), key(s[0])) {
        var e := r[j];
        assert e in multiset(tail);
        if e != x {
          assert e in multiset(s[1..]);
          var k :| 0 <= k < |s[1..]| && s[1..][k] == e;
          assert s[k + 1] == e;
        }
      }
    }
  }

  /** The sort returns its input, reordered, in ascending key order. */
  lemma {:induction false} SortByCorrect<T>(xs: seq<T>, key: T -> string)
    ensures multiset(SortBy(xs, key)) == multiset(xs)
    ensures SortedBy(SortBy(xs, key), key)
    decreases |xs|
  {
    if |xs| > 0 {
      var init := xs[..|xs| - 1];
      SortByCorrect(init, key);
      InsertPermutes(xs[|xs| - 1], SortBy(init, key), key);
      InsertSorted(xs[|xs| - 1], SortBy(init, key), key);
      assert xs == init + [xs[|xs| - 1]];
    }
  }

  lemma SortByMembers<T>(xs: seq<T>, key: T -> string)
    ensures forall x :: x in SortBy(xs, key) <==> x in xs
  {
    SortByCorrect(xs, key);
    forall x ensures x in SortBy(xs, key) <==> x in xs {
      assert x in SortBy(xs, key) <==> x in multiset(SortBy(xs, key));
      assert x in xs <==> x in multiset(xs);
    }
  }

  lemma SortByLength<T>(xs: seq<T>, key: T -> string)
    ensures |SortBy(xs, key)| == |xs|
  {
    SortByCorrect(xs, key);
    assert |multiset(SortBy(xs, key))| == |multiset(xs)|;
  }

  lemma SortedHeadsAgree<T>(xs: seq<T>, ys: seq<T>, key: T -> string)
    requires SortedBy(xs, key) && SortedBy(ys, key)
    requires multiset(xs) == multiset(ys) && |xs| > 0
    requires forall a, b :: a in xs && b in xs && key(a) == key(b) ==> a == b
    ensures |ys| > 0 && xs[0] == ys[0]
  {
    assert xs[0] in multiset(ys) && ys[0] in multiset(xs);
    var j :| 0 <= j < |ys| && ys[j] == xs[0];
    var i :| 0 <= i < |xs| && xs[i] == ys[0];
    assert !StrLt(key(xs[i]), key(xs[0])) by {
      if i == 0 {
        StrLtIrreflexive(key(xs[0]));
      }
    }
    assert !StrLt(key(ys[j]), key(ys[0])) by {
      if j == 0 {
        StrLtIrreflexive(key(ys[0]));
      }
    }
    StrLtTotal(key(xs[0]), key(ys[0]));
  }

  lemma TailMultiset<T>(xs: seq<T>)
    requires |xs| > 0
    ensures multiset(xs[1..]) == multiset(xs) - multiset{xs[0]}
  {
    assert xs == [xs[0]] + xs[1..];
  }

  /** Two ascending orders of the same elements agree when no two distinct
      elements share a key. */
  lemma {:induction false} SortedUnique<T>(xs: seq<T>, ys: seq<T>, key: T -> string)
    requires SortedBy(xs, key) && SortedBy(ys, key)
    requires multiset(xs) == multiset(ys)
    requires forall a, b :: a in xs && b in xs && key(a) == key(b) ==> a == b
    ensures xs == ys
    decreases |xs|
  {
    assert |xs| == |multiset(xs)| == |multiset(ys)| == |ys|;
    if |xs| > 0 {
      SortedTails(xs, ys, key);
      SortedUnique(xs[1..], ys[1..], key);
      assert xs == [xs[0]] + xs[1..] && ys == [ys[0]] + ys[1..];
    }
  }

  /** The tails of two such orders are two such orders again. */
  lemma SortedTails<T>(xs: seq<T>, ys: seq<T>, key: T -> string)
    requires SortedBy(xs, key) && SortedBy(ys, key)
    requires multiset(xs) == multiset(ys) && |xs| > 0
    requires forall a, b :: a in xs && b in xs && key(a) == key(b) ==> a == b
    ensures |ys| > 0 && xs[0] == ys[0]
    ensures SortedBy(xs[1..], key) && SortedBy(ys[1..], key)
    ensures multiset(xs[1..]) == multiset(ys[1..])
    ensures forall a, b :: a in xs[1..] && b in xs[1..] && key(a) == key(b) ==> a == b
  {
    SortedHeadsAgree(xs, ys, key);
    TailMultiset(xs);
    TailMultiset(ys);
    forall a, b | a in xs[1..] && b in xs[1..] && key(a) == key(b) ensures a == b {
      assert a in xs && b in xs;
    }
  }

  lemma {:induction false} InsertMap<A, B>(x: A, s: seq<A>, f: A -> B, ka: A -> string, kb: B -> string)
    requires forall a :: ka(a) == kb(f(a))
    ensures MapSeq(f, Insert(x, s, ka)) == Insert(f(x), MapSeq(f, s), kb)
    decreases |s|
  {
    if |s| > 0 {
      assert MapSeq(f, s)[0] == f(s[0]);
      assert MapSeq(f, s)[1..] == MapSeq(f, s[1..]);
      if !StrLt(ka(x), ka(s[0])) {
        InsertMap(x, s[1..], f, ka, kb);
        assert MapSeq(f, [s[0]] + Insert(x, s[1..], ka)) == [f(s[0])] + MapSeq(f, Insert(x, s[1..], ka));
      } else {
        assert MapSeq(f, [x] + s) == [f(x)] + MapSeq(f, s);
      }
    }
  }

  /** Sorting by a key that only looks at a projection commutes with the
      projection. */
  lemma {:induction false} SortByMap<A, B>(xs: seq<A>, f: A -> B, ka: A -> string, kb: B -> string)
    requires forall a :: ka(a) == kb(f(a))
    ensures MapSeq(f, SortBy(xs, ka)) == SortBy(MapSeq(f, xs), kb)
    decreases |xs|
  {
    if |xs| > 0 {
      var init := xs[..|xs| - 1];
      SortByMap(init, f, ka, kb);
      InsertMap(xs[|xs| - 1], SortBy(init, ka), f, ka, kb);
      assert MapSeq(f, xs)[..|xs| - 1] == MapSeq(f, init);
    }
  }
}
