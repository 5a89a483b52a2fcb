/** Sequences of values filed under a string key, the way the song listing uses a
    Python `dict` keyed by a lower-cased name and `sorted(..., key=...)`. The key
    is a parameter, so that nothing here depends on how it is computed. */
module Keyed {

  /** The keys of the values in `xs`. */
  function KeysOf<T(==)>(key: T -> string, xs: seq<T>): set<string> {
    set x | x in xs :: key(x)
  }

  /** No two values share a key. */
  predicate DistinctKeys<T>(key: T -> string, xs: seq<T>) {
    forall i, j | 0 <= i < j < |xs| :: key(xs[i]) != key(xs[j])
  }

  lemma KeysOfSnoc<T>(key: T -> string, xs: seq<T>, x: T)
    ensures KeysOf(key, xs + [x]) == KeysOf(key, xs) + {key(x)}
  {
    var ys := xs + [x];
    forall k | k in KeysOf(key, ys) ensures k in KeysOf(key, xs) + {key(x)} {
      var y :| y in ys && key(y) == k;
    }
    forall k | k in KeysOf(key, xs) ensures k in KeysOf(key, ys) {
      var y :| y in xs && key(y) == k;
      assert y in ys;
    }
    assert x in ys;
  }

  lemma KeysOfAppend<T>(key: T -> string, xs: seq<T>, ys: seq<T>)
    ensures KeysOf(key, xs + ys) == KeysOf(key, xs) + KeysOf(key, ys)
  {
    forall k | k in KeysOf(key, xs + ys) ensures k in KeysOf(key, xs) + KeysOf(key, ys) {
      var z :| z in xs + ys && key(z) == k;
    }
    forall k | k in KeysOf(key, xs) + KeysOf(key, ys) ensures k in KeysOf(key, xs + ys) {
      if k in KeysOf(key, xs) {
        var z :| z in xs && key(z) == k;
        assert z in xs + ys;
      } else {
        var z :| z in ys && key(z) == k;
        assert z in xs + ys;
      }
    }
  }

  lemma MultisetKeys<T>(key: T -> string, xs: seq<T>, ys: seq<T>)
    requires multiset(xs) == multiset(ys)
    ensures KeysOf(key, xs) == KeysOf(key, ys)
  {
    forall k | k in KeysOf(key, xs) ensures k in KeysOf(key, ys) {
      var x :| x in xs && key(x) == k;
      assert x in multiset(ys);
    }
    forall k | k in KeysOf(key, ys) ensures k in KeysOf(key, xs) {
      var y :| y in ys && key(y) == k;
      assert y in multiset(xs);
    }
  }

  // ---------- a dictionary that keeps the first value per key ----------

  /** The values of a dictionary, in insertion order, once `xs` has been offered
      to it with `found` already in it: a value goes in only when its key is new. */
  function Dedup<T(==)>(key: T -> string, found: seq<T>, xs: seq<T>): seq<T> {
    if xs == [] then found
    else
      var n := |xs| - 1;
      var m := Dedup(key, found, xs[..n]);
      if key(xs[n]) in KeysOf(key, m) then m else m + [xs[n]]
  }

  lemma DedupSnoc<T>(key: T -> string, found: seq<T>, xs: seq<T>, x: T)
    ensures Dedup(key, found, xs + [x])
      == if key(x) in KeysOf(key, Dedup(key, found, xs)) then Dedup(key, found, xs) else Dedup(key, found, xs) + [x]
  {
    assert (xs + [x])[..|xs|] == xs;
  }

  lemma {:induction false} DedupAppend<T>(key: T -> string, found: seq<T>, a: seq<T>, b: seq<T>)
    ensures Dedup(key, found, a + b) == Dedup(key, Dedup(key, found, a), b)
    decreases |b|
  {
    if b == [] {
      assert a + b == a;
    } else {
      var n := |b| - 1;
      assert (a + b)[..|a + b| - 1] == a + b[..n];
      DedupAppend(key, found, a, b[..n]);
    }
  }

  /** The keys in the dictionary are those it started with and those offered to it. */
  lemma {:induction false} DedupKeys<T>(key: T -> string, found: seq<T>, xs: seq<T>)
    ensures KeysOf(key, Dedup(key, found, xs)) == KeysOf(key, found) + KeysOf(key, xs)
  {
    if xs != [] {
      var n := |xs| - 1;
      DedupKeys(key, found, xs[..n]);
      KeysOfSnoc(key, Dedup(key, found, xs[..n]), xs[n]);
      KeysOfSnoc(key, xs[..n], xs[n]);
      assert xs[..n] + [xs[n]] == xs;
    }
  }

  /** The dictionary only grows, and what it gains was offered under a key it lacked. */
  lemma {:induction false} DedupExtends<T>(key: T -> string, found: seq<T>, xs: seq<T>)
    ensures var r := Dedup(key, found, xs);
      found <= r && forall i | |found| <= i < |r| :: r[i] in xs && key(r[i]) !in KeysOf(key, found)
  {
    if xs != [] {
      var n := |xs| - 1;
      DedupExtends(key, found, xs[..n]);
      var m := Dedup(key, found, xs[..n]);
      var r := Dedup(key, found, xs);
      if r != m {
        DedupKeys(key, found, xs[..n]);
        forall i | |found| <= i < |r|
          ensures r[i] in xs && key(r[i]) !in KeysOf(key, found)
        {
          if i < |m| {
            assert r[i] == m[i] && m[i] in xs[..n];
          } else {
            assert r[i] == xs[n];
          }
        }
      }
    }
  }

  /** No two values of the dictionary share a key. */
  lemma {:induction false} DedupDistinct<T>(key: T -> string, found: seq<T>, xs: seq<T>)
    requires DistinctKeys(key, found)
    ensures DistinctKeys(key, Dedup(key, found, xs))
  {
    if xs != [] {
      var n := |xs| - 1;
      DedupDistinct(key, found, xs[..n]);
      var m := Dedup(key, found, xs[..n]);
      var r := Dedup(key, found, xs);
      if r != m {
        forall i, j | 0 <= i < j < |r|
          ensures key(r[i]) != key(r[j])
        {
          if j == |m| {
            assert r[i] == m[i] && m[i] in m;
          } else {
            assert r[i] == m[i] && r[j] == m[j];
          }
        }
      }
    }
  }

  /** A key already in the dictionary keeps its first value. */
  lemma DedupOld<T>(key: T -> string, found: seq<T>, xs: seq<T>, x: T)
    requires x in Dedup(key, found, xs) && key(x) in KeysOf(key, found)
    ensures x in found
  {
    DedupExtends(key, found, xs);
    var r := Dedup(key, found, xs);
    var i :| 0 <= i < |r| && r[i] == x;
    if i < |found| {
      assert r[i] == found[i];
    }
  }

  // ---------- sorting by key ----------

  /** Python's `<` on strings: code point by code point, a proper prefix first. */
  predicate StrLess(a: string, b: string)
    decreases |a|
  {
    b != [] && (a == [] || a[0] < b[0] || (a[0] == b[0] && StrLess(a[1..], b[1..])))
  }

  lemma {:induction false} StrLessIrreflexive(a: string)
    ensures !StrLess(a, a)
    decreases |a|
  {
    if a != [] {
      StrLessIrreflexive(a[1..]);
    }
  }

  lemma {:induction false} StrLessTotal(a: string, b: string)
    requires a != b
    ensures StrLess(a, b) || StrLess(b, a)
    decreases |a|
  {
    if a != [] && b != [] && a[0] == b[0] {
      assert a == [a[0]] + a[1..] && b == [b[0]] + b[1..];
      StrLessTotal(a[1..], b[1..]);
    }
  }

  lemma {:induction false} StrLessTrans(a: string, b: string, c: string)
    requires StrLess(a, b) && StrLess(b, c)
    ensures StrLess(a, c)
    decreases |a|
  {
    if a != [] && a[0] == b[0] && b[0] == c[0] {
      StrLessTrans(a[1..], b[1..], c[1..]);
    }
  }

  /** `sorted` inserts each value after every value whose key is not greater:
      the sort is stable. */
  function InsertByKey<T>(key: T -> string, x: T, xs: seq<T>): (r: seq<T>)
    ensures multiset(r) == multiset(xs) + multiset{x}
  {
    if xs == [] then [x]
    else if !StrLess(key(x), key(xs[0])) then
      assert xs == [xs[0]] + xs[1..];
      [xs[0]] + InsertByKey(key, x, xs[1..])
    else [x] + xs
  }

  /** `sorted(xs, key=key)`. */
  function SortByKey<T>(key: T -> string, xs: seq<T>): (r: seq<T>)
    ensures multiset(r) == multiset(xs)
  {
    if xs == [] then []
    else
      var n := |xs| - 1;
      assert xs == xs[..n] + [xs[n]];
      InsertByKey(key, xs[n], SortByKey(key, xs[..n]))
  }

  /** Strictly increasing keys. */
  predicate SortedByKey<T>(key: T -> string, xs: seq<T>) {
    forall i, j | 0 <= i < j < |xs| :: StrLess(key(xs[i]), key(xs[j]))
  }

  /** Every value of `ys` sorts strictly after the key `k`. */
  predicate AllAbove<T>(key: T -> string, k: string, ys: seq<T>) {
    forall j | 0 <= j < |ys| :: StrLess(k, key(ys[j]))
  }

  lemma InsertAbove<T>(key: T -> string, k: string, x: T, xs: seq<T>)
    requires AllAbove(key, k, xs) && StrLess(k, key(x))
    ensures AllAbove(key, k, InsertByKey(key, x, xs))
  {
    var r := InsertByKey(key, x, xs);
    forall j | 0 <= j < |r|
      ensures StrLess(k, key(r[j]))
    {
      assert r[j] in multiset(r);
      if r[j] != x {
        var i :| 0 <= i < |xs| && xs[i] == r[j];
      }
    }
  }

  lemma SortedCons<T>(key: T -> string, x: T, ys: seq<T>)
    ensures SortedByKey(key, [x] + ys) <==> AllAbove(key, key(x), ys) && SortedByKey(key, ys)
  {
    var s := [x] + ys;
    if AllAbove(key, key(x), ys) && SortedByKey(key, ys) {
      forall i, j | 0 <= i < j < |s|
        ensures StrLess(key(s[i]), key(s[j]))
      {
        assert s[j] == ys[j - 1];
        if i > 0 {
          assert s[i] == ys[i - 1];
        }
      }
    }
    if SortedByKey(key, s) {
      assert s[0] == x;
      forall j | 0 <= j < |ys|
        ensures StrLess(key(x), key(ys[j]))
      {
        assert s[j + 1] == ys[j];
      }
      forall i, j | 0 <= i < j < |ys|
        ensures StrLess(key(ys[i]), key(ys[j]))
      {
        assert s[i + 1] == ys[i] && s[j + 1] == ys[j];
      }
    }
  }

  lemma AboveHead<T>(key: T -> string, k: string, xs: seq<T>)
    requires SortedByKey(key, xs) && xs != [] && StrLess(k, key(xs[0]))
    ensures AllAbove(key, k, xs)
  {
    forall j | 0 < j < |xs|
      ensures StrLess(k, key(xs[j]))
    {
      StrLessTrans(k, key(xs[0]), key(xs[j]));
    }
  }

  lemma {:induction false} InsertKeepsSorted<T>(key: T -> string, x: T, xs: seq<T>)
    requires SortedByKey(key, xs) && key(x) !in KeysOf(key, xs)
    ensures SortedByKey(key, InsertByKey(key, x, xs))
    decreases |xs|
  {
    if xs != [] {
      var y := xs[0];
      var tail := xs[1..];
      assert xs == [y] + tail;
      SortedCons(key, y, tail);
      assert y in xs;
      if !StrLess(key(x), key(y)) {
        StrLessTotal(key(x), key(y));
        assert KeysOf(key, tail) <= KeysOf(key, xs) by {
          forall k | k in KeysOf(key, tail) ensures k in KeysOf(key, xs) {
            var z :| z in tail && key(z) == k;
            assert z in xs;
          }
        }
        InsertKeepsSorted(key, x, tail);
        InsertAbove(key, key(y), x, tail);
        SortedCons(key, y, InsertByKey(key, x, tail));
      } else {
        AboveHead(key, key(x), xs);
        SortedCons(key, x, xs);
      }
    }
  }

  /** Sorting values with distinct keys orders them strictly by key. */
  lemma {:induction false} SortByKeySorted<T>(key: T -> string, xs: seq<T>)
    requires DistinctKeys(key, xs)
    ensures SortedByKey(key, SortByKey(key, xs))
  {
    if xs != [] {
      var n := |xs| - 1;
      var init := xs[..n];
      assert DistinctKeys(key, init) by {
        forall i, j | 0 <= i < j < |init| ensures key(init[i]) != key(init[j]) {
          assert init[i] == xs[i] && init[j] == xs[j];
        }
      }
      SortByKeySorted(key, init);
      MultisetKeys(key, SortByKey(key, init), init);
      assert key(xs[n]) !in KeysOf(key, init) by {
        forall z | z in init ensures key(z) != key(xs[n]) {
          var i :| 0 <= i < n && init[i] == z;
          assert init[i] == xs[i];
        }
      }
      InsertKeepsSorted(key, xs[n], SortByKey(key, init));
    }
  }
}
