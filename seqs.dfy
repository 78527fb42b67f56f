/** Sequence and map helpers shared by the filtering and evidence modules. */
module Seqs {

  datatype Option<+T> = None | Some(value: T)

  /** The elements of `s` that satisfy `p`, in their original order. */
  function Filter<T>(s: seq<T>, p: T -> bool): (r: seq<T>)
    ensures |r| <= |s|
    ensures forall x :: x in r ==> x in s && p(x)
  {
    if s == [] then []
    else
      var r0 := Filter(s[..|s| - 1], p);
      if p(s[|s| - 1]) then r0 + [s[|s| - 1]] else r0
  }

  /** The predicate "has key `k`", used to name a group of a `GroupBy`. */
  function KeyIs<K(==), T>(key: T -> K, k: K): T -> bool
  {
    x => key(x) == k
  }

  lemma {:induction false} FilterConcat<T>(a: seq<T>, b: seq<T>, p: T -> bool)
    ensures Filter(a + b, p) == Filter(a, p) + Filter(b, p)
  {
    if b == [] {
      assert a + b == a;
    } else {
      assert (a + b)[..|a + b| - 1] == a + b[..|b| - 1];
      FilterConcat(a, b[..|b| - 1], p);
    }
  }

  /** Multiset extensionality, stated where the verifier needs it spelled out. */
  lemma MultisetExt<T>(a: multiset<T>, b: multiset<T>)
    requires forall x :: a[x] == b[x]
    ensures a == b
  {
    assert forall x :: a[x] == b[x];
  }

  lemma SubMultiset<T>(a: multiset<T>, b: multiset<T>)
    requires forall x :: a[x] <= b[x]
    ensures a <= b
  {
    assert forall x :: a[x] <= b[x];
  }

  lemma {:induction false} SubMultisetSize<T>(a: multiset<T>, b: multiset<T>)
    requires a <= b
    ensures |a| <= |b|
    decreases |a|
  {
    if a != multiset{} {
      var x :| x in a;
      SubMultisetSize(a - multiset{x}, b - multiset{x});
    }
  }

  /** Filtering keeps exactly the copies of the elements that satisfy `p`. */
  lemma {:induction false} FilterCount<T>(s: seq<T>, p: T -> bool, x: T)
    ensures multiset(Filter(s, p))[x] == if p(x) then multiset(s)[x] else 0
  {
    if s != [] {
      var init := s[..|s| - 1];
      FilterCount(init, p, x);
      assert s == init + [s[|s| - 1]];
    }
  }

  lemma FilterMember<T>(s: seq<T>, p: T -> bool, x: T)
    ensures x in Filter(s, p) <==> x in s && p(x)
  {
    FilterCount(s, p, x);
  }

  lemma FilterMultiset<T>(s: seq<T>, p: T -> bool)
    ensures forall x :: multiset(Filter(s, p))[x] == if p(x) then multiset(s)[x] else 0
  {
    forall x ensures multiset(Filter(s, p))[x] == if p(x) then multiset(s)[x] else 0 {
      FilterCount(s, p, x);
    }
  }

  lemma {:induction false} FilterAll<T>(s: seq<T>, p: T -> bool)
    requires forall i :: 0 <= i < |s| ==> p(s[i])
    ensures Filter(s, p) == s
  {
    if s != [] {
      FilterAll(s[..|s| - 1], p);
      assert s == s[..|s| - 1] + [s[|s| - 1]];
    }
  }

  lemma {:induction false} FilterNone<T>(s: seq<T>, p: T -> bool)
    requires forall i :: 0 <= i < |s| ==> !p(s[i])
    ensures Filter(s, p) == []
  {
    if s != [] {
      FilterNone(s[..|s| - 1], p);
    }
  }

  /** Non-increasing order of `key`. */
  ghost predicate SortedDesc<T>(s: seq<T>, key: T -> real)
  {
    forall i, j :: 0 <= i < j < |s| ==> key(s[i]) >= key(s[j])
  }

  lemma {:induction false} FilterSorted<T>(s: seq<T>, p: T -> bool, key: T -> real)
    requires SortedDesc(s, key)
    ensures SortedDesc(Filter(s, p), key)
  {
    if s != [] {
      var init := s[..|s| - 1];
      FilterSorted(init, p, key);
      var r0 := Filter(init, p);
      forall x | x in r0 ensures key(x) >= key(s[|s| - 1]) {
        var i :| 0 <= i < |init| && init[i] == x;
      }
    }
  }

  lemma HeadBound<T>(s: seq<T>, key: T -> real)
    requires SortedDesc(s, key) && |s| > 0
    ensures forall y :: y in s[1..] ==> key(y) <= key(s[0])
  {
    forall y | y in s[1..] ensures key(y) <= key(s[0]) {
      var i :| 0 <= i < |s[1..]| && s[1..][i] == y;
      assert s[i + 1] == y;
    }
  }

  lemma ConsSorted<T>(h: T, t: seq<T>, key: T -> real)
    requires SortedDesc(t, key)
    requires forall y :: y in t ==> key(y) <= key(h)
    ensures SortedDesc([h] + t, key)
  {
    forall i, j | 0 <= i < j < |[h] + t| ensures key(([h] + t)[i]) >= key(([h] + t)[j]) {
      assert ([h] + t)[j] == t[j - 1];
      if i > 0 {
        assert ([h] + t)[i] == t[i - 1];
      } else {
        assert t[j - 1] in t;
      }
    }
  }

  /** Inserts `x` after every element whose key is at least its own (a stable insertion). */
  function InsertDesc<T>(x: T, s: seq<T>, key: T -> real): (r: seq<T>)
    requires SortedDesc(s, key)
    ensures SortedDesc(r, key)
    ensures multiset(r) == multiset(s) + multiset{x}
    ensures forall y :: y in r ==> y in s || y == x
  {
    if s == [] then [x]
    else if key(x) > key(s[0]) then
      HeadBound(s, key);
      ConsSorted(x, s, key);
      [x] + s
    else
      assert s == [s[0]] + s[1..];
      var rest := InsertDesc(x, s[1..], key);
      HeadBound(s, key);
      ConsSorted(s[0], rest, key);
      [s[0]] + rest
  }

  /** Sorting by `key`, highest first; the stand-in for the score comparator of the identification lists. */
  function SortByScore<T>(s: seq<T>, key: T -> real): (r: seq<T>)
    ensures SortedDesc(r, key)
    ensures multiset(r) == multiset(s)
    ensures |r| == |s|
  {
    if s == [] then []
    else
      var init := s[..|s| - 1];
      assert s == init + [s[|s| - 1]];
      var r := InsertDesc(s[|s| - 1], SortByScore(init, key), key);
      assert |r| == |multiset(r)|;
      r
  }

  function Get<K, V>(m: map<K, seq<V>>, k: K): seq<V>
  {
    if k in m then m[k] else []
  }

  /** Groups `s` by `key`, each group in input order (appending to a map of lists). */
  function GroupBy<K, T>(s: seq<T>, key: T -> K): map<K, seq<T>>
  {
    if s == [] then map[]
    else
      var m := GroupBy(s[..|s| - 1], key);
      var x := s[|s| - 1];
      m[key(x) := Get(m, key(x)) + [x]]
  }

  /** Each group is the input filtered by its key, and the keys are exactly the keys that occur. */
  lemma {:induction false} GroupByIsFilter<K, T>(s: seq<T>, key: T -> K, k: K)
    ensures Get(GroupBy(s, key), k) == Filter(s, KeyIs(key, k))
    ensures k in GroupBy(s, key) <==> exists i :: 0 <= i < |s| && key(s[i]) == k
    ensures k in GroupBy(s, key) ==> |GroupBy(s, key)[k]| > 0
  {
    if s != [] {
      var init := s[..|s| - 1];
      GroupByIsFilter(init, key, k);
      if key(s[|s| - 1]) == k {
        assert KeyIs(key, k)(s[|s| - 1]);
      } else {
        assert !KeyIs(key, k)(s[|s| - 1]);
        if exists i :: 0 <= i < |s| && key(s[i]) == k {
          var i :| 0 <= i < |s| && key(s[i]) == k;
          assert init[i] == s[i];
        }
      }
    }
  }

  /**
   * All the entries of a map of lists, each list passed through `sel`, as one multiset (the order
   * in which a loop over the map visits its keys is not fixed, so only the multiset is).
   */
  ghost function Pool<K, T>(m: map<K, seq<T>>, sel: seq<T> -> seq<T>): multiset<T>
    decreases |m|
  {
    if forall k :: k !in m then multiset{}
    else
      var k :| k in m;
      multiset(sel(m[k])) + Pool(m - {k}, sel)
  }

  /** Whichever key a loop visits first, the rest of the pool is the pool of the rest of the map. */
  lemma {:induction false} PoolAnyKey<K, T>(m: map<K, seq<T>>, sel: seq<T> -> seq<T>, k: K)
    requires k in m
    ensures Pool(m, sel) == multiset(sel(m[k])) + Pool(m - {k}, sel)
    decreases |m|
  {
    var k0 :| k0 in m && Pool(m, sel) == multiset(sel(m[k0])) + Pool(m - {k0}, sel);
    if k0 != k {
      var m0, mk := m - {k0}, m - {k};
      PoolAnyKey(m0, sel, k);
      PoolAnyKey(mk, sel, k0);
      assert m0 - {k} == mk - {k0} by {
        assert forall j :: j in m0 - {k} <==> j in mk - {k0};
      }
    }
  }

  lemma PoolEmpty<K, T>(m: map<K, seq<T>>, sel: seq<T> -> seq<T>)
    requires forall k :: k !in m
    ensures Pool(m, sel) == multiset{}
  {
  }

  lemma {:induction false} PoolHas<K, T>(m: map<K, seq<T>>, sel: seq<T> -> seq<T>, x: T)
    ensures x in Pool(m, sel) <==> exists k :: k in m && x in sel(m[k])
    decreases |m|
  {
    if exists k :: k in m {
      var k :| k in m;
      PoolAnyKey(m, sel, k);
      PoolHas(m - {k}, sel, x);
      if exists j :: j in m && x in sel(m[j]) {
        var j :| j in m && x in sel(m[j]);
        if j != k {
          assert j in m - {k};
        }
      }
    }
  }

  /**
   * When `sel` takes at most one entry from each list, and every entry it takes from `m[k]` has
   * key `k`, no value is pooled twice.
   */
  lemma {:induction false} PoolOnePerKey<K, T>(m: map<K, seq<T>>, sel: seq<T> -> seq<T>, key: T -> K, x: T)
    requires forall k :: k in m ==> |sel(m[k])| <= 1 && forall y :: y in sel(m[k]) ==> key(y) == k
    ensures Pool(m, sel)[x] <= 1
    decreases |m|
  {
    if forall k :: k !in m {
      PoolEmpty(m, sel);
    } else {
      var k :| k in m;
      var rest := m - {k};
      PoolAnyKey(m, sel, k);
      PoolOnePerKey(rest, sel, key, x);
      var s := sel(m[k]);
      if x in s {
        assert forall j :: j in rest ==> x !in sel(rest[j]);
        PoolHas(rest, sel, x);
        assert s == [s[0]];
      }
    }
  }

  /** Pooling every whole group of a grouping gives back the grouped list, as a multiset. */
  lemma {:induction false} PoolGroupBy<K, T>(s: seq<T>, key: T -> K, sel: seq<T> -> seq<T>)
    requires forall t :: sel(t) == t
    ensures Pool(GroupBy(s, key), sel) == multiset(s)
  {
    if s != [] {
      var init, x := s[..|s| - 1], s[|s| - 1];
      assert s == init + [x];
      PoolGroupBy(init, key, sel);
      PoolGroupBySnoc(init, x, key, sel);
      calc {
        Pool(GroupBy(s, key), sel);
        Pool(GroupBy(init, key), sel) + multiset{x};
        multiset(init) + multiset{x};
        multiset(s);
      }
    }
  }

  lemma PoolGroupBySnoc<K, T>(init: seq<T>, x: T, key: T -> K, sel: seq<T> -> seq<T>)
    requires forall t :: sel(t) == t
    ensures Pool(GroupBy(init + [x], key), sel) == Pool(GroupBy(init, key), sel) + multiset{x}
  {
    var s := init + [x];
    assert s[..|s| - 1] == init;
    var m0, m, k := GroupBy(init, key), GroupBy(s, key), key(x);
    assert m == m0[k := Get(m0, k) + [x]];
    var rest := m0 - {k};
    PoolAnyKey(m, sel, k);
    assert m - {k} == rest by {
      assert forall j :: j in m - {k} <==> j in rest;
      assert forall j :: j in rest ==> (m - {k})[j] == rest[j];
    }
    assert sel(m[k]) == Get(m0, k) + [x];
    PoolRest(m0, k, sel);
  }

  lemma PoolRest<K, T>(m: map<K, seq<T>>, k: K, sel: seq<T> -> seq<T>)
    requires forall t :: sel(t) == t
    ensures Pool(m, sel) == multiset(Get(m, k)) + Pool(m - {k}, sel)
  {
    if k in m {
      PoolAnyKey(m, sel, k);
      assert sel(m[k]) == Get(m, k);
    } else {
      assert m - {k} == m by {
        assert forall j :: j in m - {k} <==> j in m;
      }
    }
  }

  /** A map of values seen as a map of one-element lists, so that `Pool` collects its values. */
  function Singletons<K, V>(m: map<K, V>): map<K, seq<V>>
  {
    map k | k in m :: [m[k]]
  }

  lemma SingletonsRemove<K, V>(m: map<K, V>, k: K)
    ensures Singletons(m - {k}) == Singletons(m) - {k}
  {
    assert forall j :: j in Singletons(m - {k}) <==> j in Singletons(m) - {k};
  }

  /** The values of a map whose keys are determined by their values each occur once in its pool. */
  lemma {:induction false} SingletonPool<K, V>(m: map<K, V>, sel: seq<V> -> seq<V>, x: V)
    requires forall t :: sel(t) == t
    requires forall j, k :: j in m && k in m && m[j] == m[k] ==> j == k
    ensures Pool(Singletons(m), sel)[x] == if exists k :: k in m && m[k] == x then 1 else 0
    decreases |m|
  {
    if forall k :: k !in m {
      assert forall k :: k !in Singletons(m);
      PoolEmpty(Singletons(m), sel);
    } else {
      var k :| k in m;
      PoolAnyKey(Singletons(m), sel, k);
      SingletonsRemove(m, k);
      SingletonPool(m - {k}, sel, x);
      assert sel(Singletons(m)[k]) == [m[k]];
      if exists j :: j in m - {k} && (m - {k})[j] == x {
        var j :| j in m - {k} && (m - {k})[j] == x;
        assert m[k] != x;
      }
      if exists j :: j in m && m[j] == x {
        var j :| j in m && m[j] == x;
        if j != k {
          assert j in m - {k};
        }
      }
    }
  }
}
