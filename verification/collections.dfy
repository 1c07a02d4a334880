/**
 * Sequence and map helpers shared by the services: order-preserving filtering
 * (Java's stream `filter` and `removeIf`), sums over the values of an id-keyed
 * store, and the stable descending sort behind `Stream.sorted`.
 */
module Collections {

  /** `sub` is obtained from `xs` by deleting elements; the survivors keep their order. */
  ghost predicate IsSubsequence<T>(sub: seq<T>, xs: seq<T>)
    decreases |xs|
  {
    if |sub| == 0 then true
    else if |xs| == 0 then false
    else if sub[0] == xs[0] then IsSubsequence(sub[1..], xs[1..])
    else IsSubsequence(sub, xs[1..])
  }

  /** A subsequence of the tail is a subsequence of the whole. */
  lemma {:induction false} SubsequenceOfTail<T>(sub: seq<T>, xs: seq<T>)
    requires |xs| > 0 && IsSubsequence(sub, xs[1..])
    ensures IsSubsequence(sub, xs)
    decreases |xs|, 0
  {
    if |sub| > 0 && sub[0] == xs[0] {
      SubsequenceDropHead(sub, xs[1..]);
    }
  }

  /** Dropping the first element keeps a subsequence a subsequence. */
  lemma {:induction false} SubsequenceDropHead<T>(sub: seq<T>, xs: seq<T>)
    requires |sub| > 0 && IsSubsequence(sub, xs)
    ensures IsSubsequence(sub[1..], xs)
    decreases |xs|, 1
  {
    if sub[0] == xs[0] {
      SubsequenceOfTail(sub[1..], xs);
    } else {
      SubsequenceDropHead(sub, xs[1..]);
      SubsequenceOfTail(sub[1..], xs);
    }
  }

  /** Deleting elements twice is deleting elements once. */
  lemma {:induction false} SubsequenceTransitive<T>(a: seq<T>, b: seq<T>, c: seq<T>)
    requires IsSubsequence(a, b) && IsSubsequence(b, c)
    ensures IsSubsequence(a, c)
    decreases |c|
  {
    if |a| > 0 {
      if b[0] == c[0] {
        if a[0] == b[0] {
          SubsequenceTransitive(a[1..], b[1..], c[1..]);
        } else {
          SubsequenceTransitive(a, b[1..], c[1..]);
          SubsequenceOfTail(a, c);
        }
      } else {
        SubsequenceTransitive(a, b, c[1..]);
        SubsequenceOfTail(a, c);
      }
    }
  }

  /** Every sequence is a subsequence of itself. */
  lemma {:induction false} SubsequenceReflexive<T>(xs: seq<T>)
    ensures IsSubsequence(xs, xs)
    decreases |xs|
  {
    if |xs| > 0 {
      SubsequenceReflexive(xs[1..]);
    }
  }

  /** In a duplicate-free sequence every element occurs exactly once. */
  lemma {:induction false} DistinctCountsOnce<T>(xs: seq<T>, x: T)
    requires forall i, j :: 0 <= i < j < |xs| ==> xs[i] != xs[j]
    ensures multiset(xs)[x] == if x in xs then 1 else 0
    decreases |xs|
  {
    if |xs| > 0 {
      assert xs == [xs[0]] + xs[1..];
      DistinctCountsOnce(xs[1..], x);
      assert xs[0] !in xs[1..];
    }
  }

  /** The elements of `xs` that satisfy `p`, in their original order and multiplicity. */
  function Filter<T(!new)>(xs: seq<T>, p: T -> bool): (r: seq<T>)
    ensures forall i :: 0 <= i < |r| ==> p(r[i])
    ensures forall x :: x in r <==> x in xs && p(x)
    ensures IsSubsequence(r, xs)
  {
    if |xs| == 0 then []
    else
      assert xs == [xs[0]] + xs[1..];
      var rest := Filter(xs[1..], p);
      if p(xs[0]) then
        assert ([xs[0]] + rest)[1..] == rest;
        [xs[0]] + rest
      else rest
  }

  /** Filtering a concatenation filters each part. */
  lemma {:induction false} FilterAppend<T(!new)>(a: seq<T>, b: seq<T>, p: T -> bool)
    ensures Filter(a + b, p) == Filter(a, p) + Filter(b, p)
    decreases |a|
  {
    if |a| == 0 {
      assert a + b == b;
    } else {
      assert (a + b)[1..] == a[1..] + b;
      FilterAppend(a[1..], b, p);
    }
  }

  // ---------------------------------------------------------------------------
  // Sums over the values of an id-keyed store

  /** Some element of a non-empty set: the fixed choice `SumBy` recurses on. */
  ghost function Pick<K>(keys: set<K>): (k: K)
    requires keys != {}
    ensures k in keys
  {
    var k :| k in keys; k
  }

  /** The sum of `f` over all values of `m`. */
  ghost function SumBy<K, V>(m: map<K, V>, f: V -> int): int
    decreases |m|
  {
    if |m| == 0 then 0
    else
      var k := Pick(m.Keys);
      f(m[k]) + SumBy(m - {k}, f)
  }

  /** Any key, not only the one `SumBy` picks, can be split off the sum. */
  lemma {:induction false} SumByRemove<K, V>(m: map<K, V>, k: K, f: V -> int)
    requires k in m
    ensures SumBy(m, f) == f(m[k]) + SumBy(m - {k}, f)
    decreases |m|
  {
    var j := Pick(m.Keys);
    assert SumBy(m, f) == f(m[j]) + SumBy(m - {j}, f);
    if j != k {
      var mj, mk := m - {j}, m - {k};
      assert k in mj && j in mk;
      SumByRemove(mj, k, f);
      SumByRemove(mk, j, f);
      assert mj - {k} == mk - {j};
    }
  }

  /** Replacing one value changes the sum by exactly the difference. */
  lemma SumByUpdate<K, V>(m: map<K, V>, k: K, v: V, f: V -> int)
    requires k in m
    ensures SumBy(m[k := v], f) == SumBy(m, f) - f(m[k]) + f(v)
  {
    SumByRemove(m, k, f);
    SumByRemove(m[k := v], k, f);
    assert m[k := v] - {k} == m - {k};
  }

  /** Adding a fresh key adds its value to the sum. */
  lemma SumByInsert<K, V>(m: map<K, V>, k: K, v: V, f: V -> int)
    requires k !in m
    ensures SumBy(m[k := v], f) == SumBy(m, f) + f(v)
  {
    SumByRemove(m[k := v], k, f);
    assert m[k := v] - {k} == m;
  }

  // ---------------------------------------------------------------------------
  // Stable descending sort (`sorted(comparing(key, reverseOrder()))`)

  /** Keys never increase along `xs`. */
  ghost predicate SortedDesc<T>(xs: seq<T>, key: T -> int) {
    forall i, j :: 0 <= i < j < |xs| ==> key(xs[i]) >= key(xs[j])
  }

  /** `limit(n)`: the first `n` elements, or all of them when there are fewer. */
  function Take<T>(xs: seq<T>, n: nat): (r: seq<T>)
    ensures |r| <= n && |r| <= |xs|
    ensures forall i :: 0 <= i < |r| ==> r[i] == xs[i]
    ensures |xs| >= n ==> |r| == n
  {
    if |xs| <= n then xs else xs[..n]
  }

  /** The first `n` of a descending sequence hold the largest keys: whatever is left out is not larger. */
  lemma TakeOfSortedDesc<T>(xs: seq<T>, key: T -> int, n: nat)
    requires SortedDesc(xs, key)
    ensures SortedDesc(Take(xs, n), key)
    ensures forall x :: x in xs && x !in Take(xs, n) ==>
      |Take(xs, n)| == n && forall i :: 0 <= i < n ==> key(Take(xs, n)[i]) >= key(x)
  {
    var top := Take(xs, n);
    forall x | x in xs && x !in top
      ensures |top| == n && forall i :: 0 <= i < n ==> key(top[i]) >= key(x)
    {
      var j :| 0 <= j < |xs| && xs[j] == x;
      assert j >= |top|;
    }
  }

  /** The elements of `xs` whose key is `k`, in order. */
  function KeepKey<T>(xs: seq<T>, key: T -> int, k: int): seq<T> {
    if |xs| == 0 then []
    else (if key(xs[0]) == k then [xs[0]] else []) + KeepKey(xs[1..], key, k)
  }

  lemma {:induction false} KeepKeyAppend<T>(a: seq<T>, b: seq<T>, key: T -> int, k: int)
    ensures KeepKey(a + b, key, k) == KeepKey(a, key, k) + KeepKey(b, key, k)
    decreases |a|
  {
    if |a| == 0 {
      assert a + b == b;
    } else {
      var head := if key(a[0]) == k then [a[0]] else [];
      assert (a + b)[0] == a[0] && (a + b)[1..] == a[1..] + b;
      assert KeepKey(a + b, key, k) == head + KeepKey(a[1..] + b, key, k);
      KeepKeyAppend(a[1..], b, key, k);
    }
  }

  /** Putting an element no smaller than everything in front of a descending sequence keeps it descending. */
  lemma ConsSortedDesc<T>(h: T, rest: seq<T>, key: T -> int)
    requires SortedDesc(rest, key)
    requires forall y :: y in rest ==> key(y) <= key(h)
    ensures SortedDesc([h] + rest, key)
  {
    var r := [h] + rest;
    forall i, j | 0 <= i < j < |r| ensures key(r[i]) >= key(r[j]) {
      assert r[j] == rest[j - 1];
      if i > 0 {
        assert r[i] == rest[i - 1];
      }
    }
  }

  /** Places `x` after every element whose key is at least `key(x)`. */
  function Insert<T(!new)>(s: seq<T>, x: T, key: T -> int): (r: seq<T>)
    requires SortedDesc(s, key)
    ensures multiset(r) == multiset(s) + multiset{x}
    ensures SortedDesc(r, key)
  {
    if |s| == 0 then [x]
    else if key(s[0]) >= key(x) then
      var rest := Insert(s[1..], x, key);
      InsertBounded(s, x, rest, key);
      ConsSortedDesc(s[0], rest, key);
      assert s == [s[0]] + s[1..];
      [s[0]] + rest
    else
      assert forall y :: y in s ==> key(y) <= key(s[0]);
      ConsSortedDesc(x, s, key);
      [x] + s
  }

  /** What is inserted behind the head of a descending sequence stays below the head. */
  lemma InsertBounded<T>(s: seq<T>, x: T, rest: seq<T>, key: T -> int)
    requires SortedDesc(s, key) && |s| > 0 && key(s[0]) >= key(x)
    requires multiset(rest) == multiset(s[1..]) + multiset{x}
    ensures forall y :: y in rest ==> key(y) <= key(s[0])
  {
    forall y | y in rest ensures key(y) <= key(s[0]) {
      assert y in multiset(rest);
      if y != x {
        assert y in multiset(s[1..]);
        var i :| 0 <= i < |s[1..]| && s[1..][i] == y;
        assert s[i + 1] == y;
      }
    }
  }

  /** Sequences with the same multiset have the same members. */
  lemma SameMembers<T>(a: seq<T>, b: seq<T>)
    requires multiset(a) == multiset(b)
    ensures forall y :: y in a <==> y in b
  {
    forall y ensures y in a <==> y in b {
      assert y in a <==> y in multiset(a);
      assert y in b <==> y in multiset(b);
    }
  }

  /** Sorts by non-increasing key; equal keys keep their input order. */
  function SortDesc<T(!new)>(xs: seq<T>, key: T -> int): (r: seq<T>)
    ensures multiset(r) == multiset(xs)
    ensures SortedDesc(r, key)
  {
    if |xs| == 0 then []
    else
      assert xs == xs[..|xs| - 1] + [xs[|xs| - 1]];
      Insert(SortDesc(xs[..|xs| - 1], key), xs[|xs| - 1], key)
  }

  /** Inserting adds `x` at the end of its own key's run and leaves every other run alone. */
  lemma {:induction false} InsertStable<T(!new)>(s: seq<T>, x: T, key: T -> int, k: int)
    requires SortedDesc(s, key)
    ensures KeepKey(Insert(s, x, key), key, k)
         == KeepKey(s, key, k) + (if key(x) == k then [x] else [])
    decreases |s|
  {
    var tail := if key(x) == k then [x] else [];
    if |s| == 0 {
      assert Insert(s, x, key) == [x];
      assert KeepKey([x], key, k) == tail + KeepKey([], key, k);
    } else if key(s[0]) >= key(x) {
      var rest := Insert(s[1..], x, key);
      assert Insert(s, x, key) == [s[0]] + rest;
      var head := if key(s[0]) == k then [s[0]] else [];
      assert KeepKey([s[0]] + rest, key, k) == head + KeepKey(rest, key, k) by {
        assert ([s[0]] + rest)[1..] == rest;
      }
      InsertStable(s[1..], x, key, k);
      assert KeepKey(s, key, k) == head + KeepKey(s[1..], key, k);
    } else {
      assert Insert(s, x, key) == [x] + s;
      PrependStable(s, x, key, k);
    }
  }

  /** Putting `x` in front of a sequence whose keys are all below `key(x)` appends it to its own run. */
  lemma PrependStable<T>(s: seq<T>, x: T, key: T -> int, k: int)
    requires SortedDesc(s, key)
    requires |s| > 0 && key(s[0]) < key(x)
    ensures KeepKey([x] + s, key, k) == KeepKey(s, key, k) + (if key(x) == k then [x] else [])
  {
    assert KeepKey([x] + s, key, k) == (if key(x) == k then [x] else []) + KeepKey(s, key, k) by {
      assert ([x] + s)[1..] == s;
    }
    if key(x) == k {
      NoLowerKeys(s, key, k);
    }
  }

  /** In a descending sequence that starts below `k`, no element has key `k`. */
  lemma {:induction false} NoLowerKeys<T>(s: seq<T>, key: T -> int, k: int)
    requires SortedDesc(s, key)
    requires |s| > 0 && key(s[0]) < k
    ensures KeepKey(s, key, k) == []
    decreases |s|
  {
    if |s| > 1 {
      NoLowerKeys(s[1..], key, k);
    }
  }

  /** Appending one element extends its own key's run by it. */
  lemma KeepKeySnoc<T>(xs: seq<T>, key: T -> int, k: int)
    requires |xs| > 0
    ensures KeepKey(xs, key, k)
         == KeepKey(xs[..|xs| - 1], key, k) + (if key(xs[|xs| - 1]) == k then [xs[|xs| - 1]] else [])
  {
    var init, last := xs[..|xs| - 1], xs[|xs| - 1];
    assert xs == init + [last];
    KeepKeyAppend(init, [last], key, k);
    assert KeepKey([last], key, k) == (if key(last) == k then [last] else []) + KeepKey([], key, k);
  }

  /** Stability: for every key, the elements carrying it appear in the sorted output in input order. */
  lemma {:induction false} SortDescStable<T(!new)>(xs: seq<T>, key: T -> int, k: int)
    ensures KeepKey(SortDesc(xs, key), key, k) == KeepKey(xs, key, k)
    decreases |xs|
  {
    if |xs| > 0 {
      var init, last := xs[..|xs| - 1], xs[|xs| - 1];
      var tail := if key(last) == k then [last] else [];
      SortDescStable(init, key, k);
      InsertStable(SortDesc(init, key), last, key, k);
      KeepKeySnoc(xs, key, k);
    }
  }
}
