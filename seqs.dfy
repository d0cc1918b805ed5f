/** Sequence helpers for JavaScript's `Array.prototype.filter` and the stable
    `Array.prototype.sort` with a numeric "descending by key" comparator. */
module Seqs {

  /** `s.filter(p)`: the elements satisfying `p`, in their original order. */
  function Filter<T(!new)>(s: seq<T>, p: T -> bool): (r: seq<T>)
    ensures |r| <= |s|
    ensures forall x :: x in r <==> x in s && p(x)
  {
    if s == [] then []
    else
      assert s == [s[0]] + s[1..];
      var rest := Filter(s[1..], p);
      if p(s[0]) then [s[0]] + rest else rest
  }

  /** A filter keeps every occurrence of a kept value and none of the others. */
  lemma {:induction false} FilterMultiplicity<T(!new)>(s: seq<T>, p: T -> bool)
    ensures forall x :: multiset(Filter(s, p))[x] == if p(x) then multiset(s)[x] else 0
  {
    if s != [] {
      assert s == [s[0]] + s[1..];
      FilterMultiplicity(s[1..], p);
    }
  }

  /** Filtering by a predicate that holds everywhere returns the input. */
  lemma {:induction false} FilterAll<T(!new)>(s: seq<T>, p: T -> bool)
    requires forall x :: x in s ==> p(x)
    ensures Filter(s, p) == s
  {
    if s != [] {
      FilterAll(s[1..], p);
    }
  }

  /** Filtering distributes over concatenation. */
  lemma {:induction false} FilterAppend<T(!new)>(a: seq<T>, b: seq<T>, p: T -> bool)
    ensures Filter(a + b, p) == Filter(a, p) + Filter(b, p)
  {
    if a == [] {
      assert a + b == b;
    } else {
      var ab := a + b;
      assert ab[0] == a[0] && ab[1..] == a[1..] + b;
      FilterAppend(a[1..], b, p);
      assert Filter(ab, p) == (if p(a[0]) then [a[0]] else []) + Filter(ab[1..], p);
      assert Filter(a, p) == (if p(a[0]) then [a[0]] else []) + Filter(a[1..], p);
    }
  }

  /** Appending an element the filter rejects to a list it keeps whole
      filters back to the list. */
  lemma FilterDropsAppended<T(!new)>(s: seq<T>, y: T, p: T -> bool)
    requires forall x :: x in s ==> p(x)
    requires !p(y)
    ensures Filter(s + [y], p) == s
  {
    FilterAppend(s, [y], p);
    FilterAll(s, p);
    assert Filter([y], p) == [];
  }

  /** A filter and the filter by the opposite predicate split the input. */
  lemma FilterPartition<T(!new)>(s: seq<T>, p: T -> bool, q: T -> bool)
    requires forall x :: q(x) == !p(x)
    ensures multiset(Filter(s, p)) + multiset(Filter(s, q)) == multiset(s)
    ensures |Filter(s, p)| + |Filter(s, q)| == |s|
  {
    var a, b := Filter(s, p), Filter(s, q);
    FilterMultiplicity(s, p);
    FilterMultiplicity(s, q);
    assert multiset(a) + multiset(b) == multiset(s) by {
      forall x ensures (multiset(a) + multiset(b))[x] == multiset(s)[x] {
      }
    }
    assert |multiset(a) + multiset(b)| == |multiset(s)|;
  }

  /** Number of elements satisfying `p`. */
  function Count<T(!new)>(s: seq<T>, p: T -> bool): (n: nat)
    ensures n <= |s|
  {
    |Filter(s, p)|
  }

  /** Non-increasing by `key`. */
  predicate SortedDesc<T>(s: seq<T>, key: T -> int) {
    forall i, j :: 0 <= i < j < |s| ==> key(s[i]) >= key(s[j])
  }

  /** Where a value with key `k` goes in a list sorted by `key`: before the
      first element whose key is at most `k`, and after all larger ones. */
  function InsertionPoint<T>(s: seq<T>, key: T -> int, k: int): (i: nat)
    ensures i <= |s|
    ensures forall j :: 0 <= j < i ==> key(s[j]) > k
    ensures i < |s| ==> key(s[i]) <= k
  {
    if s == [] || key(s[0]) <= k then 0 else 1 + InsertionPoint(s[1..], key, k)
  }

  /** Splicing `x` in at its insertion point keeps a sorted list sorted. */
  lemma SpliceSorted<T>(x: T, s: seq<T>, key: T -> int)
    requires SortedDesc(s, key)
    ensures var i := InsertionPoint(s, key, key(x)); SortedDesc(s[..i] + [x] + s[i..], key)
  {
    var i := InsertionPoint(s, key, key(x));
    var r := s[..i] + [x] + s[i..];
    forall a | 0 <= a < |r| ensures r[a] == if a < i then s[a] else if a == i then x else s[a - 1] {
    }
    forall a, b | 0 <= a < b < |r| ensures key(r[a]) >= key(r[b]) {
    }
  }

  /** Insertion keeps a list sorted and adds exactly one element. */
  function Insert<T>(x: T, s: seq<T>, key: T -> int): (r: seq<T>)
    ensures |r| == |s| + 1
    ensures multiset(r) == multiset(s) + multiset{x}
    ensures SortedDesc(s, key) ==> SortedDesc(r, key)
  {
    var i := InsertionPoint(s, key, key(x));
    assert s == s[..i] + s[i..];
    if SortedDesc(s, key) then
      SpliceSorted(x, s, key);
      s[..i] + [x] + s[i..]
    else
      s[..i] + [x] + s[i..]
  }

  /** The stable sort `s.sort((a, b) => key(b) - key(a))`: a permutation of
      the input in non-increasing key order. */
  function SortDesc<T>(s: seq<T>, key: T -> int): (r: seq<T>)
    ensures |r| == |s|
    ensures multiset(r) == multiset(s)
    ensures SortedDesc(r, key)
  {
    if s == [] then []
    else
      assert s == [s[0]] + s[1..];
      Insert(s[0], SortDesc(s[1..], key), key)
  }

  /** In a list sorted by `key`, downwards, an element that occurs more
      often than in the first `n` has a key no larger than any of them. */
  lemma TopOfSorted<T>(s: seq<T>, n: nat, key: T -> int, x: T, y: T)
    requires SortedDesc(s, key) && n <= |s|
    requires x in s[..n] && multiset(s[..n])[y] < multiset(s)[y]
    ensures key(y) <= key(x)
  {
    assert s == s[..n] + s[n..];
    assert multiset(s) == multiset(s[..n]) + multiset(s[n..]);
    assert y in s[n..];
    var k :| n <= k < |s| && s[k] == y;
    var j :| 0 <= j < n && s[j] == x;
  }

  /** `s.slice(0, n)`: a negative `n` counts back from the end. */
  function Take<T>(s: seq<T>, n: int): (r: seq<T>)
    ensures n >= 0 ==> |r| == if n < |s| then n else |s|
    ensures n < 0 ==> |r| == if |s| + n > 0 then |s| + n else 0
    ensures r == s[..|r|]
    ensures multiset(r) <= multiset(s)
  {
    var end := if n >= 0 then (if n < |s| then n else |s|) else (if |s| + n > 0 then |s| + n else 0);
    assert s == s[..end] + s[end..];
    s[..end]
  }

  /** The keys `f` gives the elements of `s`. */
  ghost function Image<T, K>(s: seq<T>, f: T -> K): set<K> {
    set i | 0 <= i < |s| :: f(s[i])
  }

  /** No two elements of `s` share a key. */
  predicate DistinctBy<T, K(==)>(s: seq<T>, f: T -> K) {
    forall i, j :: 0 <= i < j < |s| ==> f(s[i]) != f(s[j])
  }

  /** The keys after splicing `x` into `s` at `i`. */
  lemma ImageSplice<T, K>(s: seq<T>, x: T, i: nat, f: T -> K)
    requires i <= |s|
    ensures Image(s[..i] + [x] + s[i..], f) == Image(s, f) + {f(x)}
  {
    var s' := s[..i] + [x] + s[i..];
    forall y | y in Image(s', f) ensures y in Image(s, f) + {f(x)} {
      var j :| 0 <= j < |s'| && f(s'[j]) == y;
      if j > i { assert s'[j] == s[j - 1]; } else if j < i { assert s'[j] == s[j]; }
    }
    forall y | y in Image(s, f) ensures y in Image(s', f) {
      var j :| 0 <= j < |s| && f(s[j]) == y;
      if j < i { assert s'[j] == s[j]; } else { assert s'[j + 1] == s[j]; }
    }
    assert s'[i] == x;
  }

  /** Splicing in an element with a new key keeps the keys distinct. */
  lemma DistinctSplice<T, K>(s: seq<T>, x: T, i: nat, f: T -> K)
    requires i <= |s| && DistinctBy(s, f) && f(x) !in Image(s, f)
    ensures DistinctBy(s[..i] + [x] + s[i..], f)
  {
    var s' := s[..i] + [x] + s[i..];
    forall a, b | 0 <= a < b < |s'| ensures f(s'[a]) != f(s'[b]) {
      var a' := if a < i then a else a - 1;
      var b' := if b < i then b else b - 1;
      if a == i {
        assert s'[b] == s[b'];
        assert f(s[b']) in Image(s, f);
      } else if b == i {
        assert s'[a] == s[a'];
        assert f(s[a']) in Image(s, f);
      } else {
        assert s'[a] == s[a'] && s'[b] == s[b'];
      }
    }
  }
}
