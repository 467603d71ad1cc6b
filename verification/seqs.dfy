/** Sequence operations that several components share: `Array.prototype.filter`
    and the "first occurrence per key" pattern (`new Set(...)`, a `seen` set,
    `new Map(...)`) that the front end uses to deduplicate. */
module Seqs {

  /** `a` is obtained from `b` by deleting elements, keeping the order of
      the rest. */
  predicate IsSubsequence<T(==)>(a: seq<T>, b: seq<T>)
    decreases |b|
  {
    |a| == 0 ||
    (|b| > 0 && ((a[0] == b[0] && IsSubsequence(a[1..], b[1..])) || IsSubsequence(a, b[1..])))
  }

  /** `s.filter(p)`: the elements satisfying `p`, each as often as in `s`,
      in their original order. */
  function Filter<T(==,!new)>(s: seq<T>, p: T -> bool): (r: seq<T>)
    ensures IsSubsequence(r, s)
    ensures forall i :: 0 <= i < |r| ==> p(r[i])
    ensures forall x :: x in r <==> x in s && p(x)
  {
    if |s| == 0 then []
    else
      assert s == [s[0]] + s[1..];
      var rest := Filter(s[1..], p);
      if p(s[0]) then [s[0]] + rest else rest
  }

  /** A filter keeps every accepted value as often as it occurs and drops
      every rejected one. */
  lemma {:induction false} FilterCount<T(!new)>(s: seq<T>, p: T -> bool)
    ensures forall x :: multiset(Filter(s, p))[x] == if p(x) then multiset(s)[x] else 0
  {
    if |s| > 0 {
      assert s == [s[0]] + s[1..];
      FilterCount(s[1..], p);
    }
  }

  /** Filtering a sequence that starts with `x`. */
  lemma FilterCons<T(!new)>(x: T, t: seq<T>, p: T -> bool)
    ensures Filter([x] + t, p) == (if p(x) then [x] else []) + Filter(t, p)
  {
    assert ([x] + t)[1..] == t;
  }

  /** A filter whose predicate holds throughout returns its input. */
  lemma {:induction false} FilterKeepsAll<T(!new)>(s: seq<T>, p: T -> bool)
    requires forall i :: 0 <= i < |s| ==> p(s[i])
    ensures Filter(s, p) == s
  {
    if |s| > 0 {
      FilterKeepsAll(s[1..], p);
    }
  }

  /** Filtering a concatenation filters each part. */
  lemma {:induction false} FilterConcat<T(!new)>(a: seq<T>, b: seq<T>, p: T -> bool)
    ensures Filter(a + b, p) == Filter(a, p) + Filter(b, p)
  {
    if |a| > 0 {
      var t := a[1..];
      assert (a + b)[0] == a[0] && (a + b)[1..] == t + b;
      FilterConcat(t, b, p);
      var h := if p(a[0]) then [a[0]] else [];
      assert Filter(a + b, p) == h + (Filter(t, p) + Filter(b, p));
    } else {
      assert a + b == b;
    }
  }

  /** A filter whose predicate fails throughout returns nothing. */
  lemma FilterDropsAll<T(!new)>(s: seq<T>, p: T -> bool)
    requires forall i :: 0 <= i < |s| ==> !p(s[i])
    ensures Filter(s, p) == []
  {
  }

  /** No element occurs twice. */
  predicate Distinct<T(==)>(s: seq<T>)
  {
    forall i, j :: 0 <= i < j < |s| ==> s[i] != s[j]
  }

  /** Deleting elements from a duplicate-free sequence keeps it
      duplicate-free. */
  lemma {:induction false} FilterDistinct<T(!new)>(s: seq<T>, p: T -> bool)
    requires Distinct(s)
    ensures Distinct(Filter(s, p))
  {
    if |s| > 0 {
      FilterDistinct(s[1..], p);
      assert forall k :: 0 <= k < |s[1..]| ==> s[1..][k] == s[k + 1];
      assert s[0] !in s[1..];
      FilterCons(s[0], s[1..], p);
      assert s == [s[0]] + s[1..];
    }
  }

  /** Some element of `s` has key `k`. */
  predicate HasKey<T, K(==)>(s: seq<T>, key: T -> K, k: K)
  {
    exists i | 0 <= i < |s| :: key(s[i]) == k
  }

  /** The index of the first element of `s` with key `k`, or `|s|` if none. */
  function FirstIndex<T, K(==)>(s: seq<T>, key: T -> K, k: K): (n: nat)
    ensures n <= |s|
    ensures n < |s| ==> key(s[n]) == k
    ensures forall i :: 0 <= i < n ==> key(s[i]) != k
    ensures n < |s| <==> HasKey(s, key, k)
  {
    if |s| == 0 then 0
    else if key(s[0]) == k then 0
    else 1 + FirstIndex(s[1..], key, k)
  }

  /** Appending an element does not move the first occurrence of a key
      already present. */
  lemma {:induction false} FirstIndexAppend<T, K>(s: seq<T>, x: T, key: T -> K, k: K)
    ensures FirstIndex(s + [x], key, k) ==
      if HasKey(s, key, k) then FirstIndex(s, key, k)
      else if key(x) == k then |s| else |s| + 1
  {
    if |s| > 0 {
      assert (s + [x])[1..] == s[1..] + [x];
      FirstIndexAppend(s[1..], x, key, k);
      if key(s[0]) != k && HasKey(s, key, k) {
        var i :| 0 <= i < |s| && key(s[i]) == k;
        assert key(s[1..][i - 1]) == k;
      }
    }
  }

  /** `r` lists, once per key and in order of first appearance, the first
      element of `s` carrying each key that occurs in `s`. */
  ghost predicate FirstOccurrences<T, K>(r: seq<T>, s: seq<T>, key: T -> K)
  {
    && (forall i, j :: 0 <= i < j < |r| ==> key(r[i]) != key(r[j]))
    && (forall i :: 0 <= i < |s| ==> HasKey(r, key, key(s[i])))
    && (forall j :: 0 <= j < |r| ==>
          FirstIndex(s, key, key(r[j])) < |s| && s[FirstIndex(s, key, key(r[j]))] == r[j])
    && (forall i, j :: 0 <= i < j < |r| ==>
          FirstIndex(s, key, key(r[i])) < FirstIndex(s, key, key(r[j])))
  }

  /** The loop `for x of s: if (!seen.has(key(x))) { seen.add(key(x)); out.push(x) }`,
      unrolled from the end of `s`. */
  function DedupBy<T, K(==)>(s: seq<T>, key: T -> K): seq<T>
  {
    if |s| == 0 then []
    else
      var r := DedupBy(s[..|s| - 1], key);
      if HasKey(r, key, key(s[|s| - 1])) then r else r + [s[|s| - 1]]
  }

  /** One more step of the deduplication loop. */
  lemma DedupByAppend<T, K>(s: seq<T>, x: T, key: T -> K)
    ensures DedupBy(s + [x], key) ==
      if HasKey(DedupBy(s, key), key, key(x)) then DedupBy(s, key) else DedupBy(s, key) + [x]
  {
    assert (s + [x])[..|s|] == s;
  }

  /** The keys of `s + [x]` are those of `s` and the key of `x`. */
  lemma HasKeyAppend<T, K>(s: seq<T>, x: T, key: T -> K, k: K)
    ensures HasKey(s + [x], key, k) <==> HasKey(s, key, k) || key(x) == k
  {
    if HasKey(s + [x], key, k) && key(x) != k {
      var i :| 0 <= i < |s| + 1 && key((s + [x])[i]) == k;
      assert key(s[i]) == k;
    }
    if HasKey(s, key, k) {
      var i :| 0 <= i < |s| && key(s[i]) == k;
      assert key((s + [x])[i]) == k;
    }
    if key(x) == k {
      assert key((s + [x])[|s|]) == k;
    }
  }

  /** Every key already kept keeps its first index when `x` is appended. */
  lemma KeptKeysStay<T, K>(r: seq<T>, p: seq<T>, x: T, key: T -> K)
    requires FirstOccurrences(r, p, key)
    ensures forall j :: 0 <= j < |r| ==>
      FirstIndex(p + [x], key, key(r[j])) == FirstIndex(p, key, key(r[j])) < |p|
  {
    forall j | 0 <= j < |r|
      ensures FirstIndex(p + [x], key, key(r[j])) == FirstIndex(p, key, key(r[j])) < |p|
    {
      FirstIndexAppend(p, x, key, key(r[j]));
    }
  }

  /** Appending an element whose key was already seen changes nothing. */
  lemma DedupStepSeen<T, K>(r: seq<T>, p: seq<T>, x: T, key: T -> K)
    requires FirstOccurrences(r, p, key)
    requires HasKey(r, key, key(x))
    ensures FirstOccurrences(r, p + [x], key)
  {
    var s := p + [x];
    KeptKeysStay(r, p, x, key);
    forall i | 0 <= i < |s|
      ensures HasKey(r, key, key(s[i]))
    {
      if i < |p| {
        assert s[i] == p[i];
      }
    }
    forall j | 0 <= j < |r|
      ensures s[FirstIndex(s, key, key(r[j]))] == r[j]
    {
      assert s[FirstIndex(p, key, key(r[j]))] == p[FirstIndex(p, key, key(r[j]))];
    }
  }

  /** Appending an element with a new key adds it at the end. */
  lemma DedupStepNew<T, K>(r: seq<T>, p: seq<T>, x: T, key: T -> K)
    requires FirstOccurrences(r, p, key)
    requires !HasKey(r, key, key(x))
    ensures FirstOccurrences(r + [x], p + [x], key)
  {
    var s, r' := p + [x], r + [x];
    KeptKeysStay(r, p, x, key);
    forall i | 0 <= i < |p|
      ensures key(p[i]) != key(x)
    {
      assert HasKey(r, key, key(p[i]));
    }
    assert !HasKey(p, key, key(x));
    FirstIndexAppend(p, x, key, key(x));
    assert FirstIndex(s, key, key(x)) == |p|;
    forall i | 0 <= i < |s|
      ensures HasKey(r', key, key(s[i]))
    {
      if i < |p| {
        assert s[i] == p[i];
        var j :| 0 <= j < |r| && key(r[j]) == key(p[i]);
        assert r'[j] == r[j];
      } else {
        assert r'[|r|] == s[i];
      }
    }
    forall j | 0 <= j < |r'|
      ensures FirstIndex(s, key, key(r'[j])) < |s| && s[FirstIndex(s, key, key(r'[j]))] == r'[j]
    {
      if j < |r| {
        assert r'[j] == r[j];
        assert s[FirstIndex(p, key, key(r[j]))] == p[FirstIndex(p, key, key(r[j]))];
      }
    }
    forall i, j | 0 <= i < j < |r'|
      ensures key(r'[i]) != key(r'[j])
      ensures FirstIndex(s, key, key(r'[i])) < FirstIndex(s, key, key(r'[j]))
    {
      assert r'[i] == r[i];
      if j < |r| {
        assert r'[j] == r[j];
      } else {
        assert r'[j] == x;
        assert HasKey(r, key, key(r[i]));
      }
    }
  }

  /** Deduplication keeps exactly the first element of every key, in order
      of first appearance. */
  lemma {:induction false} DedupByFirstOccurrences<T, K>(s: seq<T>, key: T -> K)
    ensures FirstOccurrences(DedupBy(s, key), s, key)
  {
    if |s| > 0 {
      var p, x := s[..|s| - 1], s[|s| - 1];
      assert s == p + [x];
      DedupByFirstOccurrences(p, key);
      if HasKey(DedupBy(p, key), key, key(x)) {
        DedupStepSeen(DedupBy(p, key), p, x, key);
      } else {
        DedupStepNew(DedupBy(p, key), p, x, key);
      }
    }
  }
}
