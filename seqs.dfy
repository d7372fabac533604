/** Sequence helpers shared by the model: the `Array.prototype.filter` the page uses everywhere. */
module Seqs {

  /** Keeps, in order, the elements that satisfy `p`. */
  function Filter<T(!new)>(s: seq<T>, p: T -> bool): (r: seq<T>)
    ensures |r| <= |s|
    ensures forall x :: x in r <==> x in s && p(x)
  {
    if s == [] then [] else (if p(s[0]) then [s[0]] else []) + Filter(s[1..], p)
  }

  /** Number of elements that satisfy `p`. */
  function Count<T(!new)>(s: seq<T>, p: T -> bool): nat {
    |Filter(s, p)|
  }

  lemma {:induction false} FilterAppend<T(!new)>(a: seq<T>, b: seq<T>, p: T -> bool)
    ensures Filter(a + b, p) == Filter(a, p) + Filter(b, p)
  {
    if a == [] {
      assert a + b == b;
    } else {
      assert (a + b)[1..] == a[1..] + b;
      FilterAppend(a[1..], b, p);
    }
  }

  /** Filtering keeps every satisfying element with its multiplicity and drops every other. */
  lemma {:induction false} FilterMultiplicity<T(!new)>(s: seq<T>, p: T -> bool, x: T)
    ensures multiset(Filter(s, p))[x] == if p(x) then multiset(s)[x] else 0
  {
    if s != [] {
      FilterMultiplicity(s[1..], p, x);
      assert s == [s[0]] + s[1..];
    }
  }

  /** Filtering with a predicate every element meets changes nothing. */
  lemma {:induction false} FilterAll<T(!new)>(s: seq<T>, p: T -> bool)
    requires forall x :: x in s ==> p(x)
    ensures Filter(s, p) == s
  {
    if s != [] {
      FilterAll(s[1..], p);
    }
  }

  /** Two permutations of each other have the same number of elements satisfying `p`. */
  lemma CountPermutation<T(!new)>(a: seq<T>, b: seq<T>, p: T -> bool)
    requires multiset(a) == multiset(b)
    ensures Count(a, p) == Count(b, p)
  {
    forall x ensures multiset(Filter(a, p))[x] == multiset(Filter(b, p))[x] {
      FilterMultiplicity(a, p, x);
      FilterMultiplicity(b, p, x);
    }
    assert multiset(Filter(a, p)) == multiset(Filter(b, p));
    assert |multiset(Filter(a, p))| == |Filter(a, p)|;
    assert |multiset(Filter(b, p))| == |Filter(b, p)|;
  }

  ghost predicate NoDuplicates<T(!new)>(s: seq<T>) {
    forall i, j :: 0 <= i < j < |s| ==> s[i] != s[j]
  }

  lemma {:induction false} FilterNoDuplicates<T(!new)>(s: seq<T>, p: T -> bool)
    requires NoDuplicates(s)
    ensures NoDuplicates(Filter(s, p))
  {
    if s != [] {
      FilterNoDuplicates(s[1..], p);
    }
  }

  // ----- order: a filter keeps the relative order of what it keeps -----

  /** `r` is `s` with some entries removed: `idx` lists, increasing, the positions of `s` that `r` keeps. */
  ghost predicate KeptAt<T>(r: seq<T>, s: seq<T>, idx: seq<nat>) {
    && |idx| == |r|
    && (forall k :: 0 <= k < |idx| ==> idx[k] < |s| && r[k] == s[idx[k]])
    && (forall k, l :: 0 <= k < l < |idx| ==> idx[k] < idx[l])
  }

  /** `r` is obtained from `s` by deleting entries, without reordering the rest. */
  ghost predicate Subsequence<T>(r: seq<T>, s: seq<T>) {
    exists idx: seq<nat> :: KeptAt(r, s, idx)
  }

  /** Every position moved one place right, as when an entry is put in front. */
  function Shift(idx: seq<nat>): (r: seq<nat>)
    ensures |r| == |idx| && forall k :: 0 <= k < |idx| ==> r[k] == idx[k] + 1
  {
    seq(|idx|, k requires 0 <= k < |idx| => idx[k] + 1)
  }

  lemma KeptAtTail<T>(r: seq<T>, s: seq<T>, idx: seq<nat>)
    requires s != [] && KeptAt(r, s[1..], idx)
    ensures KeptAt(r, s, Shift(idx))
  {
    forall k | 0 <= k < |idx| ensures r[k] == s[idx[k] + 1] {
      assert r[k] == s[1..][idx[k]];
    }
  }

  lemma KeptAtCons<T>(r: seq<T>, s: seq<T>, idx: seq<nat>)
    requires s != [] && KeptAt(r, s[1..], idx)
    ensures KeptAt([s[0]] + r, s, [0] + Shift(idx))
  {
    KeptAtTail(r, s, idx);
    var all := [0] + Shift(idx);
    forall k, l | 0 <= k < l < |all| ensures all[k] < all[l] {
      assert all[l] == Shift(idx)[l - 1];
      if k > 0 {
        assert all[k] == Shift(idx)[k - 1];
      }
    }
    forall k | 0 <= k < |all| ensures all[k] < |s| && ([s[0]] + r)[k] == s[all[k]] {
      if k > 0 {
        assert all[k] == Shift(idx)[k - 1];
      }
    }
  }

  /** The filter only deletes: what it keeps stays in the order of the input. */
  lemma {:induction false} FilterIsSubsequence<T(!new)>(s: seq<T>, p: T -> bool)
    ensures Subsequence(Filter(s, p), s)
  {
    if s == [] {
      assert KeptAt<T>([], s, []);
    } else {
      FilterIsSubsequence(s[1..], p);
      var rest := Filter(s[1..], p);
      var idx :| KeptAt(rest, s[1..], idx);
      if p(s[0]) {
        KeptAtCons(rest, s, idx);
        assert Filter(s, p) == [s[0]] + rest;
        assert KeptAt(Filter(s, p), s, [0] + Shift(idx));
      } else {
        KeptAtTail(rest, s, idx);
        assert Filter(s, p) == rest;
        assert KeptAt(Filter(s, p), s, Shift(idx));
      }
    }
  }

  /** Deleting nothing. */
  lemma SubsequenceRefl<T>(s: seq<T>)
    ensures Subsequence(s, s)
  {
    assert KeptAt(s, s, seq(|s|, k requires 0 <= k < |s| => k));
  }

  /** Deleting from a deletion of `s` is a deletion of `s`. */
  lemma SubsequenceTrans<T>(a: seq<T>, b: seq<T>, c: seq<T>)
    requires Subsequence(a, b) && Subsequence(b, c)
    ensures Subsequence(a, c)
  {
    var i1 :| KeptAt(a, b, i1);
    var i2 :| KeptAt(b, c, i2);
    var i3 := seq(|i1|, k requires 0 <= k < |i1| => i2[i1[k]]);
    assert KeptAt(a, c, i3) by {
      forall k, l | 0 <= k < l < |i3| ensures i3[k] < i3[l] {
        assert i1[k] < i1[l];
      }
    }
  }

  /** Any relation that holds between every earlier and later entry of `s` still holds in a subsequence. */
  lemma SubsequencePairwise<T>(r: seq<T>, s: seq<T>, rel: (T, T) -> bool)
    requires Subsequence(r, s)
    requires forall i, j :: 0 <= i < j < |s| ==> rel(s[i], s[j])
    ensures forall i, j :: 0 <= i < j < |r| ==> rel(r[i], r[j])
  {
    var idx :| KeptAt(r, s, idx);
    forall i, j | 0 <= i < j < |r| ensures rel(r[i], r[j]) {
      assert r[i] == s[idx[i]] && r[j] == s[idx[j]] && idx[i] < idx[j];
    }
  }
}
