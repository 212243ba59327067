/** The random draws of the resampling engine, taken as caller-supplied
    position lists: `df.sample(n)` is `n` distinct positions,
    `df.sample(n, replace=True)` any `n` positions, and
    `df.sample(frac=1.0)` a permutation of all positions. */
module Sampling {

  predicate InRange(idx: seq<nat>, n: nat) {
    forall k | 0 <= k < |idx| :: idx[k] < n
  }

  predicate Distinct(idx: seq<nat>) {
    forall k, l | 0 <= k < l < |idx| :: idx[k] != idx[l]
  }

  predicate IsPermutation(idx: seq<nat>, n: nat) {
    |idx| == n && InRange(idx, n) && Distinct(idx)
  }

  /** The elements at the given positions, in the given order. */
  function Gather<T>(s: seq<T>, idx: seq<nat>): (r: seq<T>)
    requires InRange(idx, |s|)
    ensures |r| == |idx|
    ensures forall k | 0 <= k < |idx| :: r[k] == s[idx[k]]
  {
    if idx == [] then [] else [s[idx[0]]] + Gather(s, idx[1..])
  }

  /** Drawing distinct positions yields a sub-multiset of the source:
      sampling without replacement never repeats an element more often than
      the source holds it. */
  lemma {:induction false} GatherDistinctIsSubMultiset<T>(s: seq<T>, idx: seq<nat>)
    requires InRange(idx, |s|) && Distinct(idx)
    ensures multiset(Gather(s, idx)) <= multiset(s)
    decreases |s|
  {
    if s != [] {
      var last := |s| - 1;
      var s' := s[..last];
      assert s == s' + [s[last]];
      if j :| 0 <= j < |idx| && idx[j] == last {
        var idx' := idx[..j] + idx[j + 1..];
        DropPosition(idx, j, last);
        GatherDistinctIsSubMultiset(s', idx');
        GatherDrop(s, idx, j);
        GatherPrefix(s, last, idx');
      } else {
        assert InRange(idx, last);
        GatherDistinctIsSubMultiset(s', idx);
        GatherPrefix(s, last, idx);
      }
    }
  }

  /** Removing the draw of the last position leaves distinct draws below it. */
  lemma DropPosition(idx: seq<nat>, j: nat, last: nat)
    requires InRange(idx, last + 1) && Distinct(idx)
    requires j < |idx| && idx[j] == last
    ensures InRange(idx[..j] + idx[j + 1..], last) && Distinct(idx[..j] + idx[j + 1..])
  {
    var idx' := idx[..j] + idx[j + 1..];
    forall k | 0 <= k < |idx'|
      ensures idx'[k] == idx[if k < j then k else k + 1]
    {
    }
  }

  /** Gathering reads only the positions it is given. */
  lemma GatherPrefix<T>(s: seq<T>, n: nat, idx: seq<nat>)
    requires n <= |s| && InRange(idx, n)
    ensures Gather(s, idx) == Gather(s[..n], idx)
  {
  }

  /** Taking one draw out removes exactly its element from the multiset. */
  lemma GatherDrop<T>(s: seq<T>, idx: seq<nat>, j: nat)
    requires InRange(idx, |s|) && j < |idx|
    ensures InRange(idx[..j] + idx[j + 1..], |s|)
    ensures multiset(Gather(s, idx)) == multiset(Gather(s, idx[..j] + idx[j + 1..])) + multiset{s[idx[j]]}
  {
    var idx' := idx[..j] + idx[j + 1..];
    forall k | 0 <= k < |idx'|
      ensures idx'[k] == idx[if k < j then k else k + 1]
    {
    }
    var g, g' := Gather(s, idx), Gather(s, idx');
    assert g == g'[..j] + [s[idx[j]]] + g'[j..] by {
      var h := g'[..j] + [s[idx[j]]] + g'[j..];
      forall k | 0 <= k < |g| ensures g[k] == h[k] {
        if k < j {
          assert h[k] == g'[k];
        } else if k > j {
          assert h[k] == g'[k - 1];
        }
      }
    }
    MultisetSplice(g', j, s[idx[j]]);
  }

  lemma MultisetSplice<T>(a: seq<T>, j: nat, x: T)
    requires j <= |a|
    ensures multiset(a[..j] + [x] + a[j..]) == multiset(a) + multiset{x}
  {
    assert a == a[..j] + a[j..];
  }

  /** Every gathered element is an element of the source. */
  lemma GatherFrom<T>(s: seq<T>, idx: seq<nat>)
    requires InRange(idx, |s|)
    ensures forall x | x in Gather(s, idx) :: x in s
  {
    forall x | x in Gather(s, idx) ensures x in s {
      var k :| 0 <= k < |idx| && Gather(s, idx)[k] == x;
    }
  }

  /** Sequences with the same multiset have the same elements. */
  lemma SameElements<T>(a: seq<T>, b: seq<T>)
    requires multiset(a) == multiset(b)
    ensures forall x | x in a :: x in b
  {
    forall x | x in a ensures x in b {
      assert x in multiset(a);
    }
  }

  /** A sub-multiset as large as its super-multiset is equal to it. */
  lemma SubMultisetOfSameSize<T>(a: multiset<T>, b: multiset<T>)
    requires a <= b && |a| == |b|
    ensures a == b
  {
    var d := b - a;
    assert b == a + d;
    assert |d| == 0;
  }

  /** Gathering along a permutation reorders without losing or adding
      anything: the shuffle keeps every row exactly once. */
  lemma GatherPermutation<T>(s: seq<T>, idx: seq<nat>)
    requires IsPermutation(idx, |s|)
    ensures multiset(Gather(s, idx)) == multiset(s)
  {
    GatherDistinctIsSubMultiset(s, idx);
    SubMultisetOfSameSize(multiset(Gather(s, idx)), multiset(s));
  }
}
