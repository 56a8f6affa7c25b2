/** Sequence shapes shared by the list-processing steps: prefixes (`slice(0, n)`) and subsequences (`filter`). */
module Sequences {

  /** The first `n` elements, or all of them: `s.slice(0, n)`. */
  function Take<T>(s: seq<T>, n: nat): (r: seq<T>)
    ensures |r| == if |s| < n then |s| else n
    ensures r == s[..|r|]
  {
    if |s| <= n then s else s[..n]
  }

  /** Everything after the first `n` elements: `skip(n)`. */
  function Drop<T>(s: seq<T>, n: nat): (r: seq<T>)
    ensures |r| == if |s| < n then 0 else |s| - n
    ensures r == s[|s| - |r|..]
  {
    if |s| <= n then [] else s[n..]
  }

  /** Taking and dropping the same count splits the sequence: nothing is lost and nothing repeated. */
  lemma TakeDrop<T>(s: seq<T>, n: nat)
    ensures Take(s, n) + Drop(s, n) == s
    ensures |Take(s, n)| <= n
    ensures Drop(s, n) == [] <==> |s| <= n
  {
  }

  /** Skipping `k` and taking `l`, then `m` more, is skipping `k` and taking `l + m`. */
  lemma ConsecutiveWindows<T>(s: seq<T>, k: nat, l: nat, m: nat)
    ensures Take(Drop(s, k), l) + Take(Drop(s, k + l), m) == Take(Drop(s, k), l + m)
  {
    var d := Drop(s, k);
    if |d| > l {
      assert Drop(s, k + l) == d[l..];
      assert d[..l] + d[l..][..|Take(d[l..], m)|] == d[..|Take(d, l + m)|];
    }
  }

  predicate IsPrefix<T(==)>(a: seq<T>, b: seq<T>) {
    |a| <= |b| && b[..|a|] == a
  }

  /** `a` is `b` with some elements left out and the rest in their original order. */
  predicate IsSubseq<T(==)>(a: seq<T>, b: seq<T>)
    decreases |b|
  {
    a == [] || (b != [] && ((a[0] == b[0] && IsSubseq(a[1..], b[1..])) || IsSubseq(a, b[1..])))
  }

  lemma {:induction false} SubseqRefl<T>(s: seq<T>)
    ensures IsSubseq(s, s)
    decreases |s|
  {
    if s != [] {
      SubseqRefl(s[1..]);
    }
  }

  /** A subsequence has no more occurrences of any element than the sequence it comes from. */
  lemma {:induction false} SubseqMultiset<T>(a: seq<T>, b: seq<T>)
    requires IsSubseq(a, b)
    ensures multiset(a) <= multiset(b)
    decreases |b|
  {
    if a != [] {
      assert b == [b[0]] + b[1..];
      if a[0] == b[0] && IsSubseq(a[1..], b[1..]) {
        SubseqMultiset(a[1..], b[1..]);
        assert a == [a[0]] + a[1..];
      } else {
        SubseqMultiset(a, b[1..]);
      }
    }
  }
}
