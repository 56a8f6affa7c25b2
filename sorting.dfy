/**
 * Stable descending sort by an integer key, the behaviour of `Array.prototype.sort` (stable
 * since ECMAScript 2019) with a comparator `(a, b) => key(b) - key(a)`. As every stable sort
 * yields the same result, insertion sort is used as the reference definition; `SortInPlace`
 * is the in-place array version.
 */
module Sorting {
  import opened Sequences

  ghost predicate SortedDesc<T>(s: seq<T>, key: T -> int) {
    forall i, j :: 0 <= i < j < |s| ==> key(s[i]) >= key(s[j])
  }

  /** Places `x` after every element whose key is at least `key(x)`. */
  function Insert<T>(s: seq<T>, x: T, key: T -> int): (r: seq<T>)
    ensures |r| == |s| + 1
  {
    if s == [] then [x]
    else if key(s[0]) < key(x) then [x] + s
    else [s[0]] + Insert(s[1..], x, key)
  }

  function SortDesc<T>(s: seq<T>, key: T -> int): (r: seq<T>)
    ensures |r| == |s|
  {
    if s == [] then [] else Insert(SortDesc(s[..|s| - 1], key), s[|s| - 1], key)
  }

  /** The elements of `s` whose key is `k`, in order. */
  function WithKey<T>(s: seq<T>, key: T -> int, k: int): seq<T> {
    if s == [] then [] else (if key(s[0]) == k then [s[0]] else []) + WithKey(s[1..], key, k)
  }

  lemma {:induction false} InsertMultiset<T>(s: seq<T>, x: T, key: T -> int)
    ensures multiset(Insert(s, x, key)) == multiset(s) + multiset{x}
  {
    if s != [] && key(s[0]) >= key(x) {
      InsertMultiset(s[1..], x, key);
      assert s == [s[0]] + s[1..];
    }
  }

  /** Inserting an element whose key is at most `b` into a sequence bounded by `b` keeps it bounded. */
  lemma {:induction false} InsertBounded<T>(s: seq<T>, x: T, key: T -> int, b: int)
    requires forall j :: 0 <= j < |s| ==> key(s[j]) <= b
    requires key(x) <= b
    ensures forall j :: 0 <= j < |Insert(s, x, key)| ==> key(Insert(s, x, key)[j]) <= b
  {
    if s != [] && key(s[0]) >= key(x) {
      var t := Insert(s[1..], x, key);
      InsertBounded(s[1..], x, key, b);
      assert Insert(s, x, key) == [s[0]] + t;
    }
  }

  lemma {:induction false} InsertSorted<T>(s: seq<T>, x: T, key: T -> int)
    requires SortedDesc(s, key)
    ensures SortedDesc(Insert(s, x, key), key)
    ensures Insert(s, x, key) != [] && (Insert(s, x, key)[0] == x || Insert(s, x, key)[0] == s[0])
  {
    if s == [] {
    } else if key(s[0]) < key(x) {
      SortedBelowHead(s, key);
      SortedCons(x, s, key);
    } else {
      var t := Insert(s[1..], x, key);
      assert SortedDesc(s[1..], key);
      InsertSorted(s[1..], x, key);
      SortedBelowHead(s, key);
      InsertBounded(s[1..], x, key, key(s[0]));
      SortedCons(s[0], t, key);
    }
  }

  /** Every key of a descending sequence but the first is at most the first. */
  lemma SortedBelowHead<T>(s: seq<T>, key: T -> int)
    requires SortedDesc(s, key) && s != []
    ensures forall j :: 0 <= j < |s[1..]| ==> key(s[1..][j]) <= key(s[0])
  {
    forall j | 0 <= j < |s[1..]| ensures key(s[1..][j]) <= key(s[0]) {
      assert s[1..][j] == s[j + 1];
    }
  }

  /** An element whose key bounds a descending sequence can be put in front of it. */
  lemma SortedCons<T>(x: T, t: seq<T>, key: T -> int)
    requires SortedDesc(t, key)
    requires forall j :: 0 <= j < |t| ==> key(t[j]) <= key(x)
    ensures SortedDesc([x] + t, key)
  {
    var r := [x] + t;
    forall i, j | 0 <= i < j < |r| ensures key(r[i]) >= key(r[j]) {
      assert r[j] == t[j - 1];
      if i > 0 {
        assert r[i] == t[i - 1];
      }
    }
  }

  lemma {:induction false} InsertWithKey<T>(s: seq<T>, x: T, key: T -> int, k: int)
    requires SortedDesc(s, key)
    ensures WithKey(Insert(s, x, key), key, k) == WithKey(s, key, k) + (if key(x) == k then [x] else [])
  {
    if s == [] {
      WithKeySingle(x, key, k);
    } else if key(s[0]) < key(x) {
      InsertWithKeyFront(s, x, key, k);
    } else {
      var hx := if key(x) == k then [x] else [];
      var t := Insert(s[1..], x, key);
      assert SortedDesc(s[1..], key);
      InsertWithKey(s[1..], x, key, k);
      assert Insert(s, x, key) == [s[0]] + t;
      WithKeyAppend([s[0]], t, key, k);
      assert [s[0]] + s[1..] == s;
      WithKeyAppend([s[0]], s[1..], key, k);
      assert WithKey([s[0]], key, k) + (WithKey(s[1..], key, k) + hx)
          == (WithKey([s[0]], key, k) + WithKey(s[1..], key, k)) + hx;
    }
  }

  lemma WithKeySingle<T>(x: T, key: T -> int, k: int)
    ensures WithKey([x], key, k) == if key(x) == k then [x] else []
  {
    assert [x][1..] == [];
  }

  /** Inserting in front of a descending sequence: only `x` can carry a key above the head's. */
  lemma InsertWithKeyFront<T>(s: seq<T>, x: T, key: T -> int, k: int)
    requires SortedDesc(s, key) && s != [] && key(s[0]) < key(x)
    ensures WithKey(Insert(s, x, key), key, k) == WithKey(s, key, k) + (if key(x) == k then [x] else [])
  {
    assert Insert(s, x, key) == [x] + s;
    WithKeyAppend([x], s, key, k);
    WithKeySingle(x, key, k);
    if key(x) == k {
      NoneBelowWithKey(s, key, k);
    }
  }

  /** In a descending sequence whose head has a key below `k`, nothing has key `k`. */
  lemma {:induction false} NoneBelowWithKey<T>(s: seq<T>, key: T -> int, k: int)
    requires SortedDesc(s, key) && s != [] && key(s[0]) < k
    ensures WithKey(s, key, k) == []
  {
    if |s| > 1 {
      assert SortedDesc(s[1..], key);
      NoneBelowWithKey(s[1..], key, k);
    }
  }

  lemma {:induction false} WithKeyAppend<T>(a: seq<T>, b: seq<T>, key: T -> int, k: int)
    ensures WithKey(a + b, key, k) == WithKey(a, key, k) + WithKey(b, key, k)
  {
    if a == [] {
      assert a + b == b;
    } else {
      var c := a + b;
      var h := if key(a[0]) == k then [a[0]] else [];
      assert c != [] && c[0] == a[0];
      assert c[1..] == a[1..] + b;
      WithKeyAppend(a[1..], b, key, k);
      assert WithKey(c, key, k) == h + WithKey(c[1..], key, k);
      assert WithKey(a, key, k) == h + WithKey(a[1..], key, k);
      assert h + (WithKey(a[1..], key, k) + WithKey(b, key, k)) == (h + WithKey(a[1..], key, k)) + WithKey(b, key, k);
    }
  }

  /** The sort's result is descending, a permutation of the input, and stable. */
  lemma {:induction false} SortDescSpec<T>(s: seq<T>, key: T -> int)
    ensures SortedDesc(SortDesc(s, key), key)
    ensures multiset(SortDesc(s, key)) == multiset(s)
    ensures forall k :: WithKey(SortDesc(s, key), key, k) == WithKey(s, key, k)
  {
    if s != [] {
      var init, last := s[..|s| - 1], s[|s| - 1];
      SortDescSpec(init, key);
      InsertSorted(SortDesc(init, key), last, key);
      InsertMultiset(SortDesc(init, key), last, key);
      assert s == init + [last];
      forall k ensures WithKey(SortDesc(s, key), key, k) == WithKey(s, key, k) {
        InsertWithKey(SortDesc(init, key), last, key, k);
        WithKeyAppend(init, [last], key, k);
      }
    }
  }

  /** Where `Insert` puts `x` in a descending sequence: at the first position whose key is below. */
  lemma {:induction false} InsertAt<T>(s: seq<T>, x: T, key: T -> int, j: nat)
    requires j <= |s|
    requires forall m :: 0 <= m < j ==> key(s[m]) >= key(x)
    requires j == |s| || key(s[j]) < key(x)
    ensures Insert(s, x, key) == s[..j] + [x] + s[j..]
  {
    if j > 0 {
      InsertAt(s[1..], x, key, j - 1);
      assert s[..j] == [s[0]] + s[1..][..j - 1];
      assert s[j..] == s[1..][j - 1..];
    }
  }

  /** Moves `a[i]` left past every element of the sorted prefix `a[..i]` whose key is smaller. */
  method InsertLast<T>(a: array<T>, i: nat, key: T -> int)
    requires i < a.Length
    requires SortedDesc(a[..i], key)
    modifies a
    ensures a[..i + 1] == Insert(old(a[..i]), old(a[i]), key)
    ensures a[i + 1..] == old(a[i + 1..])
  {
    ghost var sorted := a[..i];
    var x := a[i];
    var j := ShiftSmaller(a, i, key);
    a[j] := x;
    InsertPosition(sorted, x, key, j);
    ShiftedIsInserted(a[..i + 1], sorted, x, j);
    assert a[i + 1..] == old(a[i + 1..]);
  }

  /**
   * The shifting loop of `InsertLast`: moves every element just before position `i` whose key is
   * below `key(a[i])` one place right, and returns the position left free.
   */
  method ShiftSmaller<T>(a: array<T>, i: nat, key: T -> int) returns (j: nat)
    requires i < a.Length
    modifies a
    ensures j <= i
    ensures forall m :: 0 <= m < j ==> a[m] == old(a[m])
    ensures forall m :: j < m <= i ==> a[m] == old(a[m - 1])
    ensures forall m :: i < m < a.Length ==> a[m] == old(a[m])
    ensures forall m :: j <= m < i ==> key(old(a[m])) < key(old(a[i]))
    ensures j > 0 ==> key(old(a[j - 1])) >= key(old(a[i]))
  {
    ghost var before := a[..];
    var x := a[i];
    j := i;
    while j > 0 && key(a[j - 1]) < key(x)
      invariant 0 <= j <= i
      invariant forall m :: 0 <= m < j ==> a[m] == before[m]
      invariant forall m :: j < m <= i ==> a[m] == before[m - 1]
      invariant forall m :: i < m < a.Length ==> a[m] == before[m]
      invariant forall m :: j <= m < i ==> key(before[m]) < key(x)
    {
      a[j] := a[j - 1];
      j := j - 1;
    }
  }

  /** A sequence that agrees with `sorted` before `j`, holds `x` at `j` and `sorted` shifted by one after. */
  lemma ShiftedIsInserted<T>(b: seq<T>, sorted: seq<T>, x: T, j: nat)
    requires |b| == |sorted| + 1 && j <= |sorted|
    requires forall m :: 0 <= m < j ==> b[m] == sorted[m]
    requires b[j] == x
    requires forall m :: j < m < |b| ==> b[m] == sorted[m - 1]
    ensures b == sorted[..j] + [x] + sorted[j..]
  {
    var inserted := sorted[..j] + [x] + sorted[j..];
    forall m | 0 <= m < |b| ensures b[m] == inserted[m] {
      if m > j {
        assert inserted[m] == sorted[m - 1];
      }
    }
  }

  /** Where the shifting loop of `InsertLast` stops is where `Insert` places `x`. */
  lemma InsertPosition<T>(sorted: seq<T>, x: T, key: T -> int, j: nat)
    requires SortedDesc(sorted, key) && j <= |sorted|
    requires j > 0 ==> key(sorted[j - 1]) >= key(x)
    requires forall m :: j <= m < |sorted| ==> key(sorted[m]) < key(x)
    ensures Insert(sorted, x, key) == sorted[..j] + [x] + sorted[j..]
  {
    forall m | 0 <= m < j ensures key(sorted[m]) >= key(x) {
      assert key(sorted[m]) >= key(sorted[j - 1]);
    }
    InsertAt(sorted, x, key, j);
  }

  /** Sorts `a` in place, stably, in descending order of `key`. */
  method SortInPlace<T>(a: array<T>, key: T -> int)
    modifies a
    ensures a[..] == SortDesc(old(a[..]), key)
  {
    ghost var input := a[..];
    var i := 0;
    while i < a.Length
      invariant 0 <= i <= a.Length
      invariant a[..i] == SortDesc(input[..i], key)
      invariant a[i..] == input[i..]
    {
      SortDescSpec(input[..i], key);
      InsertLast(a, i, key);
      assert input[..i + 1][..i] == input[..i];
      i := i + 1;
    }
    assert input[..a.Length] == input;
  }

  /**
   * The first `n` of the sorted sequence are the top `n`: no element left out has a larger key
   * than one kept.
   */
  lemma TakeSortedIsTop<T>(s: seq<T>, key: T -> int, n: nat)
    ensures forall a, b :: a in s && a !in Take(SortDesc(s, key), n) && b in Take(SortDesc(s, key), n) ==>
      key(a) <= key(b)
  {
    var sorted := SortDesc(s, key);
    var r := Take(sorted, n);
    SortDescSpec(s, key);
    forall a, b | a in s && a !in r && b in r ensures key(a) <= key(b) {
      assert a in multiset(sorted);
      var i :| 0 <= i < |sorted| && sorted[i] == a;
      var j :| 0 <= j < |r| && r[j] == b;
      assert i >= |r|;
      assert key(sorted[j]) >= key(sorted[i]);
    }
  }

  /**
   * Cutting the sorted sequence keeps stability: the kept elements of each key are the first
   * ones of that key in the input, in input order.
   */
  lemma TakeSortedStable<T>(s: seq<T>, key: T -> int, n: nat, k: int)
    ensures IsPrefix(WithKey(Take(SortDesc(s, key), n), key, k), WithKey(s, key, k))
  {
    var sorted := SortDesc(s, key);
    var m := |Take(sorted, n)|;
    SortDescSpec(s, key);
    assert sorted == sorted[..m] + sorted[m..];
    WithKeyAppend(sorted[..m], sorted[m..], key, k);
  }

  /** Every element of the sorted cut comes from the input, as often as there. */
  lemma TakeSortedFromInput<T>(s: seq<T>, key: T -> int, n: nat)
    ensures multiset(Take(SortDesc(s, key), n)) <= multiset(s)
  {
    var sorted := SortDesc(s, key);
    var m := |Take(sorted, n)|;
    SortDescSpec(s, key);
    assert sorted == sorted[..m] + sorted[m..];
  }

  /** A window `[skip, skip + limit)` of the sorted sequence is sorted and made of input elements. */
  lemma SortedWindow<T>(s: seq<T>, key: T -> int, skip: nat, limit: nat)
    ensures var w := Take(Drop(SortDesc(s, key), skip), limit);
      && |w| == (if |s| <= skip then 0 else if |s| - skip < limit then |s| - skip else limit)
      && SortedDesc(w, key)
      && multiset(w) <= multiset(s)
  {
    SortDescSpec(s, key);
    WindowSorted(SortDesc(s, key), key, skip, limit);
    WindowMultiset(SortDesc(s, key), skip, limit);
  }

  lemma WindowSorted<T>(sorted: seq<T>, key: T -> int, skip: nat, limit: nat)
    requires SortedDesc(sorted, key)
    ensures SortedDesc(Take(Drop(sorted, skip), limit), key)
  {
    var d := Drop(sorted, skip);
    var w := Take(d, limit);
    var k := |sorted| - |d|;
    forall i, j | 0 <= i < j < |w| ensures key(w[i]) >= key(w[j]) {
      assert w[i] == sorted[k + i] && w[j] == sorted[k + j];
    }
  }

  lemma WindowMultiset<T>(s: seq<T>, skip: nat, limit: nat)
    ensures multiset(Take(Drop(s, skip), limit)) <= multiset(s)
  {
    var d := Drop(s, skip);
    var w := Take(d, limit);
    var k := |s| - |d|;
    assert d == w + d[|w|..];
    assert s == s[..k] + d;
  }
}
