/** sort() and binary_search() of lib/stdlib.c: an in-place heap sort with one-based
    indexes, and a search in sorted arrays. */
module HeapSort {
  import opened Basics

  /** A strcmp()-type comparison: consistent when its arguments are exchanged, and
      transitive. */
  ghost predicate Lawful<T(!new)>(compare: (T, T) -> int) {
    && (forall a, b :: compare(a, b) > 0 <==> compare(b, a) < 0)
    && (forall a, b, c :: compare(a, b) <= 0 && compare(b, c) <= 0 ==> compare(a, c) <= 0)
  }

  ghost predicate Sorted<T>(s: seq<T>, compare: (T, T) -> int) {
    forall i, j :: 0 <= i < j < |s| ==> compare(s[i], s[j]) <= 0
  }

  // ----- Heaps

  /** Element with one-based index c is not above its parent. */
  ghost predicate Under<T>(s: seq<T>, c: nat, compare: (T, T) -> int)
    requires 2 <= c <= |s|
  {
    compare(s[c - 1], s[c / 2 - 1]) <= 0
  }

  /** In the first cnt elements, no child of an element from index lo on is above it,
      except maybe the children of `hole`. */
  ghost predicate Heap<T>(s: seq<T>, lo: nat, cnt: nat, hole: nat, compare: (T, T) -> int) {
    cnt <= |s| && forall c :: 2 <= c <= cnt && c / 2 >= lo && c / 2 != hole ==> Under(s, c, compare)
  }

  /** The children of `hole` are not above its parent. */
  ghost predicate Bridged<T>(s: seq<T>, lo: nat, cnt: nat, hole: nat, compare: (T, T) -> int) {
    cnt <= |s| && forall c :: 2 <= c <= cnt && c / 2 == hole && hole >= 2 && hole / 2 >= lo ==>
      compare(s[c - 1], s[hole / 2 - 1]) <= 0
  }

  function Swapped<T>(s: seq<T>, i: nat, j: nat): (r: seq<T>)
    requires i < |s| && j < |s|
  {
    s[i := s[j]][j := s[i]]
  }

  lemma {:induction false} SwappedElements<T>(s: seq<T>, i: nat, j: nat, n: nat)
    requires i < n <= |s| && j < n
    ensures multiset(Swapped(s, i, j)[..n]) == multiset(s[..n])
    ensures forall k :: n <= k < |s| ==> Swapped(s, i, j)[k] == s[k]
  {
    var t := s[..n];
    assert Swapped(s, i, j)[..n] == Swapped(t, i, j);
  }

  /** Exchanging an element with its greatest child moves the hole there. */
  lemma {:induction false} FloatDown<T(!new)>(s: seq<T>, lo: nat, cnt: nat, i: nat, m: nat, compare: (T, T) -> int)
    requires Lawful(compare) && 1 <= lo <= i && (m == 2 * i || m == 2 * i + 1) && m <= cnt <= |s|
    requires Heap(s, lo, cnt, i, compare) && Bridged(s, lo, cnt, i, compare)
    requires compare(s[m - 1], s[i - 1]) > 0
    requires forall c :: 2 <= c <= cnt && c / 2 == i ==> compare(s[c - 1], s[m - 1]) <= 0
    ensures var r := Swapped(s, i - 1, m - 1); Heap(r, lo, cnt, m, compare) && Bridged(r, lo, cnt, m, compare)
  {
    var r := Swapped(s, i - 1, m - 1);
    forall c | 2 <= c <= cnt && c / 2 >= lo && c / 2 != m ensures Under(r, c, compare) {
      FloatOne(s, r, lo, cnt, i, m, c, compare);
    }
    forall c | 2 <= c <= cnt && c / 2 == m ensures compare(r[c - 1], r[m / 2 - 1]) <= 0 {
      assert Under(s, c, compare);
      assert r[c - 1] == s[c - 1] && r[m / 2 - 1] == s[m - 1];
    }
  }

  /** One child c and its parent after the exchange. */
  lemma {:induction false} FloatOne<T(!new)>(s: seq<T>, r: seq<T>, lo: nat, cnt: nat, i: nat, m: nat, c: nat,
      compare: (T, T) -> int)
    requires Lawful(compare) && 1 <= lo <= i && (m == 2 * i || m == 2 * i + 1) && m <= cnt <= |s|
    requires Heap(s, lo, cnt, i, compare) && Bridged(s, lo, cnt, i, compare)
    requires compare(s[m - 1], s[i - 1]) > 0
    requires forall c :: 2 <= c <= cnt && c / 2 == i ==> compare(s[c - 1], s[m - 1]) <= 0
    requires r == Swapped(s, i - 1, m - 1) && 2 <= c <= cnt && c / 2 >= lo && c / 2 != m
    ensures Under(r, c, compare)
  {
    if c == m {
      assert r[c - 1] == s[i - 1] && r[c / 2 - 1] == s[m - 1];
    } else if c / 2 == i {
      assert r[c - 1] == s[c - 1] && r[c / 2 - 1] == s[m - 1];
    } else if c == i {
      assert m / 2 == i && compare(s[m - 1], s[i / 2 - 1]) <= 0;
      assert r[c - 1] == s[m - 1] && r[c / 2 - 1] == s[c / 2 - 1];
    } else {
      assert Under(s, c, compare);
      assert r[c - 1] == s[c - 1] && r[c / 2 - 1] == s[c / 2 - 1];
    }
  }

  /** The hole is closed when its children are not above it. */
  lemma {:induction false} CloseHole<T>(s: seq<T>, lo: nat, cnt: nat, i: nat, compare: (T, T) -> int)
    requires Heap(s, lo, cnt, i, compare) && forall c :: 2 <= c <= cnt && c / 2 == i ==> Under(s, c, compare)
    ensures Heap(s, lo, cnt, 0, compare)
  {
  }

  /** Index of the greatest among an element and its children. */
  method MaxOf<T(!new)>(a: array<T>, k: nat, cnt: nat, compare: (T, T) -> int) returns (max: nat)
    requires Lawful(compare) && 1 <= k && cnt <= a.Length
    ensures max == k || (k < max <= cnt && (max == 2 * k || max == 2 * k + 1) && compare(a[max - 1], a[k - 1]) > 0)
    ensures forall c :: 2 <= c <= cnt && c / 2 == k ==> compare(a[c - 1], a[max - 1]) <= 0
  {
    var left, right := 2 * k, 2 * k + 1;
    max := k;
    if left <= cnt && compare(a[left - 1], a[max - 1]) > 0 { max := left; }
    if right <= cnt && compare(a[right - 1], a[max - 1]) > 0 { max := right; }
    assert forall c :: 2 <= c <= cnt && c / 2 == k ==> c == left || c == right;
    assert left <= cnt ==> compare(a[left - 1], a[left - 1]) <= 0;
  }

  /** do_swap() of two of the first cnt elements. */
  method DoSwap<T>(a: array<T>, i: nat, j: nat, cnt: nat)
    requires 1 <= i <= cnt && 1 <= j <= cnt <= a.Length
    modifies a
    ensures a[..] == Swapped(old(a[..]), i - 1, j - 1)
    ensures multiset(a[..cnt]) == old(multiset(a[..cnt]))
    ensures forall k :: cnt <= k < a.Length ==> a[k] == old(a[k])
  {
    SwappedElements(a[..], i - 1, j - 1, cnt);
    a[i - 1], a[j - 1] := a[j - 1], a[i - 1];
    assert a[..cnt] == a[..][..cnt];
  }

  /** One round of heapify(): the hole at k is closed, or moves to a child. */
  method FloatStep<T(!new)>(a: array<T>, i: nat, k: nat, cnt: nat, compare: (T, T) -> int) returns (max: nat)
    requires Lawful(compare) && 1 <= i <= k && cnt <= a.Length
    requires Heap(a[..], i, cnt, k, compare) && Bridged(a[..], i, cnt, k, compare)
    modifies a
    ensures max == k ==> Heap(a[..], i, cnt, 0, compare)
    ensures max != k ==> k < max <= cnt && Heap(a[..], i, cnt, max, compare) && Bridged(a[..], i, cnt, max, compare)
    ensures multiset(a[..cnt]) == old(multiset(a[..cnt]))
    ensures forall j :: cnt <= j < a.Length ==> a[j] == old(a[j])
  {
    max := MaxOf(a, k, cnt, compare);
    if max == k {
      CloseHole(a[..], i, cnt, k, compare);
    } else {
      FloatDown(a[..], i, cnt, k, max, compare);
      DoSwap(a, k, max, cnt);
    }
  }

  /** heapify(): "floats down" the element with one-based index i. */
  method Heapify<T(!new)>(a: array<T>, i: nat, cnt: nat, compare: (T, T) -> int)
    requires Lawful(compare) && 1 <= i && cnt <= a.Length
    requires Heap(a[..], i, cnt, i, compare)
    modifies a
    ensures Heap(a[..], i, cnt, 0, compare)
    ensures multiset(a[..cnt]) == old(multiset(a[..cnt]))
    ensures forall k :: cnt <= k < a.Length ==> a[k] == old(a[k])
  {
    var k := i;
    while true
      invariant i <= k
      invariant Heap(a[..], i, cnt, k, compare) && Bridged(a[..], i, cnt, k, compare)
      invariant multiset(a[..cnt]) == old(multiset(a[..cnt]))
      invariant forall j :: cnt <= j < a.Length ==> a[j] == old(a[j])
      decreases cnt - k
    {
      var max := FloatStep(a, i, k, cnt, compare);
      if max == k { break; }
      k := max;
    }
  }

  /** The first element of a heap is the greatest. */
  lemma {:induction false} Root<T(!new)>(s: seq<T>, cnt: nat, c: nat, compare: (T, T) -> int)
    requires Lawful(compare) && Heap(s, 1, cnt, 0, compare) && 1 <= c <= cnt
    ensures compare(s[c - 1], s[0]) <= 0
  {
    if c > 1 {
      Root(s, cnt, c / 2, compare);
      assert Under(s, c, compare);
    } else {
      assert !(compare(s[0], s[0]) > 0);
    }
  }

  /** What lies before n is not above what lies from n on, which is sorted. */
  ghost predicate Split<T>(s: seq<T>, n: nat, compare: (T, T) -> int) {
    && n <= |s| && Sorted(s[n..], compare)
    && forall x, y :: x in s[..n] && y in s[n..] ==> compare(x, y) <= 0
  }

  /** Below its first element the rest is still a heap. */
  lemma {:induction false} HeapNext<T(!new)>(s: seq<T>, n: nat, compare: (T, T) -> int)
    requires 2 <= n <= |s| && Heap(s, 1, n, 0, compare)
    ensures Heap(Swapped(s, 0, n - 1), 1, n - 1, 1, compare)
  {
    var r := Swapped(s, 0, n - 1);
    forall c | 2 <= c <= n - 1 && c / 2 >= 1 && c / 2 != 1 ensures Under(r, c, compare) {
      assert Under(s, c, compare);
    }
  }

  /** The greatest element goes to the end of the unsorted part. */
  lemma {:induction false} SplitNext<T(!new)>(s: seq<T>, n: nat, compare: (T, T) -> int)
    requires Lawful(compare) && 2 <= n <= |s| && Split(s, n, compare) && Heap(s, 1, n, 0, compare)
    ensures Split(Swapped(s, 0, n - 1), n - 1, compare)
  {
    var r := Swapped(s, 0, n - 1);
    assert r[n - 1..] == [s[0]] + s[n..];
    assert s[0] in s[..n];
    forall x | x in r[..n - 1] ensures x in s[..n] && compare(x, s[0]) <= 0 {
      var k: nat :| k < n - 1 && x == r[k];
      if k == 0 {
        Root(s, n, n, compare);
        assert x == s[..n][n - 1];
      } else {
        Root(s, n, k + 1, compare);
        assert x == s[..n][k];
      }
    }
  }

  /** heapify() only moves elements before n around. */
  lemma {:induction false} SplitKept<T>(s: seq<T>, r: seq<T>, n: nat, compare: (T, T) -> int)
    requires Split(s, n, compare) && |r| == |s| && multiset(r[..n]) == multiset(s[..n])
    requires forall k :: n <= k < |s| ==> r[k] == s[k]
    ensures Split(r, n, compare)
  {
    assert r[n..] == s[n..];
    forall x | x in r[..n] ensures x in s[..n] { assert x in multiset(r[..n]); }
  }

  /** sort(): a sorted permutation of the array. */
  method Sort<T(!new)>(a: array<T>, compare: (T, T) -> int)
    requires Lawful(compare)
    modifies a
    ensures Sorted(a[..], compare)
    ensures multiset(a[..]) == old(multiset(a[..]))
  {
    var cnt := a.Length;
    BuildHeap(a, compare);
    var i := cnt;
    assert a[..cnt] == a[..];
    while i > 1
      invariant 0 <= i <= cnt
      invariant Split(a[..], i, compare) && Heap(a[..], 1, i, 0, compare)
      invariant multiset(a[..]) == old(multiset(a[..]))
    {
      SplitNext(a[..], i, compare);
      HeapNext(a[..], i, compare);
      assert a[..cnt] == a[..];
      DoSwap(a, 1, i, cnt);
      assert a[..cnt] == a[..];
      i := i - 1;
      ghost var was := a[..];
      HeapifyRoot(a, i, compare);
      SplitKept(was, a[..], i, compare);
    }
    assert Sorted(a[..], compare) by { OneLeft(a[..], i, compare); }
  }

  lemma {:induction false} OneLeft<T>(s: seq<T>, n: nat, compare: (T, T) -> int)
    requires Split(s, n, compare) && n <= 1
    ensures Sorted(s, compare)
  {
    forall i, j | 0 <= i < j < |s| ensures compare(s[i], s[j]) <= 0 {
      assert s[j] == s[n..][j - n];
      if i >= n { assert s[i] == s[n..][i - n]; } else { assert s[i] == s[..n][i]; }
    }
  }

  /** heapify() of the root, which moves only the first n elements. */
  method HeapifyRoot<T(!new)>(a: array<T>, n: nat, compare: (T, T) -> int)
    requires Lawful(compare) && n <= a.Length && Heap(a[..], 1, n, 1, compare)
    modifies a
    ensures Heap(a[..], 1, n, 0, compare)
    ensures multiset(a[..]) == old(multiset(a[..]))
    ensures multiset(a[..][..n]) == old(multiset(a[..][..n]))
    ensures forall k :: n <= k < a.Length ==> a[k] == old(a[k])
  {
    ghost var was := a[..];
    Heapify(a, 1, n, compare);
    assert a[..] == a[..n] + a[n..] && was == was[..n] + was[n..];
    assert a[n..] == was[n..] && a[..n] == a[..][..n];
  }

  /** The first loop of sort(). */
  method BuildHeap<T(!new)>(a: array<T>, compare: (T, T) -> int)
    requires Lawful(compare)
    modifies a
    ensures Heap(a[..], 1, a.Length, 0, compare)
    ensures multiset(a[..]) == old(multiset(a[..]))
  {
    var cnt := a.Length;
    var i := cnt / 2;
    assert a[..cnt] == a[..];
    while i > 0
      invariant 0 <= i <= cnt / 2
      invariant Heap(a[..], i + 1, cnt, 0, compare)
      invariant multiset(a[..]) == old(multiset(a[..]))
    {
      assert a[..cnt] == a[..];
      Heapify(a, i, cnt, compare);
      assert a[..cnt] == a[..];
      i := i - 1;
    }
  }

  /** binary_search(): the index of a match, which exists if and only if one is found. */
  method BinarySearch<T(!new)>(key: T, a: array<T>, compare: (T, T) -> int) returns (r: Option<nat>)
    requires Lawful(compare) && Sorted(a[..], compare)
    ensures r.Some? ==> r.value < a.Length && compare(key, a[r.value]) == 0
    ensures r.None? ==> forall k :: 0 <= k < a.Length ==> compare(key, a[k]) != 0
  {
    var first, last := 0, a.Length;
    while first < last
      invariant 0 <= first <= last <= a.Length
      invariant forall k :: 0 <= k < first ==> compare(key, a[k]) > 0
      invariant forall k :: last <= k < a.Length ==> compare(key, a[k]) < 0
    {
      var range := last - first;
      var middle := first + range / 2;
      var cmp := compare(key, a[middle]);
      if cmp < 0 {
        forall k | middle <= k < a.Length ensures compare(key, a[k]) < 0 {
          assert k > middle ==> compare(a[..][middle], a[..][k]) <= 0;
          Above(key, a[middle], a[k], compare);
        }
        last := middle;
      } else if cmp > 0 {
        forall k | 0 <= k <= middle ensures compare(key, a[k]) > 0 {
          assert k < middle ==> compare(a[..][k], a[..][middle]) <= 0;
          Above(a[k], a[middle], key, compare);
        }
        first := middle + 1;
      } else {
        return Some(middle);
      }
    }
    return None;
  }

  lemma {:induction false} Above<T(!new)>(x: T, y: T, z: T, compare: (T, T) -> int)
    requires Lawful(compare)
    ensures compare(x, y) < 0 && (y == z || compare(y, z) <= 0) ==> compare(x, z) < 0
    ensures (x == y || compare(x, y) <= 0) && compare(z, y) > 0 ==> compare(z, x) > 0
  {
    assert compare(z, x) <= 0 && compare(x, y) <= 0 ==> compare(z, y) <= 0;
    assert compare(y, z) <= 0 && compare(z, x) <= 0 ==> compare(y, x) <= 0;
  }
}
