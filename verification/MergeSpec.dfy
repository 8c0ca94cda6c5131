/** Sequences under a comparison function: what the list algorithms of
    lib/kernel/list.c mean, independently of pointers. */
module MergeSpec {

  /** `less` is a strict weak order on `dom`: "not greater" is total and
      transitive there. */
  ghost predicate StrictWeakOrder<T>(less: (T, T) -> bool, dom: set<T>) {
    && (forall x, y :: x in dom && y in dom && less(x, y) ==> !less(y, x))
    && (forall x, y, z :: x in dom && y in dom && z in dom && !less(y, x) && !less(z, y) ==> !less(z, x))
  }

  ghost predicate Within<T>(s: seq<T>, dom: set<T>) {
    forall i :: 0 <= i < |s| ==> s[i] in dom
  }

  ghost predicate Sorted<T>(less: (T, T) -> bool, s: seq<T>) {
    forall i, j :: 0 <= i < j < |s| ==> !less(s[j], s[i])
  }

  /** No element is smaller than its predecessor; is_sorted() checks this. */
  ghost predicate Nondecreasing<T>(less: (T, T) -> bool, s: seq<T>) {
    forall i :: 0 < i < |s| ==> !less(s[i], s[i - 1])
  }

  lemma {:induction false} NondecreasingIsSorted<T>(less: (T, T) -> bool, dom: set<T>, s: seq<T>)
    requires StrictWeakOrder(less, dom) && Within(s, dom)
    requires Nondecreasing(less, s)
    ensures Sorted(less, s)
  {
    if |s| > 1 {
      var t := s[..|s| - 1];
      NondecreasingIsSorted(less, dom, t);
      forall i | 0 <= i < |s| - 1 ensures !less(s[|s| - 1], s[i]) {
        if i < |s| - 2 {
          assert !less(t[|s| - 2], t[i]);
          assert !less(s[|s| - 1], s[|s| - 2]);
        }
      }
    }
  }

  // ----- Stability: the subsequence of elements equivalent to x

  /** Elements of s that are neither less nor greater than x, in order.  Two
      sequences with the same Class for every x are permutations of each other
      in which equivalent elements keep their relative order. */
  ghost function Class<T>(less: (T, T) -> bool, x: T, s: seq<T>): seq<T> {
    if s == [] then []
    else (if !less(x, s[0]) && !less(s[0], x) then [s[0]] else []) + Class(less, x, s[1..])
  }

  ghost predicate SameClasses<T>(less: (T, T) -> bool, dom: set<T>, s: seq<T>, t: seq<T>) {
    forall x :: x in dom ==> Class(less, x, s) == Class(less, x, t)
  }

  lemma {:induction false} ClassConcat<T>(less: (T, T) -> bool, x: T, s: seq<T>, t: seq<T>)
    ensures Class(less, x, s + t) == Class(less, x, s) + Class(less, x, t)
  {
    if s == [] {
      assert s + t == t;
    } else {
      assert (s + t)[1..] == s[1..] + t;
      ClassConcat(less, x, s[1..], t);
    }
  }

  lemma {:induction false} ClassSplit<T>(less: (T, T) -> bool, x: T, s: seq<T>, i: nat)
    requires i <= |s|
    ensures Class(less, x, s) == Class(less, x, s[..i]) + Class(less, x, s[i..])
  {
    ClassConcat(less, x, s[..i], s[i..]);
    assert s[..i] + s[i..] == s;
  }

  lemma {:induction false} NoClass<T>(less: (T, T) -> bool, x: T, s: seq<T>)
    requires forall i :: 0 <= i < |s| ==> less(x, s[i]) || less(s[i], x)
    ensures Class(less, x, s) == []
  {
    if s != [] { NoClass(less, x, s[1..]); }
  }

  /** Multiplicities can be read off the class of the element itself. */
  lemma {:induction false} ClassCounts<T>(less: (T, T) -> bool, x: T, s: seq<T>)
    requires !less(x, x)
    ensures multiset(s)[x] == multiset(Class(less, x, s))[x]
  {
    if s != [] {
      ClassCounts(less, x, s[1..]);
      var r := Class(less, x, s[1..]);
      assert s == [s[0]] + s[1..];
      assert multiset(s) == multiset{s[0]} + multiset(s[1..]);
      assert multiset([s[0]] + r) == multiset{s[0]} + multiset(r);
    }
  }

  lemma {:induction false} SameClassesPermutation<T>(less: (T, T) -> bool, dom: set<T>, s: seq<T>, t: seq<T>)
    requires StrictWeakOrder(less, dom) && Within(s, dom) && Within(t, dom)
    requires SameClasses(less, dom, s, t)
    ensures multiset(s) == multiset(t)
  {
    forall x ensures multiset(s)[x] == multiset(t)[x] {
      if x in dom {
        ClassCounts(less, x, s);
        ClassCounts(less, x, t);
      } else {
        assert x !in s && x !in t;
      }
    }
  }

  /** A stable sorted rearrangement is unique, so `Sorted` and `SameClasses`
      together leave no freedom in the result. */
  lemma {:induction false} StableSortUnique<T>(less: (T, T) -> bool, dom: set<T>, s: seq<T>, t: seq<T>)
    requires StrictWeakOrder(less, dom) && Within(s, dom) && Within(t, dom)
    requires Sorted(less, s) && Sorted(less, t) && SameClasses(less, dom, s, t)
    ensures s == t
  {
    SameClassesPermutation(less, dom, s, t);
    if s == [] {
      assert |t| == |multiset(t)| == 0;
    } else {
      assert s[0] in multiset(s);
      assert t != [];
      var x, y := s[0], t[0];
      assert y in multiset(s) && x in multiset(t);
      assert !less(x, y) && !less(y, x);   // each is minimal among the same elements
      assert Class(less, x, s)[0] == x && Class(less, x, t)[0] == y;
      forall z | z in dom ensures Class(less, z, s[1..]) == Class(less, z, t[1..]) {
        var first := if !less(z, x) && !less(x, z) then [x] else [];
        assert Class(less, z, s) == first + Class(less, z, s[1..]);
        assert Class(less, z, t) == first + Class(less, z, t[1..]);
        assert Class(less, z, s)[|first|..] == Class(less, z, t)[|first|..];
      }
      StableSortUnique(less, dom, s[1..], t[1..]);
    }
  }

  // ----- Merging two runs

  ghost function Merge<T>(less: (T, T) -> bool, a: seq<T>, b: seq<T>): seq<T>
    decreases |a| + |b|
  {
    if a == [] then b
    else if b == [] then a
    else if !less(b[0], a[0]) then [a[0]] + Merge(less, a[1..], b)
    else [b[0]] + Merge(less, a, b[1..])
  }

  lemma {:induction false} MergeElements<T>(less: (T, T) -> bool, a: seq<T>, b: seq<T>, dom: set<T>)
    requires Within(a, dom) && Within(b, dom)
    ensures |Merge(less, a, b)| == |a| + |b| && Within(Merge(less, a, b), dom)
    decreases |a| + |b|
  {
    if a != [] && b != [] {
      if !less(b[0], a[0]) {
        MergeElements(less, a[1..], b, dom);
      } else {
        MergeElements(less, a, b[1..], dom);
      }
    }
  }

  /** A lower bound of both inputs bounds the merge. */
  lemma {:induction false} MergeLowerBound<T>(less: (T, T) -> bool, m: T, a: seq<T>, b: seq<T>)
    requires forall i :: 0 <= i < |a| ==> !less(a[i], m)
    requires forall i :: 0 <= i < |b| ==> !less(b[i], m)
    ensures forall i :: 0 <= i < |Merge(less, a, b)| ==> !less(Merge(less, a, b)[i], m)
    decreases |a| + |b|
  {
    if a != [] && b != [] {
      if !less(b[0], a[0]) {
        MergeLowerBound(less, m, a[1..], b);
      } else {
        MergeLowerBound(less, m, a, b[1..]);
      }
    }
  }

  lemma {:induction false} MergeSorted<T>(less: (T, T) -> bool, dom: set<T>, a: seq<T>, b: seq<T>)
    requires StrictWeakOrder(less, dom) && Within(a, dom) && Within(b, dom)
    requires Sorted(less, a) && Sorted(less, b)
    ensures Sorted(less, Merge(less, a, b))
    decreases |a| + |b|
  {
    if a != [] && b != [] {
      if !less(b[0], a[0]) {
        MergeSorted(less, dom, a[1..], b);
        forall i | 0 <= i < |b| ensures !less(b[i], a[0]) {
          assert i > 0 ==> !less(b[i], b[0]);
        }
        MergeLowerBound(less, a[0], a[1..], b);
      } else {
        MergeSorted(less, dom, a, b[1..]);
        forall i | 0 <= i < |a| ensures !less(a[i], b[0]) {
          assert i > 0 ==> !less(a[i], a[0]);
        }
        MergeLowerBound(less, b[0], a, b[1..]);
      }
    }
  }

  /** Merging keeps every class: elements of the first run come first. */
  lemma {:induction false} MergeStable<T>(less: (T, T) -> bool, dom: set<T>, a: seq<T>, b: seq<T>, x: T)
    requires StrictWeakOrder(less, dom) && Within(a, dom) && Within(b, dom) && x in dom
    requires Sorted(less, a)
    ensures Class(less, x, Merge(less, a, b)) == Class(less, x, a) + Class(less, x, b)
    decreases |a| + |b|
  {
    if a != [] && b != [] {
      if !less(b[0], a[0]) {
        MergeStable(less, dom, a[1..], b, x);
      } else {
        MergeStable(less, dom, a, b[1..], x);
        if !less(x, b[0]) && !less(b[0], x) {
          forall i | 0 <= i < |a| ensures less(x, a[i]) {
            assert i > 0 ==> !less(a[i], a[0]);
          }
          NoClass(less, x, a);
        }
      }
    }
  }

  // ----- Runs and one merging pass

  /** End of the maximal nondecreasing run that starts at index i. */
  ghost function RunEnd<T>(less: (T, T) -> bool, s: seq<T>, i: nat): (j: nat)
    requires i < |s|
    ensures i < j <= |s|
    decreases |s| - i
  {
    if i + 1 == |s| || less(s[i + 1], s[i]) then i + 1 else RunEnd(less, s, i + 1)
  }

  lemma {:induction false} InsideRun<T>(less: (T, T) -> bool, s: seq<T>, i: nat, k: nat)
    requires i < k < |s| && k < RunEnd(less, s, i)
    ensures !less(s[k], s[k - 1])
    decreases k - i
  {
    if i + 1 < k { InsideRun(less, s, i + 1, k); }
  }

  lemma {:induction false} RunIsSorted<T>(less: (T, T) -> bool, dom: set<T>, s: seq<T>, i: nat)
    requires StrictWeakOrder(less, dom) && Within(s, dom) && i < |s|
    ensures Within(s[i..RunEnd(less, s, i)], dom)
    ensures Sorted(less, s[i..RunEnd(less, s, i)])
  {
    var r := s[i..RunEnd(less, s, i)];
    forall k | 0 < k < |r| ensures !less(r[k], r[k - 1]) {
      InsideRun(less, s, i, i + k);
    }
    NondecreasingIsSorted(less, dom, r);
  }

  /** Number of maximal nondecreasing runs. */
  ghost function Runs<T>(less: (T, T) -> bool, s: seq<T>): nat
  {
    if s == [] then 0 else 1 + Runs(less, s[RunEnd(less, s, 0)..])
  }

  /** One pass of list_sort(): adjacent pairs of runs are merged. */
  ghost function Pass<T>(less: (T, T) -> bool, s: seq<T>): seq<T>
    decreases |s|
  {
    if s == [] then []
    else
      var i := RunEnd(less, s, 0);
      var t := s[i..];
      if t == [] then s
      else
        var j := RunEnd(less, t, 0);
        Merge(less, s[..i], t[..j]) + Pass(less, t[j..])
  }

  /** Number of output runs list_sort() counts during a pass. */
  ghost function PassCount<T>(less: (T, T) -> bool, s: seq<T>): nat
    decreases |s|
  {
    if s == [] then 0
    else
      var t := s[RunEnd(less, s, 0)..];
      if t == [] then 1 else 1 + PassCount(less, t[RunEnd(less, t, 0)..])
  }

  lemma {:induction false} RunEndSuffix<T>(less: (T, T) -> bool, s: seq<T>, i: nat, k: nat)
    requires k <= i < |s|
    ensures RunEnd(less, s, i) == RunEnd(less, s[k..], i - k) + k
    decreases |s| - i
  {
    var t := s[k..];
    if i + 1 < |s| {
      assert t[i + 1 - k] == s[i + 1] && t[i - k] == s[i];
      if !less(s[i + 1], s[i]) {
        RunEndSuffix(less, s, i + 1, k);
      }
    }
  }

  /** A pass outputs half as many runs as it reads, rounded up. */
  lemma {:induction false} PassHalvesRuns<T>(less: (T, T) -> bool, s: seq<T>)
    ensures PassCount(less, s) == (Runs(less, s) + 1) / 2
    decreases |s|
  {
    if s != [] {
      var t := s[RunEnd(less, s, 0)..];
      if t != [] {
        PassHalvesRuns(less, t[RunEnd(less, t, 0)..]);
      }
    }
  }

  /** Any end with a nondecreasing stretch before it and a descent, or the end
      of the sequence, after it is the end of the run. */
  lemma {:induction false} RunEndUnique<T>(less: (T, T) -> bool, s: seq<T>, i: nat, j: nat)
    requires i < j <= |s|
    requires forall k :: i < k < j ==> !less(s[k], s[k - 1])
    requires j < |s| ==> less(s[j], s[j - 1])
    ensures RunEnd(less, s, i) == j
    decreases j - i
  {
    if i + 1 < j { RunEndUnique(less, s, i + 1, j); }
  }

  lemma {:induction false} SortedIsOneRun<T>(less: (T, T) -> bool, s: seq<T>)
    requires s != [] && Sorted(less, s)
    ensures Runs(less, s) == 1
  {
    RunEndUnique(less, s, 0, |s|);
    assert s[|s|..] == [];
  }

  lemma {:induction false} OneRunIsSorted<T>(less: (T, T) -> bool, dom: set<T>, s: seq<T>)
    requires StrictWeakOrder(less, dom) && Within(s, dom) && Runs(less, s) <= 1
    ensures Sorted(less, s)
  {
    if s != [] {
      var i := RunEnd(less, s, 0);
      assert s[i..] == [];
      assert s[0..i] == s;
      RunIsSorted(less, dom, s, 0);
    }
  }

  /** A run starting in s may extend into t but never ends earlier. */
  lemma {:induction false} RunEndConcat<T>(less: (T, T) -> bool, s: seq<T>, t: seq<T>, i: nat)
    requires i < |s|
    ensures RunEnd(less, s, i) < |s| ==> RunEnd(less, s + t, i) == RunEnd(less, s, i)
    ensures RunEnd(less, s, i) == |s| ==> RunEnd(less, s + t, i) >= |s|
    decreases |s| - i
  {
    if i + 1 < |s| && !less(s[i + 1], s[i]) { RunEndConcat(less, s, t, i + 1); }
  }

  /** Dropping a prefix never increases the number of runs. */
  lemma {:induction false} RunsSuffix<T>(less: (T, T) -> bool, s: seq<T>, k: nat)
    requires k <= |s|
    ensures Runs(less, s[k..]) <= Runs(less, s)
    decreases |s|
  {
    if 0 < k < |s| {
      var i := RunEnd(less, s, 0);
      if k < i {
        SameRun(less, s, 0, k);
        RunEndSuffix(less, s, k, k);
        assert s[k..][i - k..] == s[i..];
      } else {
        RunsSuffix(less, s[i..], k - i);
        assert s[i..][k - i..] == s[k..];
      }
    } else if k == 0 {
      assert s[0..] == s;
    }
  }

  lemma {:induction false} SameRun<T>(less: (T, T) -> bool, s: seq<T>, i: nat, k: nat)
    requires i <= k < |s| && k < RunEnd(less, s, i)
    ensures RunEnd(less, s, k) == RunEnd(less, s, i)
    decreases k - i
  {
    if i < k { SameRun(less, s, i + 1, k); }
  }

  lemma {:induction false} RunsConcat<T>(less: (T, T) -> bool, s: seq<T>, t: seq<T>)
    ensures Runs(less, s + t) <= Runs(less, s) + Runs(less, t)
    decreases |s|
  {
    if s == [] {
      assert s + t == t;
    } else {
      var i := RunEnd(less, s, 0);
      var j := RunEnd(less, s + t, 0);
      RunEndConcat(less, s, t, 0);
      if i < |s| {
        assert (s + t)[i..] == s[i..] + t;
        RunsConcat(less, s[i..], t);
      } else {
        assert (s + t)[j..] == t[j - |s|..];
        RunsSuffix(less, t, j - |s|);
      }
    }
  }

  /** Merging the first two runs yields a single run of the same elements. */
  lemma {:induction false} MergedRuns<T>(less: (T, T) -> bool, dom: set<T>, s: seq<T>, i: nat, t: seq<T>, j: nat)
    requires StrictWeakOrder(less, dom) && Within(s, dom)
    requires s != [] && i == RunEnd(less, s, 0) && t == s[i..] && t != [] && j == RunEnd(less, t, 0)
    ensures Sorted(less, s[..i]) && Sorted(less, t[..j])
    ensures Within(s[..i], dom) && Within(t[..j], dom) && Within(t[j..], dom)
    ensures var m := Merge(less, s[..i], t[..j]); |m| == i + j && Within(m, dom) && Runs(less, m) == 1
  {
    assert s[0..i] == s[..i] && t[0..j] == t[..j];
    RunIsSorted(less, dom, s, 0);
    RunIsSorted(less, dom, t, 0);
    MergeElements(less, s[..i], t[..j], dom);
    MergeSorted(less, dom, s[..i], t[..j]);
    SortedIsOneRun(less, Merge(less, s[..i], t[..j]));
  }

  /** A pass only rearranges. */
  lemma {:induction false} PassElements<T>(less: (T, T) -> bool, dom: set<T>, s: seq<T>)
    requires StrictWeakOrder(less, dom) && Within(s, dom)
    ensures |Pass(less, s)| == |s| && Within(Pass(less, s), dom)
    decreases |s|
  {
    if s != [] {
      var i := RunEnd(less, s, 0);
      var t := s[i..];
      if t != [] {
        var j := RunEnd(less, t, 0);
        MergedRuns(less, dom, s, i, t, j);
        PassElements(less, dom, t[j..]);
      }
    }
  }

  /** A pass leaves at most as many runs as it counts. */
  lemma {:induction false} PassRuns<T>(less: (T, T) -> bool, dom: set<T>, s: seq<T>)
    requires StrictWeakOrder(less, dom) && Within(s, dom)
    ensures Runs(less, Pass(less, s)) <= PassCount(less, s)
    decreases |s|
  {
    if s != [] {
      var i := RunEnd(less, s, 0);
      var t := s[i..];
      if t != [] {
        var j := RunEnd(less, t, 0);
        MergedRuns(less, dom, s, i, t, j);
        PassRuns(less, dom, t[j..]);
        RunsConcat(less, Merge(less, s[..i], t[..j]), Pass(less, t[j..]));
      }
    }
  }

  /** A pass keeps every class of equivalent elements, in order. */
  lemma {:induction false} PassStable<T>(less: (T, T) -> bool, dom: set<T>, s: seq<T>, x: T)
    requires StrictWeakOrder(less, dom) && Within(s, dom) && x in dom
    ensures Class(less, x, Pass(less, s)) == Class(less, x, s)
    decreases |s|
  {
    if s != [] {
      var i := RunEnd(less, s, 0);
      var t := s[i..];
      if t != [] {
        var j := RunEnd(less, t, 0);
        MergedRuns(less, dom, s, i, t, j);
        PassStable(less, dom, t[j..], x);
        MergeStable(less, dom, s[..i], t[..j], x);
        ClassConcat(less, x, Merge(less, s[..i], t[..j]), Pass(less, t[j..]));
        ClassSplit(less, x, s, i);
        ClassSplit(less, x, t, j);
      }
    }
  }
}
