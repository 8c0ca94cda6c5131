/** Doubly linked lists with two sentinels, rewired in place (lib/kernel/list.c).

    Each operation takes, as ghost arguments, the chain of elements it works in
    and the positions of its pointer arguments in that chain.  The order of the
    elements is given by `less`, which depends only on which elements it gets:
    the enclosing structures are not changed by a list operation. */
module KernelList {
  import opened MergeSpec

  class Elem {
    var prev: Elem?
    var next: Elem?

    constructor ()
      ensures prev == null && next == null
    {
      prev, next := null, null;
    }
  }

  /** The elements of c, sentinels included, are linked in this order in both
      directions. */
  ghost predicate Chain(c: seq<Elem>)
    reads c
  {
    && |c| >= 2
    && (forall i, j :: 0 <= i < j < |c| ==> c[i] != c[j])
    && c[0].prev == null && c[|c| - 1].next == null
    && (forall i {:trigger c[i].next} :: 0 <= i < |c| - 1 ==> c[i].next == c[i + 1])
    && (forall i {:trigger c[i].prev} :: 0 < i < |c| ==> c[i].prev == c[i - 1])
  }

  ghost function Elements(c: seq<Elem>): set<Elem> {
    set x | x in c
  }

  /** All elements of c lie in `nodes`, the part of the heap a sort may rewire. */
  ghost predicate Inside(c: seq<Elem>, nodes: set<Elem>) {
    forall x :: x in c ==> x in nodes
  }

  ghost predicate Disjoint(s: seq<Elem>, t: seq<Elem>) {
    forall m, n :: 0 <= m < |s| && 0 <= n < |t| ==> s[m] != t[n]
  }

  // ----- Insertion, removal, splicing

  /** list_insert(): links elem just before c[i]. */
  method ListInsert(before: Elem, elem: Elem, ghost c: seq<Elem>, ghost i: nat)
    requires Chain(c) && 0 < i < |c| && before == c[i] && elem !in c
    modifies c[i - 1], c[i], elem
    ensures Chain(c[..i] + [elem] + c[i..])
  {
    elem.prev := before.prev;
    elem.next := before;
    before.prev.next := elem;
    before.prev := elem;
    ghost var d := c[..i] + [elem] + c[i..];
    assert forall m :: 0 <= m < i ==> d[m] == c[m];
    assert forall m {:trigger d[m]} :: i < m < |d| ==> d[m] == c[m - 1];
  }

  /** list_remove(): unlinks c[i] and returns its successor. */
  method ListRemove(elem: Elem, ghost c: seq<Elem>, ghost i: nat) returns (next: Elem)
    requires Chain(c) && 0 < i < |c| - 1 && elem == c[i]
    modifies c[i - 1], c[i + 1]
    ensures Chain(c[..i] + c[i + 1..]) && next == c[i + 1]
  {
    elem.prev.next := elem.next;
    elem.next.prev := elem.prev;
    next := elem.next;
    ghost var d := c[..i] + c[i + 1..];
    assert forall m :: 0 <= m < i ==> d[m] == c[m];
    assert forall m {:trigger d[m]} :: i <= m < |d| ==> d[m] == c[m + 1];
  }

  /** Consecutive elements of s are linked to each other. */
  ghost predicate Linked(s: seq<Elem>)
    reads s
  {
    && (forall i {:trigger s[i].next} :: 0 <= i < |s| - 1 ==> s[i].next == s[i + 1])
    && (forall i {:trigger s[i].prev} :: 0 < i < |s| ==> s[i].prev == s[i - 1])
  }

  lemma {:induction false} LinkedConcat(s: seq<Elem>, t: seq<Elem>)
    requires Linked(s) && Linked(t) && s != [] && t != []
    requires s[|s| - 1].next == t[0] && t[0].prev == s[|s| - 1]
    ensures Linked(s + t)
  {
    var u := s + t;
    forall i | 0 <= i < |u| - 1 ensures u[i].next == u[i + 1] {
    }
    forall i | 0 < i < |u| ensures u[i].prev == u[i - 1] {
    }
  }

  /** First half of list_splice(): unlinks c[j..k], whose inner links stay. */
  method Unsplice(first: Elem, last: Elem, ghost c: seq<Elem>, ghost j: nat, ghost k: nat)
    requires Chain(c) && 0 < j < k < |c| && first == c[j] && last == c[k - 1]
    modifies c[j - 1], c[k]
    ensures Chain(c[..j] + c[k..]) && Linked(c[j..k])
  {
    first.prev.next := last.next;
    last.next.prev := first.prev;
    ghost var d := c[..j] + c[k..];
    assert forall m :: 0 <= m < j ==> d[m] == c[m];
    assert forall m {:trigger d[m]} :: j <= m < |d| ==> d[m] == c[m + (k - j)];
  }

  /** Second half of list_splice(): links the run s in just before e[i]. */
  method SpliceIn(before: Elem, first: Elem, last: Elem, ghost e: seq<Elem>, ghost i: nat, ghost s: seq<Elem>)
    requires Chain(e) && 0 < i < |e| && before == e[i]
    requires Linked(s) && s != [] && first == s[0] && last == s[|s| - 1]
    requires Disjoint(s, e) && forall m, n :: 0 <= m < n < |s| ==> s[m] != s[n]
    modifies e[i - 1], e[i], first, last
    ensures Chain(e[..i] + s + e[i..])
  {
    first.prev := before.prev;
    last.next := before;
    before.prev.next := first;
    before.prev := last;
    ghost var d := e[..i] + s + e[i..];
    assert Linked(s);
    LinkedConcat(e[..i], s);
    LinkedConcat(e[..i] + s, e[i..]);
  }

  /** list_splice(): moves c[j..k] to just before e[i], where e is the rest of
      the same list or another list. */
  method ListSplice(before: Elem, first: Elem, last: Elem,
                    ghost c: seq<Elem>, ghost j: nat, ghost k: nat, ghost e: seq<Elem>, ghost i: nat)
    requires Chain(c) && 0 < j <= k < |c| && first == c[j] && last == c[k]
    requires e == c[..j] + c[k..] || (Chain(e) && Disjoint(c, e))
    requires 0 < i < |e| && before == e[i]
    modifies c, e
    ensures Chain(e[..i] + c[j..k] + e[i..])
    ensures Disjoint(c, e) ==> Chain(c[..j] + c[k..])
  {
    if first == last {
      assert j == k;
      assert e[..i] + c[j..k] + e[i..] == e && c[..j] + c[k..] == c;
      return;
    }
    var last' := last.prev;
    Unsplice(first, last', c, j, k);
    SpliceIn(before, first, last', e, i, c[j..k]);
  }

  // ----- Merge sort

  /** find_end_of_run(): walks from s[0] to the end of its nondecreasing run,
      not beyond post[0]. */
  method FindEndOfRun(a: Elem, b: Elem, less: (Elem, Elem) -> bool, ghost pre: seq<Elem>, ghost s: seq<Elem>,
      ghost post: seq<Elem>)
    returns (r: Elem, ghost j: nat)
    requires Chain(pre + s + post) && s != [] && post != [] && a == s[0] && b == post[0]
    ensures j == RunEnd(less, s, 0) && r == (s + post)[j]
  {
    ghost var c := pre + s + post;
    assert forall m :: 0 <= m < |s| ==> c[|pre| + m] == s[m];
    assert c[|pre|] == a && c[|pre| + |s|] == b;
    r := a.next;
    j := 1;
    while r != b && !less(r, r.prev)
      invariant 0 < j <= |s| && r == c[|pre| + j]
      invariant RunEnd(less, s, 0) == if j < |s| && !less(s[j], s[j - 1]) then RunEnd(less, s, j) else j
      decreases |s| - j
    {
      r := r.next;
      j := j + 1;
    }
  }

  /** Splices y, which lies before `after`, back to just before a0 == xs[0]. */
  method MoveBack(a0: Elem, after: Elem, ghost pre: seq<Elem>, ghost xs: seq<Elem>, ghost y: Elem,
      ghost rest: seq<Elem>, ghost nodes: set<Elem>)
    requires Chain(pre + xs + [y] + rest) && pre != [] && xs != [] && rest != []
    requires a0 == xs[0] && after == rest[0] && Inside(pre + xs + [y] + rest, nodes)
    modifies nodes
    ensures Chain(pre + [y] + xs + rest) && Inside(pre + [y] + xs + rest, nodes)
  {
    ghost var c, q := pre + xs + [y] + rest, |pre| + |xs|;
    ghost var e := pre + xs + rest;
    MoveBackPieces(pre, xs, y, rest, c, e, q);
    ListSplice(a0, after.prev, after, c, q, q + 1, e, |pre|);
  }

  lemma {:induction false} MoveBackPieces(pre: seq<Elem>, xs: seq<Elem>, y: Elem, rest: seq<Elem>, c: seq<Elem>,
      e: seq<Elem>, q: nat)
    requires c == pre + xs + [y] + rest && e == pre + xs + rest && q == |pre| + |xs| && xs != [] && rest != []
    ensures c[..q] + c[q + 1..] == e && c[q..q + 1] == [y] && c[q] == y && c[q + 1] == rest[0] && e[|pre|] == xs[0]
    ensures e[..|pre|] + [y] + e[|pre|..] == pre + [y] + xs + rest
    ensures forall x :: x in e ==> x in c
    ensures forall x :: x in pre + [y] + xs + rest ==> x in c
  {
  }

  /** inplace_merge(): the two adjacent runs x and y become their stable merge;
      nothing else moves. */
  method InplaceMerge(a: Elem, m: Elem, b1: Elem, less: (Elem, Elem) -> bool, ghost pre: seq<Elem>,
      ghost x: seq<Elem>, ghost y: seq<Elem>, ghost post: seq<Elem>, ghost nodes: set<Elem>)
    requires Chain(pre + x + (y + post)) && pre != [] && x != [] && y != [] && post != []
    requires a == x[0] && m == y[0] && b1 == post[0] && Inside(pre + x + (y + post), nodes)
    requires Nondecreasing(less, x) && Nondecreasing(less, y)
    modifies nodes
    ensures Chain(pre + Merge(less, x, y) + post) && Inside(pre + Merge(less, x, y) + post, nodes)
  {
    var a0, a1b0 := a, m;
    ghost var front, xs, ys := pre, x, y;
    while a0 != a1b0 && a1b0 != b1
      invariant front != [] && Chain(front + xs + (ys + post)) && Inside(front + xs + (ys + post), nodes)
      invariant front + Merge(less, xs, ys) == pre + Merge(less, x, y)
      invariant a0 == (xs + (ys + post))[0] && a1b0 == (ys + post)[0]
      decreases |xs| + |ys|
    {
      FrontsDiffer(front, xs, ys, post);
      if !less(a1b0, a0) {
        TakeLeft(less, front, xs, ys, ys + post);
        NextIs(front, xs + (ys + post));
        a0 := a0.next;
        front, xs := front + [xs[0]], xs[1..];
      } else {
        TakeRight(less, front, xs, ys, post);
        NextIs(front + xs, ys + post);
        a1b0 := a1b0.next;
        MoveBack(a0, a1b0, front, xs, ys[0], ys[1..] + post, nodes);
        front, ys := front + [ys[0]], ys[1..];
      }
    }
    FrontsDiffer(front, xs, ys, post);
    MergeEnds(less, front, xs, ys, post);
  }

  lemma {:induction false} TakeLeft(less: (Elem, Elem) -> bool, front: seq<Elem>, xs: seq<Elem>, ys: seq<Elem>,
      rest: seq<Elem>)
    requires xs != [] && ys != [] && !less(ys[0], xs[0])
    ensures front + xs == (front + [xs[0]]) + xs[1..]
    ensures front + Merge(less, xs, ys) == (front + [xs[0]]) + Merge(less, xs[1..], ys)
    ensures front + xs + rest == front + (xs + rest)
  {
    Assoc(front, [xs[0]], Merge(less, xs[1..], ys));
    assert xs == [xs[0]] + xs[1..];
    Assoc(front, [xs[0]], xs[1..]);
    Assoc(front, xs, rest);
  }

  lemma {:induction false} Assoc(a: seq<Elem>, b: seq<Elem>, c: seq<Elem>)
    ensures a + (b + c) == (a + b) + c
  {
  }

  lemma {:induction false} TakeRight(less: (Elem, Elem) -> bool, front: seq<Elem>, xs: seq<Elem>, ys: seq<Elem>,
      post: seq<Elem>)
    requires xs != [] && ys != [] && less(ys[0], xs[0])
    ensures front + xs + (ys + post) == front + xs + [ys[0]] + (ys[1..] + post)
    ensures front + Merge(less, xs, ys) == (front + [ys[0]]) + Merge(less, xs, ys[1..])
  {
    Assoc(front, [ys[0]], Merge(less, xs, ys[1..]));
    assert ys + post == [ys[0]] + (ys[1..] + post);
  }

  lemma {:induction false} MergeEnds(less: (Elem, Elem) -> bool, front: seq<Elem>, xs: seq<Elem>, ys: seq<Elem>,
      post: seq<Elem>)
    requires xs == [] || ys == []
    ensures front + xs + (ys + post) == front + Merge(less, xs, ys) + post
  {
  }

  lemma {:induction false} FrontsDiffer(front: seq<Elem>, xs: seq<Elem>, ys: seq<Elem>, post: seq<Elem>)
    requires Chain(front + xs + (ys + post)) && post != []
    ensures (xs + (ys + post))[0] == (ys + post)[0] <==> xs == []
    ensures (ys + post)[0] == post[0] <==> ys == []
  {
    var c := front + xs + (ys + post);
    assert c[|front|] == (xs + (ys + post))[0] && c[|front| + |xs|] == (ys + post)[0];
    assert c[|front| + |xs| + |ys|] == post[0];
  }

  lemma {:induction false} NextIs(pre: seq<Elem>, s: seq<Elem>)
    requires Chain(pre + s) && |s| >= 2
    ensures s[0].next == s[1]
  {
    var c := pre + s;
    assert c[|pre|] == s[0] && c[|pre| + 1] == s[1];
  }

  /** One iteration of a pass of list_sort(): locates the run at the start of s
      and the next one and merges them, or reports that there is no next one. */
  method MergeNextRuns(a0: Elem, end: Elem, less: (Elem, Elem) -> bool,
                       ghost front: seq<Elem>, ghost s: seq<Elem>, ghost dom: set<Elem>, ghost nodes: set<Elem>)
    returns (last: bool, b1: Elem, ghost front': seq<Elem>, ghost s': seq<Elem>)
    requires Chain(front + s + [end]) && Inside(front + s + [end], nodes)
    requires front != [] && s != [] && a0 == s[0]
    requires StrictWeakOrder(less, dom) && Within(s, dom)
    modifies nodes
    ensures Chain(front' + s' + [end]) && Inside(front' + s' + [end], nodes)
    ensures front' != [] && front'[0] == front[0] && |s'| < |s| && b1 == (s' + [end])[0] && Within(s', dom)
    ensures front' + Pass(less, s') == front + Pass(less, s)
    ensures PassCount(less, s) == 1 + PassCount(less, s')
    ensures last ==> s' == []
  {
    ghost var i;
    var a1b0;
    a1b0, i := FindEndOfRun(a0, end, less, front, s, [end]);
    EndIsLast(front, s, end, i);
    if a1b0 == end {
      assert s[i..] == [];
      assert front + s + [] + [end] == front + s + [end];
      return true, end, front + s, [];
    }
    b1, front', s' := MergeSecondRun(a0, a1b0, end, less, front, s, i, dom, nodes);
    last := false;
  }

  /** The run s[..i] is merged with the one after it. */
  method MergeSecondRun(a0: Elem, a1b0: Elem, end: Elem, less: (Elem, Elem) -> bool, ghost front: seq<Elem>,
      ghost s: seq<Elem>, ghost i: nat, ghost dom: set<Elem>, ghost nodes: set<Elem>)
    returns (b1: Elem, ghost front': seq<Elem>, ghost s': seq<Elem>)
    requires Chain(front + s + [end]) && Inside(front + s + [end], nodes)
    requires front != [] && s != [] && a0 == s[0] && i < |s| && i == RunEnd(less, s, 0) && a1b0 == s[i]
    requires StrictWeakOrder(less, dom) && Within(s, dom)
    modifies nodes
    ensures Chain(front' + s' + [end]) && Inside(front' + s' + [end], nodes)
    ensures front' != [] && front'[0] == front[0] && |s'| < |s| && b1 == (s' + [end])[0] && Within(s', dom)
    ensures front' + Pass(less, s') == front + Pass(less, s)
    ensures PassCount(less, s) == 1 + PassCount(less, s')
  {
    ghost var j;
    ghost var t := s[i..];
    RunsApart(front, s, i, [end]);
    b1, j := FindEndOfRun(a1b0, end, less, front + s[..i], t, [end]);
    MergedRuns(less, dom, s, i, t, j);
    RunsApart(front + s[..i], t, j, [end]);
    SortedIsNondecreasing(less, s[..i]);
    SortedIsNondecreasing(less, t[..j]);
    InplaceMerge(a0, a1b0, b1, less, front, s[..i], t[..j], t[j..] + [end], nodes);
    ghost var m := Merge(less, s[..i], t[..j]);
    front', s' := front + m, t[j..];
    Regroup(front, m, s', [end]);
    Regroup(front, m, Pass(less, s'), []);
  }

  lemma {:induction false} EndIsLast(front: seq<Elem>, s: seq<Elem>, end: Elem, i: nat)
    requires Chain(front + s + [end]) && i <= |s|
    ensures (s + [end])[i] == end <==> i == |s|
  {
    var c := front + s + [end];
    assert c[|front| + i] == (s + [end])[i] && c[|front| + |s|] == end;
  }

  lemma {:induction false} RunsApart(front: seq<Elem>, s: seq<Elem>, i: nat, post: seq<Elem>)
    requires i <= |s|
    ensures front + s[..i] + (s[i..] + post) == front + s + post == front + s[..i] + s[i..] + post
    ensures i < |s| ==> (s + post)[i] == s[i..][0]
    ensures i == |s| ==> s[i..] + post == post
    ensures s + post == s[..i] + (s[i..] + post)
  {
    assert s == s[..i] + s[i..];
  }

  lemma {:induction false} Regroup(a: seq<Elem>, b: seq<Elem>, c: seq<Elem>, d: seq<Elem>)
    ensures a + b + (c + d) == (a + b) + c + d
    ensures a + (b + c) == (a + b) + c
  {
  }

  lemma {:induction false} SortedIsNondecreasing(less: (Elem, Elem) -> bool, s: seq<Elem>)
    requires Sorted(less, s)
    ensures Nondecreasing(less, s)
  {
  }

  class List {
    const head: Elem
    const tail: Elem
    ghost var elems: seq<Elem>

    ghost function All(): seq<Elem>
      reads this
    {
      [head] + elems + [tail]
    }

    ghost predicate Valid()
      reads this, All()
    {
      Chain(All())
    }

    constructor ()
      ensures Valid() && elems == [] && fresh(head) && fresh(tail)
    {
      head := new Elem();
      tail := new Elem();
      elems := [];
      new;
      head.prev := null;
      head.next := tail;
      tail.prev := head;
      tail.next := null;
    }

    /** One pass of list_sort(): merges adjacent pairs of runs and returns the
        number of runs written. */
    method SortPass(less: (Elem, Elem) -> bool, ghost dom: set<Elem>, ghost nodes: set<Elem>)
        returns (outputRunCnt: nat)
      requires Valid() && StrictWeakOrder(less, dom) && Within(elems, dom) && Inside(All(), nodes)
      modifies this, nodes
      ensures Valid() && Inside(All(), nodes)
      ensures elems == Pass(less, old(elems))
      ensures outputRunCnt == PassCount(less, old(elems))
    {
      outputRunCnt := 0;
      ghost var goal, count := Pass(less, elems), PassCount(less, elems);
      ghost var front, s := [head], elems;
      var a0 := head.next;
      assert All()[1] == (s + [tail])[0];
      while a0 != tail
        invariant Chain(front + s + [tail]) && Inside(front + s + [tail], nodes)
        invariant front != [] && front[0] == head && a0 == (s + [tail])[0] && Within(s, dom)
        invariant front + Pass(less, s) == [head] + goal
        invariant outputRunCnt + PassCount(less, s) == count
        decreases |s|
      {
        outputRunCnt := outputRunCnt + 1;
        var last;
        last, a0, front, s := MergeNextRuns(a0, tail, less, front, s, dom, nodes);
        if last {
          break;
        }
      }
      EndIsLast(front, s, tail, 0);
      assert front + s + [tail] == [head] + goal + [tail];
      elems := goal;
    }

    /** list_sort(): the list ends well linked in both directions, sorted, and
        stable; every pass leaves at most half of the runs, rounded up, so the
        number of passes is bounded and the loop terminates. */
    method Sort(less: (Elem, Elem) -> bool)
      requires Valid() && StrictWeakOrder(less, Elements(elems))
      modifies this, All()
      ensures Valid()
      ensures Sorted(less, elems)
      ensures multiset(elems) == multiset(old(elems))
      ensures SameClasses(less, Elements(old(elems)), elems, old(elems))
    {
      ghost var dom, nodes := Elements(elems), Elements(All());
      while true
        invariant Valid() && Inside(All(), nodes)
        invariant Within(elems, dom)
        invariant SameClasses(less, dom, elems, old(elems))
        decreases Runs(less, elems)
      {
        ghost var s := elems;
        PassElements(less, dom, s);
        PassRuns(less, dom, s);
        PassHalvesRuns(less, s);
        forall x | x in dom ensures Class(less, x, Pass(less, s)) == Class(less, x, s) {
          PassStable(less, dom, s, x);
        }
        var outputRunCnt := SortPass(less, dom, nodes);
        if outputRunCnt <= 1 {
          break;
        }
      }
      OneRunIsSorted(less, dom, elems);
      SameClassesPermutation(less, dom, elems, old(elems));
    }

    /** The first element that elem is less than, or the tail. */
    method FindPlace(elem: Elem, less: (Elem, Elem) -> bool) returns (e: Elem, ghost i: nat)
      requires Valid()
      ensures i <= |elems| && e == All()[i + 1]
      ensures (forall k :: 0 <= k < i ==> !less(elem, elems[k])) && (i < |elems| ==> less(elem, elems[i]))
    {
      ghost var c := All();
      assert forall k :: 0 <= k < |elems| ==> c[k + 1] == elems[k];
      e, i := head.next, 0;
      assert c[1] == e;
      while e != tail && !less(elem, e)
        invariant 0 <= i <= |elems| && e == c[i + 1]
        invariant forall k :: 0 <= k < i ==> !less(elem, elems[k])
        decreases |elems| - i
      {
        assert c[i + 1] == elems[i];
        e, i := e.next, i + 1;
      }
      assert i < |elems| ==> c[i + 1] == elems[i];
    }

    /** list_insert() into this list, as element i. */
    method InsertAt(before: Elem, elem: Elem, ghost i: nat)
      requires Valid() && i <= |elems| && before == All()[i + 1] && elem !in All()
      modifies this, All(), elem
      ensures Valid() && elems == old(elems)[..i] + [elem] + old(elems)[i..]
    {
      InsertedAt(head, elems, tail, i, elem);
      ListInsert(before, elem, All(), i + 1);
      elems := elems[..i] + [elem] + elems[i..];
    }

    /** list_insert_ordered(): elem goes, at index i, behind all elements that it is
        not less than. */
    method InsertOrdered(elem: Elem, less: (Elem, Elem) -> bool) returns (ghost i: nat)
      requires Valid() && elem !in All() && StrictWeakOrder(less, Elements(elems) + {elem}) && Sorted(less, elems)
      modifies this, All(), elem
      ensures Valid() && Sorted(less, elems)
      ensures i <= |old(elems)| && elems == old(elems)[..i] + [elem] + old(elems)[i..]
      ensures forall k :: 0 <= k < |old(elems)| ==> (k < i <==> !less(elem, old(elems)[k]))
    {
      var e;
      e, i := FindPlace(elem, less);
      InsertSorted(less, elems, i, elem);
      InsertAt(e, elem, i);
    }

    /** list_reverse(). */
    method Reverse()
      requires Valid()
      modifies this, All()
      ensures Valid() && |elems| == |old(elems)|
      ensures forall i :: 0 <= i < |elems| ==> elems[i] == old(elems)[|elems| - 1 - i]
    {
      if head.next != tail {
        ghost var c := All();
        ghost var n := |elems|;
        SwapLinks(c);
        assert c[0] == head && c[n + 1] == tail;
        head.next, tail.prev := tail.prev, head.next;
        assert head.next == c[n] && tail.prev == c[1];
        var first, last := head.next, tail.prev;
        var p, q := first.prev, last.next;
        first.prev := q;
        last.next := p;
        elems := seq(n, k requires 0 <= k < n => c[n - k]);
        Reversed(c, All());
      } else {
        assert All()[1] == tail;
        assert |elems| == 0;
      }
    }

    /** The loop of list_reverse(): every element has its two links exchanged. */
    method SwapLinks(ghost c: seq<Elem>)
      requires Valid() && c == All() && elems != []
      modifies All()
      ensures forall k :: 1 <= k < |c| - 1 ==> c[k].prev == c[k + 1] && c[k].next == c[k - 1]
      ensures head.next == c[1] && tail.prev == c[|c| - 2] && head.prev == null && tail.next == null
    {
      var e := head.next;
      ghost var k := 1;
      assert forall j :: 1 <= j < |c| - 1 ==> c[j] == elems[j - 1];
      while e != tail
        invariant 1 <= k < |c| && e == c[k]
        invariant forall j :: 1 <= j < k ==> c[j].prev == c[j + 1] && c[j].next == c[j - 1]
        invariant forall j :: k <= j < |c| - 1 ==> c[j].next == c[j + 1] && c[j].prev == c[j - 1]
        invariant head.next == c[1] && tail.prev == c[|c| - 2] && head.prev == null && tail.next == null
        decreases |c| - k
      {
        e.prev, e.next := e.next, e.prev;
        e := e.prev;
        k := k + 1;
      }
    }
  }

  /** The links of c are those of the reversed list. */
  lemma {:induction false} Reversed(c: seq<Elem>, d: seq<Elem>)
    requires |c| >= 3 && |d| == |c| && (forall i, j :: 0 <= i < j < |c| ==> c[i] != c[j])
    requires d[0] == c[0] && d[|c| - 1] == c[|c| - 1] && forall k :: 1 <= k < |c| - 1 ==> d[k] == c[|c| - 1 - k]
    requires c[0].prev == null && c[|c| - 1].next == null && c[0].next == c[|c| - 2] && c[|c| - 1].prev == c[1]
    requires c[|c| - 2].prev == c[0] && c[1].next == c[|c| - 1]
    requires forall k :: 1 <= k < |c| - 2 ==> c[k].prev == c[k + 1]
    requires forall k :: 1 < k < |c| - 1 ==> c[k].next == c[k - 1]
    ensures Chain(d)
  {
  }

  lemma {:induction false} InsertedAt(head: Elem, s: seq<Elem>, tail: Elem, i: nat, x: Elem)
    requires i <= |s|
    ensures var c := [head] + s + [tail];
            c[..i + 1] + [x] + c[i + 1..] == [head] + (s[..i] + [x] + s[i..]) + [tail]
  {
    var c := [head] + s + [tail];
    assert c[..i + 1] == [head] + s[..i] && c[i + 1..] == s[i..] + [tail];
  }

  lemma {:induction false} InsertSorted(less: (Elem, Elem) -> bool, s: seq<Elem>, i: nat, x: Elem)
    requires StrictWeakOrder(less, Elements(s) + {x}) && Sorted(less, s) && i <= |s|
    requires forall k :: 0 <= k < i ==> !less(x, s[k])
    requires i < |s| ==> less(x, s[i])
    ensures Sorted(less, s[..i] + [x] + s[i..])
    ensures forall k :: i <= k < |s| ==> less(x, s[k])
  {
  }
}
