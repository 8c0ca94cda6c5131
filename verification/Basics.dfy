/** Notions shared by all parts of the model. */
module Basics {
  /** A value that may be missing: the source's null pointers and error returns. */
  datatype Option<+T> = None | Some(value: T)

  type byte = x: int | 0 <= x < 256

  const PGSIZE: nat := 4096                // bytes in a page

  /** No element occurs twice. */
  ghost predicate NoDup<T>(s: seq<T>) {
    forall i, j :: 0 <= i < j < |s| ==> s[i] != s[j]
  }

  /** list_remove(): s without the first x. */
  function Removed<T(==)>(s: seq<T>, x: T): (r: seq<T>)
    ensures forall y :: y in r ==> y in s
    ensures forall y :: y in s && y != x ==> y in r
  {
    if s == [] then [] else if s[0] == x then s[1..] else [s[0]] + Removed(s[1..], x)
  }

  lemma {:induction false} RemovedOnce<T>(s: seq<T>, x: T)
    requires NoDup(s)
    ensures NoDup(Removed(s, x)) && x !in Removed(s, x)
  {
    if s != [] && s[0] != x {
      RemovedOnce(s[1..], x);
      assert s[0] !in s[1..];
    }
  }

  lemma {:induction false} RemovedBag<T>(s: seq<T>, x: T)
    requires x in s
    ensures multiset(s) == multiset(Removed(s, x)) + multiset{x}
  {
    assert s == [s[0]] + s[1..];
    if s[0] != x {
      RemovedBag(s[1..], x);
    }
  }
}
