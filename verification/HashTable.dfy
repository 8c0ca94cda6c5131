/** Unsigned bit operations on natural numbers, as lib/kernel/hash.c uses them. */
module Bits {
  import opened Arithmetic

  /** x & y. */
  function And(x: nat, y: nat): nat {
    if x == 0 || y == 0 then 0 else (if x % 2 == 1 && y % 2 == 1 then 1 else 0) + 2 * And(x / 2, y / 2)
  }

  ghost predicate IsPow2(x: nat) {
    exists k: nat :: x == Pow2(k)
  }

  /** turn_off_least_1bit(). */
  function TurnOffLeast1Bit(x: nat): nat
    requires x > 0
  {
    And(x, x - 1)
  }

  lemma {:induction false} AndSelf(x: nat)
    ensures And(x, x) == x
  {
    if x > 0 { AndSelf(x / 2); }
  }

  lemma {:induction false} AndOdd(x: nat, p: nat)
    requires p > 0
    ensures And(x, 2 * p - 1) == x % 2 + 2 * And(x / 2, p - 1)
  {
    assert (2 * p - 1) % 2 == 1 && (2 * p - 1) / 2 == p - 1;
  }

  /** Masking with 2^k - 1 is the remainder modulo 2^k. */
  lemma {:induction false} AndMask(x: nat, k: nat)
    ensures And(x, Pow2(k) - 1) == x % Pow2(k)
  {
    if k > 0 {
      var p := Pow2(k - 1);
      AndMask(x / 2, k - 1);
      AndOdd(x, p);
      ModDouble(x, p);
    }
  }

  lemma {:induction false} ModDouble(x: nat, p: nat)
    requires p > 0
    ensures x % (2 * p) == x % 2 + 2 * (x / 2 % p)
  {
    DivIsQuot(x / 2, p);
    var q := x / 2 / p;
    QuotRem(x / 2, p, q);
    assert q * (2 * p) == 2 * (q * p) && (q + 1) * (2 * p) == 2 * ((q + 1) * p);
    assert IsQuot(x, 2 * p, q);
    QuotRem(x, 2 * p, q);
  }

  /** Turning off the lowest bit of an odd or even number. */
  lemma {:induction false} TurnOffIs(x: nat)
    requires x > 0
    ensures TurnOffLeast1Bit(x) == if x % 2 == 1 then x - 1 else 2 * TurnOffLeast1Bit(x / 2)
  {
    if x % 2 == 1 {
      AndSelf(x / 2);
    } else {
      assert (x - 1) / 2 == x / 2 - 1;
    }
  }

  /** What is left is smaller; it is nothing just for a power of two; and it still
      has the highest bit otherwise. */
  lemma {:induction false} TurnOff(x: nat, k: nat)
    requires x > 0
    ensures TurnOffLeast1Bit(x) < x
    ensures TurnOffLeast1Bit(x) == 0 <==> IsPow2(x)
    ensures TurnOffLeast1Bit(x) != 0 && x >= Pow2(k) ==> TurnOffLeast1Bit(x) >= Pow2(k)
  {
    LeftSmaller(x);
    NothingLeftIff(x);
    if TurnOffLeast1Bit(x) != 0 && x >= Pow2(k) { HighestLeft(x, k); }
  }

  lemma {:induction false} LeftSmaller(x: nat)
    requires x > 0
    ensures TurnOffLeast1Bit(x) < x
  {
    TurnOffIs(x);
    if x % 2 == 0 { LeftSmaller(x / 2); }
  }

  lemma {:induction false} NothingLeftIff(x: nat)
    requires x > 0
    ensures TurnOffLeast1Bit(x) == 0 <==> IsPow2(x)
  {
    TurnOffIs(x);
    if x % 2 == 1 {
      assert x == 1 ==> x == Pow2(0);
      forall j: nat | j > 0 ensures x != Pow2(j) { assert Pow2(j) % 2 == 0; }
    } else {
      NothingLeftIff(x / 2);
      HalfPow2(x);
    }
  }

  lemma {:induction false} HighestLeft(x: nat, k: nat)
    requires x > 0 && TurnOffLeast1Bit(x) != 0 && x >= Pow2(k)
    ensures TurnOffLeast1Bit(x) >= Pow2(k)
  {
    TurnOffIs(x);
    if x % 2 == 1 {
      assert k > 0 ==> Pow2(k) % 2 == 0;
    } else if k > 0 {
      HighestLeft(x / 2, k - 1);
    }
  }

  lemma {:induction false} HalfPow2(x: nat)
    requires x > 0 && x % 2 == 0
    ensures IsPow2(x) <==> IsPow2(x / 2)
  {
    if IsPow2(x) {
      var k: nat :| x == Pow2(k);
      assert x / 2 == Pow2(k - 1);
    }
    if IsPow2(x / 2) {
      var k: nat :| x / 2 == Pow2(k);
      assert x == Pow2(k + 1);
    }
  }
}

/** The chained hash table (lib/kernel/hash.c). */
module HashTable {
  import opened Basics
  import opened Arithmetic
  import opened Bits

  /** Neither element comes before the other. */
  predicate Equal<T>(less: (T, T) -> bool, a: T, b: T) {
    !less(a, b) && !less(b, a)
  }

  /** The comparison is a strict weak order, and equal elements have equal hashes. */
  ghost predicate Lawful<T(!new)>(hash: T -> nat, less: (T, T) -> bool) {
    && (forall a :: Equal(less, a, a))
    && (forall a, b, c :: Equal(less, a, b) && Equal(less, b, c) ==> Equal(less, a, c))
    && (forall a, b :: Equal(less, a, b) ==> hash(a) == hash(b))
  }

  /** Index of the bucket among n that an element belongs in. */
  function BucketOf<T>(hash: T -> nat, e: T, n: nat): (i: nat)
    requires n > 0
    ensures i < n
  {
    hash(e) % n
  }

  // ----- Buckets as one collection

  function Flatten<T>(buckets: seq<seq<T>>): seq<T> {
    if buckets == [] then [] else buckets[0] + Flatten(buckets[1..])
  }

  lemma {:induction false} FlattenAt<T>(buckets: seq<seq<T>>, i: nat)
    requires i < |buckets|
    ensures Flatten(buckets) == Flatten(buckets[..i]) + buckets[i] + Flatten(buckets[i + 1..])
  {
    if i > 0 {
      FlattenAt(buckets[1..], i - 1);
      assert buckets[1..][..i - 1] == buckets[..i][1..];
      assert buckets[1..][i..] == buckets[i + 1..];
    }
  }

  /** Changing one bucket changes the contents by as much. */
  lemma {:induction false} FlattenUpdate<T>(buckets: seq<seq<T>>, i: nat, b: seq<T>)
    requires i < |buckets|
    ensures multiset(Flatten(buckets[i := b])) + multiset(buckets[i]) == multiset(Flatten(buckets)) + multiset(b)
    ensures |Flatten(buckets[i := b])| + |buckets[i]| == |Flatten(buckets)| + |b|
  {
    FlattenAt(buckets, i);
    FlattenAt(buckets[i := b], i);
    assert buckets[i := b][..i] == buckets[..i] && buckets[i := b][i + 1..] == buckets[i + 1..];
  }

  lemma {:induction false} InFlatten<T>(buckets: seq<seq<T>>, x: T)
    ensures x in Flatten(buckets) <==> exists i :: 0 <= i < |buckets| && x in buckets[i]
  {
    if buckets != [] {
      InFlatten(buckets[1..], x);
      if x in Flatten(buckets[1..]) {
        var i :| 0 <= i < |buckets[1..]| && x in buckets[1..][i];
        assert x in buckets[i + 1];
      }
      if i: nat :| i < |buckets| && x in buckets[i] {
        if i > 0 { assert x in buckets[1..][i - 1]; }
      }
    }
  }

  /** Every element is in the bucket it belongs in. */
  ghost predicate Bucketed<T>(buckets: seq<seq<T>>, hash: T -> nat) {
    |buckets| > 0 && forall i, x :: 0 <= i < |buckets| && x in buckets[i] ==> BucketOf(hash, x, |buckets|) == i
  }

  /** No two elements are equal. */
  ghost predicate Unique<T>(m: multiset<T>, less: (T, T) -> bool) {
    forall x, y :: x in m && y in m && Equal(less, x, y) ==> x == y && m[x] == 1
  }

  lemma {:induction false} Cancel<T>(a: multiset<T>, b: multiset<T>, c: multiset<T>)
    requires a + c == b + c
    ensures a == b
  {
    assert a == a + c - c;
    assert b == b + c - c;
  }

  lemma {:induction false} BucketedUpdate<T>(b: seq<seq<T>>, hash: T -> nat, i: nat, c: seq<T>)
    requires Bucketed(b, hash) && i < |b| && forall x :: x in c ==> BucketOf(hash, x, |b|) == i
    ensures Bucketed(b[i := c], hash)
  {
  }

  lemma {:induction false} FlattenPush<T>(b: seq<seq<T>>, i: nat, e: T)
    requires i < |b|
    ensures multiset(Flatten(b[i := [e] + b[i]])) == multiset(Flatten(b)) + multiset{e}
  {
    FlattenUpdate(b, i, [e] + b[i]);
    assert multiset([e] + b[i]) == multiset{e} + multiset(b[i]);
    Cancel(multiset(Flatten(b[i := [e] + b[i]])), multiset(Flatten(b)) + multiset{e}, multiset(b[i]));
  }

  /** list_push_front() into the bucket that e belongs in. */
  lemma {:induction false} Push<T>(b: seq<seq<T>>, hash: T -> nat, e: T)
    requires Bucketed(b, hash)
    ensures var i := BucketOf(hash, e, |b|);
            && Bucketed(b[i := [e] + b[i]], hash)
            && multiset(Flatten(b[i := [e] + b[i]])) == multiset(Flatten(b)) + multiset{e}
  {
    var i := BucketOf(hash, e, |b|);
    BucketedUpdate(b, hash, i, [e] + b[i]);
    FlattenPush(b, i, e);
  }

  // ----- Rehashing

  function Empty<T>(n: nat): (b: seq<seq<T>>)
    ensures |b| == n && forall i :: 0 <= i < n ==> b[i] == []
  {
    if n == 0 then [] else Empty(n - 1) + [[]]
  }

  lemma {:induction false} FlattenEmpty<T>(buckets: seq<seq<T>>)
    requires forall i :: 0 <= i < |buckets| ==> buckets[i] == []
    ensures Flatten(buckets) == []
  {
    if buckets != [] { FlattenEmpty(buckets[1..]); }
  }

  /** The elements of s pushed, one after the other, to the front of their buckets. */
  function Spread<T>(s: seq<T>, hash: T -> nat, n: nat): (b: seq<seq<T>>)
    requires n > 0
    ensures |b| == n
  {
    if s == [] then Empty(n)
    else
      var b := Spread(s[..|s| - 1], hash, n);
      var e := s[|s| - 1];
      var i := BucketOf(hash, e, n);
      b[i := [e] + b[i]]
  }

  lemma {:induction false} SpreadOk<T>(s: seq<T>, hash: T -> nat, n: nat)
    requires n > 0
    ensures Bucketed(Spread(s, hash, n), hash)
    ensures multiset(Flatten(Spread(s, hash, n))) == multiset(s)
  {
    if s == [] {
      FlattenEmpty(Spread(s, hash, n));
    } else {
      var t, e := s[..|s| - 1], s[|s| - 1];
      SpreadOk(t, hash, n);
      Push(Spread(t, hash, n), hash, e);
      assert s == t + [e];
    }
  }

  /** The number of buckets that suits cnt elements: the greatest power of two not
      above cnt / 2, but at least 4. */
  ghost predicate Suits(n: nat, cnt: nat) {
    IsPow2(n) && var x := if cnt / 2 < 4 then 4 else cnt / 2; n <= x < 2 * n
  }

  method NewBucketCnt(elemCnt: nat) returns (n: nat)
    ensures n >= 4 && Suits(n, elemCnt)
  {
    n := elemCnt / 2;
    if n < 4 { n := 4; }
    ghost var x := n;
    ghost var k := HighBit(x);
    assert Pow2(2) == 4;
    while n == 0 || TurnOffLeast1Bit(n) != 0
      invariant 4 <= n <= x && n >= Pow2(k)
      decreases n
    {
      TurnOff(n, 2);
      TurnOff(n, k);
      n := TurnOffLeast1Bit(n);
    }
    TurnOff(n, 0);
    PowerBetween(n, k);
  }

  lemma {:induction false} HighBit(x: nat) returns (k: nat)
    requires x > 0
    ensures Pow2(k) <= x < Pow2(k + 1)
  {
    k := 0;
    while Pow2(k + 1) <= x
      invariant Pow2(k) <= x
      decreases x - Pow2(k)
    {
      k := k + 1;
    }
  }

  lemma {:induction false} PowerBetween(n: nat, k: nat)
    requires IsPow2(n) && Pow2(k) <= n < Pow2(k + 1)
    ensures n == Pow2(k)
  {
    var j: nat :| n == Pow2(j);
    if j < k { Pow2Monotone(j + 1, k); } else if j > k { Pow2Monotone(k + 1, j); }
  }

  lemma {:induction false} Remove<T>(b: seq<seq<T>>, hash: T -> nat, i: nat, e: T)
    requires Bucketed(b, hash) && i < |b| && e in b[i]
    ensures Bucketed(b[i := Removed(b[i], e)], hash)
    ensures multiset(Flatten(b)) == multiset(Flatten(b[i := Removed(b[i], e)])) + multiset{e}
  {
    var c := Removed(b[i], e);
    RemovedBag(b[i], e);
    BucketedUpdate(b, hash, i, c);
    FlattenUpdate(b, i, c);
    Cancel(multiset(Flatten(b[i := c])) + multiset{e}, multiset(Flatten(b)), multiset(c));
  }

  /** An element is equal to at most one in the table, which is in its bucket. */
  lemma {:induction false} EqualInBucket<T(!new)>(b: seq<seq<T>>, hash: T -> nat, less: (T, T) -> bool, e: T, x: T)
    requires Lawful(hash, less) && Bucketed(b, hash) && x in multiset(Flatten(b)) && Equal(less, x, e)
    ensures x in b[BucketOf(hash, e, |b|)]
  {
    InFlatten(b, x);
    var i :| 0 <= i < |b| && x in b[i];
    assert BucketOf(hash, x, |b|) == i;
  }

  lemma {:induction false} UniqueAdd<T(!new)>(hash: T -> nat, m: multiset<T>, less: (T, T) -> bool, e: T)
    requires Lawful(hash, less) && Unique(m, less) && forall x :: x in m ==> !Equal(less, x, e)
    ensures Unique(m + multiset{e}, less)
  {
    assert e !in m;
  }

  lemma {:induction false} UniqueLess<T>(m: multiset<T>, less: (T, T) -> bool, e: T)
    requires Unique(m + multiset{e}, less)
    ensures Unique(m, less)
  {
    forall x, y | x in m && y in m && Equal(less, x, y) ensures x == y && m[x] == 1 {
      assert x in m + multiset{e} && y in m + multiset{e};
    }
  }

  /** The next element goes to the front of its bucket. */
  lemma {:induction false} SpreadNext<T>(s: seq<T>, e: T, hash: T -> nat, n: nat)
    requires n > 0
    ensures var i, b := BucketOf(hash, e, n), Spread(s, hash, n); Spread(s + [e], hash, n) == b[i := [e] + b[i]]
  {
    assert (s + [e])[..|s|] == s;
  }

  /** The low bits of a hash choose among a power of two of buckets. */
  method Masked(hash: nat, n: nat) returns (i: nat)
    requires IsPow2(n) && n > 0
    ensures i == hash % n
  {
    ghost var k: nat :| n == Pow2(k);
    AndMask(hash, k);
    i := And(hash, n - 1);
  }

  class Hash<T(==, !new)> {
    const hash: T -> nat
    const less: (T, T) -> bool
    var buckets: seq<seq<T>>
    var elemCnt: nat

    ghost function Contents(): multiset<T>
      reads this`buckets
    {
      multiset(Flatten(buckets))
    }

    ghost predicate Shaped()
      reads this`buckets
    {
      Lawful(hash, less) && |buckets| >= 4 && IsPow2(|buckets|) && Bucketed(buckets, hash)
    }

    ghost predicate Valid()
      reads this
    {
      Shaped() && Unique(Contents(), less) && elemCnt == |Contents()|
    }

    /** Four empty buckets. */
    constructor (hash: T -> nat, less: (T, T) -> bool)
      requires Lawful(hash, less)
      ensures Valid() && Contents() == multiset{} && |buckets| == 4 && this.hash == hash && this.less == less
    {
      this.hash, this.less := hash, less;
      buckets, elemCnt := Empty(4), 0;
      new;
      FlattenEmpty(buckets);
      assert Pow2(2) == 4;
    }

    /** hash_init(), given whether there is memory for the buckets. */
    static method Init(hash: T -> nat, less: (T, T) -> bool, memory: bool) returns (r: Option<Hash<T>>)
      requires Lawful(hash, less)
      ensures r.Some? <==> memory
      ensures r.Some? ==>
        && fresh(r.value) && r.value.Valid() && r.value.Contents() == multiset{} && |r.value.buckets| == 4
        && r.value.hash == hash && r.value.less == less
    {
      if !memory { return None; }
      var h := new Hash(hash, less);
      r := Some(h);
    }

    /** find_bucket(). */
    method FindBucket(e: T) returns (i: nat)
      requires Shaped()
      ensures i == BucketOf(hash, e, |buckets|)
    {
      i := Masked(hash(e), |buckets|);
    }

    /** find_elem(). */
    method FindElem(i: nat, e: T) returns (r: Option<T>)
      requires i < |buckets|
      ensures r.Some? ==> r.value in buckets[i] && Equal(less, r.value, e)
      ensures r.None? ==> forall x :: x in buckets[i] ==> !Equal(less, x, e)
    {
      for j := 0 to |buckets[i]|
        invariant forall a :: 0 <= a < j ==> !Equal(less, buckets[i][a], e)
      {
        var hi := buckets[i][j];
        if !less(hi, e) && !less(e, hi) { return Some(hi); }
      }
      return None;
    }

    /** hash_find(). */
    method Find(e: T) returns (r: Option<T>)
      requires Valid()
      ensures r.Some? ==> r.value in Contents() && Equal(less, r.value, e)
      ensures r.None? ==> forall x :: x in Contents() ==> !Equal(less, x, e)
    {
      var i := FindBucket(e);
      r := FindElem(i, e);
      Found(i, e, r);
    }

    lemma {:induction false} Found(i: nat, e: T, r: Option<T>)
      requires Shaped() && i == BucketOf(hash, e, |buckets|)
      requires r.Some? ==> r.value in buckets[i] && Equal(less, r.value, e)
      requires r.None? ==> forall x :: x in buckets[i] ==> !Equal(less, x, e)
      ensures r.Some? ==> r.value in Contents()
      ensures r.None? ==> forall x :: x in Contents() ==> !Equal(less, x, e)
    {
      if r.Some? {
        InFlatten(buckets, r.value);
      } else {
        forall x | x in Contents() ensures !Equal(less, x, e) {
          if Equal(less, x, e) { EqualInBucket(buckets, hash, less, e, x); }
        }
      }
    }

    /** insert_elem() into the bucket of an element that equals none in the table. */
    method InsertElem(i: nat, e: T)
      requires Valid() && i == BucketOf(hash, e, |buckets|)
      requires forall x :: x in Contents() ==> !Equal(less, x, e)
      modifies this
      ensures Valid() && Contents() == old(Contents()) + multiset{e} && |buckets| == |old(buckets)|
    {
      Push(buckets, hash, e);
      UniqueAdd(hash, Contents(), less, e);
      elemCnt := elemCnt + 1;
      buckets := buckets[i := [e] + buckets[i]];
    }

    /** remove_elem(). */
    method RemoveElem(i: nat, e: T)
      requires Valid() && i < |buckets| && e in buckets[i]
      modifies this
      ensures Valid() && old(Contents()) == Contents() + multiset{e} && |buckets| == |old(buckets)|
    {
      Remove(buckets, hash, i, e);
      elemCnt := elemCnt - 1;
      buckets := buckets[i := Removed(buckets[i], e)];
      UniqueLess(Contents(), less, e);
    }

    /** The elements of an old bucket move to where they now belong. */
    method MoveBucket(b: seq<T>, n: nat, ghost done: seq<T>)
      requires n > 0 && IsPow2(n) && buckets == Spread(done, hash, n)
      modifies this`buckets
      ensures buckets == Spread(done + b, hash, n)
    {
      assert done + b[..0] == done;
      for j := 0 to |b|
        invariant buckets == Spread(done + b[..j], hash, n)
      {
        SpreadNext(done + b[..j], b[j], hash, n);
        assert done + b[..j] + [b[j]] == done + b[..j + 1];
        var k := Masked(hash(b[j]), n);
        buckets := buckets[k := [b[j]] + buckets[k]];
      }
      assert b[..|b|] == b;
    }

    /** All elements move to n new buckets. */
    method MoveAll(n: nat)
      requires n > 0 && IsPow2(n)
      modifies this`buckets
      ensures buckets == Spread(Flatten(old(buckets)), hash, n)
    {
      var oldBuckets := buckets;
      buckets := Empty(n);
      for i := 0 to |oldBuckets|
        invariant buckets == Spread(Flatten(oldBuckets[..i]), hash, n)
      {
        FlattenNext(oldBuckets, i);
        MoveBucket(oldBuckets[i], n, Flatten(oldBuckets[..i]));
      }
      assert oldBuckets[..|oldBuckets|] == oldBuckets;
    }

    /** rehash(): without memory for new buckets, the old ones are kept. */
    method Rehash(memory: bool)
      requires Valid()
      modifies this`buckets
      ensures Valid() && Contents() == old(Contents())
      ensures if memory then Suits(|buckets|, elemCnt) else buckets == old(buckets)
    {
      var n := NewBucketCnt(elemCnt);
      if n == |buckets| || !memory { return; }
      SpreadOk(Flatten(buckets), hash, n);
      MoveAll(n);
    }

    /** hash_insert(): the equal element that was there is returned. */
    method Insert(e: T, memory: bool) returns (r: Option<T>)
      requires Valid()
      modifies this
      ensures Valid() && if memory then Suits(|buckets|, elemCnt) else |buckets| == |old(buckets)|
      ensures r.Some? ==> r.value in old(Contents()) && Equal(less, r.value, e) && Contents() == old(Contents())
      ensures r.None? ==>
        (forall x :: x in old(Contents()) ==> !Equal(less, x, e)) && Contents() == old(Contents()) + multiset{e}
    {
      var i := FindBucket(e);
      r := FindElem(i, e);
      Found(i, e, r);
      if r.None? { InsertElem(i, e); }
      Rehash(memory);
    }

    /** hash_replace(). */
    method Replace(e: T, memory: bool) returns (r: Option<T>)
      requires Valid()
      modifies this
      ensures Valid() && if memory then Suits(|buckets|, elemCnt) else |buckets| == |old(buckets)|
      ensures r.Some? ==>
        r.value in old(Contents()) && Equal(less, r.value, e)
          && Contents() == old(Contents()) - multiset{r.value} + multiset{e}
      ensures r.None? ==>
        (forall x :: x in old(Contents()) ==> !Equal(less, x, e)) && Contents() == old(Contents()) + multiset{e}
    {
      var i := FindBucket(e);
      r := FindElem(i, e);
      Found(i, e, r);
      if r.Some? {
        RemoveElem(i, r.value);
        NoneLeft(hash, old(Contents()), Contents(), less, r.value, e);
      }
      InsertElem(i, e);
      Rehash(memory);
    }

    /** hash_delete(). */
    method Delete(e: T, memory: bool) returns (r: Option<T>)
      requires Valid()
      modifies this
      ensures Valid() && if memory && r.Some? then Suits(|buckets|, elemCnt) else |buckets| == |old(buckets)|
      ensures r.Some? ==>
        r.value in old(Contents()) && Equal(less, r.value, e) && Contents() == old(Contents()) - multiset{r.value}
      ensures r.None? ==>
        (forall x :: x in old(Contents()) ==> !Equal(less, x, e)) && buckets == old(buckets) && elemCnt == old(elemCnt)
    {
      var i := FindBucket(e);
      r := FindElem(i, e);
      Found(i, e, r);
      if r.Some? {
        RemoveElem(i, r.value);
        Rehash(memory);
      }
    }
  }

  lemma {:induction false} FlattenNext<T>(b: seq<seq<T>>, i: nat)
    requires i < |b|
    ensures Flatten(b[..i + 1]) == Flatten(b[..i]) + b[i]
  {
    FlattenAt(b[..i + 1], i);
    assert b[..i + 1][..i] == b[..i] && b[..i + 1][i + 1..] == [];
  }

  /** Once the element equal to e is gone, none is. */
  lemma {:induction false} NoneLeft<T(!new)>(hash: T -> nat, m: multiset<T>, rest: multiset<T>, less: (T, T) -> bool,
      x: T, e: T)
    requires Lawful(hash, less) && Unique(m, less) && m == rest + multiset{x} && Equal(less, x, e)
    ensures forall y :: y in rest ==> !Equal(less, y, e)
  {
    assert x in m && Equal(less, x, x);
    assert m[x] == 1 && x !in rest;
    forall y | y in rest ensures !Equal(less, y, e) {
      assert y in m && y != x;
      assert !Equal(less, y, x) && Equal(less, e, x);
    }
  }

  // ----- Iteration

  /** A hash_iterator: what follows the current element. */
  class HashIterator<T(==, !new)> {
    const table: Hash<T>
    var bucket: nat
    var elem: nat                          // position of the next element in the bucket

    /** Holds until the table is changed or the end was reached. */
    ghost predicate Valid()
      reads this, table`buckets
    {
      bucket < |table.buckets| && elem <= |table.buckets[bucket]|
    }

    /** The elements still to come. */
    ghost function Rest(): seq<T>
      requires Valid()
      reads this, table`buckets
    {
      table.buckets[bucket][elem..] + Flatten(table.buckets[bucket + 1..])
    }

    /** hash_first(). */
    constructor (table: Hash<T>)
      requires table.Shaped()
      ensures this.table == table && Valid() && Rest() == Flatten(table.buckets)
    {
      this.table, bucket, elem := table, 0, 0;
    }

    /** hash_next(); once it has returned nothing, it must not be called again. */
    method Next() returns (r: Option<T>)
      requires Valid()
      modifies this
      ensures r.None? <==> old(Rest()) == []
      ensures r.Some? ==> Valid() && old(Rest()) == [r.value] + Rest()
    {
      while elem == |table.buckets[bucket]|
        invariant Valid() && Rest() == old(Rest())
        decreases |table.buckets| - bucket
      {
        bucket, elem := bucket + 1, 0;
        if bucket == |table.buckets| { return None; }
      }
      r := Some(table.buckets[bucket][elem]);
      elem := elem + 1;
    }
  }

  /** The idiom of walking over a table. */
  method Collect<T(==, !new)>(h: Hash<T>) returns (out: seq<T>)
    requires h.Shaped()
    ensures out == Flatten(h.buckets)
  {
    out := [];
    ghost var all := Flatten(h.buckets);
    var it := new HashIterator(h);
    var next := it.Next();
    while next.Some?
      invariant it.table == h && fresh(it)
      invariant next.Some? ==> it.Valid() && all == out + [next.value] + it.Rest()
      invariant next.None? ==> all == out
      decreases |all| - |out|, next.Some?
    {
      out := out + [next.value];
      next := it.Next();
    }
  }

  /** Every element of the table comes out, and no two that do are equal. */
  method Walk<T(==, !new)>(h: Hash<T>) returns (out: seq<T>)
    requires h.Valid()
    ensures multiset(out) == h.Contents() && |out| == h.elemCnt
    ensures forall i, j :: 0 <= i < j < |out| ==> !Equal(h.less, out[i], out[j])
  {
    out := Collect(h);
    DistinctOut(h.less, out);
  }

  /** Elements that are unique as a collection are pairwise different in a sequence. */
  lemma {:induction false} DistinctOut<T>(less: (T, T) -> bool, out: seq<T>)
    requires Unique(multiset(out), less)
    ensures forall i, j :: 0 <= i < j < |out| ==> !Equal(less, out[i], out[j])
  {
    forall i, j | 0 <= i < j < |out| ensures !Equal(less, out[i], out[j]) {
      assert out[i] in multiset(out) && out[j] in multiset(out);
      if out[i] == out[j] { CountedTwice(out, i, j); }
    }
  }

  lemma {:induction false} CountedTwice<T>(s: seq<T>, i: nat, j: nat)
    requires i < j < |s| && s[i] == s[j]
    ensures multiset(s)[s[i]] >= 2
  {
    assert s == s[..j] + [s[j]] + s[j + 1..];
    assert s[..j][i] in multiset(s[..j]);
  }
}
