/** Word-packed bitmaps (lib/kernel/bitmap.c) as an implementation of sequences
    of booleans, with the first-fit scan selected at line 18. */
module Bitmaps {
  import opened Basics

  const ELEM_BITS: nat := 32

  // ----- One word

  /** Position of bit i inside its word. */
  function Pos(i: nat): (k: bv5)
    ensures k as nat == i % ELEM_BITS
  {
    (i % ELEM_BITS) as bv5
  }

  predicate TestBit(w: bv32, k: bv5) {
    (w & ((1 as bv32) << k)) != 0
  }

  lemma {:induction false} MarkBit(w: bv32, j: bv5, k: bv5)
    ensures TestBit(w | ((1 as bv32) << j), k) <==> j == k || TestBit(w, k)
  {
  }

  lemma {:induction false} ResetBit(w: bv32, j: bv5, k: bv5)
    ensures TestBit(w & !((1 as bv32) << j), k) <==> j != k && TestBit(w, k)
  {
  }

  /** The word with bit j set: word |= mask. */
  method MarkWord(w: bv32, j: bv5) returns (r: bv32)
    ensures forall k: bv5 :: TestBit(r, k) <==> j == k || TestBit(w, k)
  {
    r := w | ((1 as bv32) << j);
    forall k: bv5 ensures TestBit(r, k) <==> j == k || TestBit(w, k) { MarkBit(w, j, k); }
  }

  /** The word with bit j cleared: word &= ~mask. */
  method ResetWord(w: bv32, j: bv5) returns (r: bv32)
    ensures forall k: bv5 :: TestBit(r, k) <==> j != k && TestBit(w, k)
  {
    r := w & !((1 as bv32) << j);
    forall k: bv5 ensures TestBit(r, k) <==> j != k && TestBit(w, k) { ResetBit(w, j, k); }
  }

  /** Two bits share word and position only if they are the same bit. */
  lemma {:induction false} SameBit(i: nat, j: nat)
    requires i / ELEM_BITS == j / ELEM_BITS && Pos(i) == Pos(j)
    ensures i == j
  {
    assert i % ELEM_BITS == j % ELEM_BITS;
  }

  // ----- Sequences of booleans

  /** cnt bits equal to value start at i. */
  ghost predicate IsGroup(b: seq<bool>, i: nat, cnt: nat, value: bool) {
    i + cnt <= |b| && forall k :: i <= k < i + cnt ==> b[k] == value
  }

  /** b with cnt bits from start set to value. */
  ghost function Filled(b: seq<bool>, start: nat, cnt: nat, value: bool): (r: seq<bool>)
    requires start + cnt <= |b|
    ensures |r| == |b|
    ensures forall k :: 0 <= k < |b| ==> r[k] == if start <= k < start + cnt then value else b[k]
  {
    seq(|b|, k requires 0 <= k < |b| => if start <= k < start + cnt then value else b[k])
  }

  /** The least start of a group at or after `start`, or nothing if there is none. */
  ghost predicate IsFirstFit(b: seq<bool>, start: nat, cnt: nat, value: bool, r: Option<nat>) {
    match r
    case None => forall i :: start <= i ==> !IsGroup(b, i, cnt, value)
    case Some(i) => start <= i && IsGroup(b, i, cnt, value) && forall j :: start <= j < i ==> !IsGroup(b, j, cnt, value)
  }

  predicate InRange(q: nat, p: nat, cnt: nat) {
    p <= q < p + cnt
  }

  /** The numbers p, p + 1, ..., p + cnt - 1. */
  ghost function Range(p: nat, cnt: nat): set<nat> {
    set q: nat | q < p + cnt && InRange(q, p, cnt)
  }

  predicate IsSet(q: nat, first: nat, b: seq<bool>) {
    first <= q < first + |b| && b[q - first]
  }

  /** The numbers whose bit is set, where `first` is the number of bit 0. */
  ghost function SetBits(first: nat, b: seq<bool>): set<nat> {
    set q: nat | q < first + |b| && IsSet(q, first, b)
  }

  lemma {:induction false} FilledBits(first: nat, b: seq<bool>, i: nat, cnt: nat, value: bool)
    requires i + cnt <= |b|
    ensures SetBits(first, Filled(b, i, cnt, value)) ==
            if value then SetBits(first, b) + Range(first + i, cnt)
            else SetBits(first, b) - Range(first + i, cnt)
  {
  }

  // ----- The bitmap

  class Bitmap {
    const bitCnt: nat
    const bits: array<bv32>

    /** A value of the packed words is a sequence of bitCnt booleans. */
    ghost function Bits(): (b: seq<bool>)
      requires Valid()
      reads this, bits
      ensures |b| == bitCnt
      ensures forall i :: 0 <= i < bitCnt ==> b[i] == TestBit(bits[i / ELEM_BITS], Pos(i))
    {
      seq(bitCnt, i requires 0 <= i < bitCnt reads this, bits => TestBit(bits[i / ELEM_BITS], Pos(i)))
    }

    ghost predicate Valid()
      reads this
    {
      bits.Length == (bitCnt + ELEM_BITS - 1) / ELEM_BITS
    }

    /** bitmap_create(): all bits clear. */
    constructor (n: nat)
      ensures Valid() && bitCnt == n && fresh(bits)
      ensures Bits() == seq(n, _ => false)
    {
      bitCnt := n;
      bits := new bv32[(n + ELEM_BITS - 1) / ELEM_BITS];
      new;
      SetAll(false);
      assert Bits() == seq(n, _ => false);
    }

    method Mark(idx: nat)
      requires Valid() && idx < bitCnt
      modifies bits
      ensures Bits() == old(Bits())[idx := true]
    {
      var e := idx / ELEM_BITS;
      var w := MarkWord(bits[e], Pos(idx));
      bits[e] := w;
      forall i | 0 <= i < bitCnt ensures Bits()[i] == old(Bits())[idx := true][i] {
        if i / ELEM_BITS == e && Pos(i) == Pos(idx) { SameBit(i, idx); }
      }
    }

    method Reset(idx: nat)
      requires Valid() && idx < bitCnt
      modifies bits
      ensures Bits() == old(Bits())[idx := false]
    {
      var e := idx / ELEM_BITS;
      var w := ResetWord(bits[e], Pos(idx));
      bits[e] := w;
      forall i | 0 <= i < bitCnt ensures Bits()[i] == old(Bits())[idx := false][i] {
        if i / ELEM_BITS == e && Pos(i) == Pos(idx) { SameBit(i, idx); }
      }
    }

    method Set(idx: nat, value: bool)
      requires Valid() && idx < bitCnt
      modifies bits
      ensures Bits() == old(Bits())[idx := value]
    {
      if value { Mark(idx); } else { Reset(idx); }
    }

    method Test(idx: nat) returns (r: bool)
      requires Valid() && idx < bitCnt
      ensures r == Bits()[idx]
    {
      r := TestBit(bits[idx / ELEM_BITS], Pos(idx));
    }

    method SetMultiple(start: nat, cnt: nat, value: bool)
      requires Valid() && start + cnt <= bitCnt
      modifies bits
      ensures Bits() == Filled(old(Bits()), start, cnt, value)
    {
      for i := 0 to cnt
        invariant Bits() == Filled(old(Bits()), start, i, value)
      {
        Set(start + i, value);
      }
    }

    method SetAll(value: bool)
      requires Valid()
      modifies bits
      ensures Bits() == Filled(old(Bits()), 0, bitCnt, value)
    {
      SetMultiple(0, bitCnt, value);
    }

    method Contains(start: nat, cnt: nat, value: bool) returns (r: bool)
      requires Valid() && start + cnt <= bitCnt
      ensures r <==> !IsGroup(Bits(), start, cnt, !value)
    {
      for i := 0 to cnt
        invariant forall k :: start <= k < start + i ==> Bits()[k] != value
      {
        var t := Test(start + i);
        if t == value { return true; }
      }
      return false;
    }

    /** bitmap_scan() with FIRST_FIT. */
    method Scan(start: nat, cnt: nat, value: bool) returns (r: Option<nat>)
      requires Valid() && start <= bitCnt
      ensures IsFirstFit(Bits(), start, cnt, value, r)
    {
      if cnt <= bitCnt {
        var last := bitCnt - cnt;
        var i := start;
        while i <= last
          invariant start <= i
          invariant forall j :: start <= j < i ==> !IsGroup(Bits(), j, cnt, value)
        {
          var c := Contains(i, cnt, !value);
          if !c { return Some(i); }
          i := i + 1;
        }
      }
      return None;
    }

    /** bitmap_scan_and_flip(). */
    method ScanAndFlip(start: nat, cnt: nat, value: bool) returns (r: Option<nat>)
      requires Valid() && start <= bitCnt
      modifies bits
      ensures IsFirstFit(old(Bits()), start, cnt, value, r)
      ensures Bits() == if r.Some? then Filled(old(Bits()), r.value, cnt, !value) else old(Bits())
    {
      r := Scan(start, cnt, value);
      if r.Some? {
        SetMultiple(r.value, cnt, !value);
      }
    }
  }
}
