/** Swap slots (vm/swap.c): a slot is eight sectors, and a bitmap says which slots
    are available. */
module Swap {
  import opened Basics
  import opened Bitmaps
  import opened BlockDevice

  const SECTORS_PER_PAGE: nat := 8         // PGSIZE / BLOCK_SECTOR_SIZE

  /** Sector k of a page. */
  function Chunk(page: seq<byte>, k: nat): seq<byte>
    requires |page| == PGSIZE && k < SECTORS_PER_PAGE
  {
    page[k * SECTOR_SIZE..(k + 1) * SECTOR_SIZE]
  }

  /** The first n sectors of a slot hold those of a page. */
  ghost predicate HoldsUpTo(sectors: seq<seq<byte>>, slot: nat, page: seq<byte>, n: nat) {
    && |page| == PGSIZE && n <= SECTORS_PER_PAGE && (slot + 1) * SECTORS_PER_PAGE <= |sectors|
    && forall k: nat :: k < n ==> sectors[slot * SECTORS_PER_PAGE + k] == Chunk(page, k)
  }

  ghost predicate Holds(sectors: seq<seq<byte>>, slot: nat, page: seq<byte>) {
    HoldsUpTo(sectors, slot, page, SECTORS_PER_PAGE)
  }

  /** A slot holds only one page. */
  lemma {:induction false} HoldsUnique(sectors: seq<seq<byte>>, slot: nat, p: seq<byte>, q: seq<byte>)
    requires Holds(sectors, slot, p) && Holds(sectors, slot, q)
    ensures p == q
  {
    forall i | 0 <= i < PGSIZE ensures p[i] == q[i] {
      var k := i / SECTOR_SIZE;
      assert Chunk(p, k) == Chunk(q, k);
      assert p[i] == Chunk(p, k)[i % SECTOR_SIZE];
      assert q[i] == Chunk(q, k)[i % SECTOR_SIZE];
    }
  }

  /** A scan for one bit finds the first bit with that value. */
  lemma {:induction false} FirstBit(b: seq<bool>, r: Option<nat>)
    requires IsFirstFit(b, 0, 1, true, r)
    ensures r.None? <==> forall k :: 0 <= k < |b| ==> !b[k]
    ensures r.Some? ==> r.value < |b| && b[r.value] && forall k :: 0 <= k < r.value ==> !b[k]
  {
    forall k: nat | k < |b| ensures IsGroup(b, k, 1, true) <==> b[k] {}
  }

  class SwapDevice {
    const size: nat                        // number of slots
    const available: Bitmap
    const sectors: array<seq<byte>>

    ghost predicate Valid()
      reads this, available, sectors
    {
      && available.Valid() && available.bitCnt == size
      && size == sectors.Length / SECTORS_PER_PAGE && Sectors(sectors[..])
    }

    /** virtualmemory_swap_init(): all slots are available. */
    constructor (device: array<seq<byte>>)
      requires Sectors(device[..])
      ensures Valid() && fresh(available) && fresh(available.bits) && sectors == device
      ensures size == device.Length / SECTORS_PER_PAGE
      ensures forall k :: 0 <= k < size ==> available.Bits()[k]
    {
      sectors := device;
      size := device.Length / SECTORS_PER_PAGE;
      available := new Bitmap(device.Length / SECTORS_PER_PAGE);
      new;
      available.SetAll(true);
    }

    /** virtualmemory_swap_out(): with no slot available the block layer panics. */
    method Out(page: seq<byte>) returns (slot: Option<nat>)
      requires Valid() && |page| == PGSIZE
      modifies available.bits, sectors
      ensures Valid()
      ensures slot.None? <==> forall k :: 0 <= k < size ==> !old(available.Bits())[k]
      ensures slot.None? ==> available.Bits() == old(available.Bits()) && sectors[..] == old(sectors[..])
      ensures slot.Some? ==>
        && slot.value < size && old(available.Bits())[slot.value]
        && (forall k :: 0 <= k < slot.value ==> !old(available.Bits())[k])
        && available.Bits() == old(available.Bits())[slot.value := false]
        && Holds(sectors[..], slot.value, page)
        && forall i :: 0 <= i < sectors.Length && i / SECTORS_PER_PAGE != slot.value ==> sectors[i] == old(sectors[i])
    {
      slot := available.Scan(0, 1, true);
      FirstBit(available.Bits(), slot);
      if slot.None? { return; }
      var s := slot.value;
      for i := 0 to SECTORS_PER_PAGE
        invariant Sectors(sectors[..])
        invariant HoldsUpTo(sectors[..], s, page, i)
        invariant forall j :: 0 <= j < sectors.Length && j / SECTORS_PER_PAGE != s ==> sectors[j] == old(sectors[j])
        invariant available.Bits() == old(available.Bits())
      {
        sectors[s * SECTORS_PER_PAGE + i] := Chunk(page, i);
      }
      available.Set(s, false);
    }

    /** virtualmemory_swap_in() of a slot that is in use. */
    method In(slot: nat) returns (page: seq<byte>)
      requires Valid() && slot < size && !available.Bits()[slot]
      modifies available.bits
      ensures Valid()
      ensures Holds(sectors[..], slot, page)
      ensures available.Bits() == old(available.Bits())[slot := true]
    {
      page := [];
      for i := 0 to SECTORS_PER_PAGE
        invariant |page| == i * SECTOR_SIZE
        invariant forall k: nat :: k < i ==>
          sectors[slot * SECTORS_PER_PAGE + k] == page[k * SECTOR_SIZE..(k + 1) * SECTOR_SIZE]
      {
        page := page + sectors[slot * SECTORS_PER_PAGE + i];
      }
      available.Set(slot, true);
    }
  }
}
