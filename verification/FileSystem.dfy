/** Who owns which sectors (filesys/inode.c, filesys/free-map.c, filesys/directory.c,
    filesys/filesys.c): inodes, the free map, the root directory and open files. */
module FileSystem {
  import opened Basics
  import opened Bitmaps
  import opened BlockDevice

  const FREE_MAP_SECTOR: nat := 0
  const ROOT_DIR_SECTOR: nat := 1
  const NAME_MAX: nat := 14
  const ROOT_ENTRIES: nat := 16            // entries of the root directory
  const ENTRY_SIZE: nat := 20              // sizeof (struct dir_entry)

  /** What an inode says on disk. */
  datatype DiskInode = DiskInode(start: nat, length: nat)

  /** bytes_to_sectors(). */
  function BytesToSectors(length: nat): nat {
    (length + SECTOR_SIZE - 1) / SECTOR_SIZE
  }

  /** The fewest sectors that hold that many bytes. */
  lemma {:induction false} SectorsHold(length: nat, k: nat)
    ensures BytesToSectors(length) <= k <==> length <= 512 * k
  {
  }

  /** The sectors that hold the data of an inode. */
  ghost function Data(d: DiskInode): set<nat> {
    Range(d.start, BytesToSectors(d.length))
  }

  /** All sectors of the inode at sector s. */
  ghost function Extent(s: nat, d: DiskInode): set<nat> {
    {s} + Data(d)
  }

  // ----- Ownership

  ghost predicate OwnsExtent(s: nat, inodes: map<nat, DiskInode>, marked: set<nat>) {
    s in inodes && Extent(s, inodes[s]) <= marked && s !in Data(inodes[s])
  }

  ghost predicate Apart(s: nat, t: nat, inodes: map<nat, DiskInode>) {
    s in inodes && t in inodes ==> Extent(s, inodes[s]) !! Extent(t, inodes[t])
  }

  /** The extents of live inodes are marked used and do not overlap. */
  ghost predicate Owned(inodes: map<nat, DiskInode>, live: set<nat>, marked: set<nat>) {
    && (forall s {:trigger OwnsExtent(s, inodes, marked)} :: s in live ==> OwnsExtent(s, inodes, marked))
    && (forall s, t {:trigger Apart(s, t, inodes)} :: s in live && t in live && s != t ==> Apart(s, t, inodes))
  }

  /** A new inode in sectors that were free: whatever lay there is overwritten. */
  lemma {:induction false} OwnNew(inodes: map<nat, DiskInode>, live: set<nat>, marked: set<nat>, s: nat, d: DiskInode)
    requires Owned(inodes, live, marked) && Extent(s, d) !! marked && s !in Data(d)
    ensures Owned((inodes - Data(d))[s := d], live + {s}, marked + Extent(s, d))
  {
    var inodes', marked' := (inodes - Data(d))[s := d], marked + Extent(s, d);
    forall t | t in live
      ensures t in inodes && t in inodes' && inodes'[t] == inodes[t] && t != s && Extent(t, inodes[t]) <= marked
    {
      assert OwnsExtent(t, inodes, marked);
    }
    forall t | t in live + {s} ensures OwnsExtent(t, inodes', marked') {
      assert t in live ==> OwnsExtent(t, inodes, marked);
    }
    forall t, u | t in live + {s} && u in live + {s} && t != u ensures Apart(t, u, inodes') {
      assert t in live && u in live ==> Apart(t, u, inodes);
    }
  }

  lemma {:induction false} CreateOwned(inodes: map<nat, DiskInode>, live: set<nat>, marked: set<nat>, s: nat,
      d: DiskInode, marked': set<nat>)
    requires Owned(inodes, live, marked - {s}) && s in marked && Data(d) !! marked && marked' == marked + Data(d)
    ensures s !in Data(d) && Owned((inodes - Data(d))[s := d], live + {s}, marked')
  {
    OwnNew(inodes, live, marked - {s}, s, d);
    assert marked - {s} + Extent(s, d) == marked';
  }

  /** Releasing the extent of one inode takes nothing from the others. */
  lemma {:induction false} Disown(inodes: map<nat, DiskInode>, live: set<nat>, marked: set<nat>, s: nat)
    requires Owned(inodes, live + {s}, marked) && s !in live
    ensures OwnsExtent(s, inodes, marked) && Owned(inodes, live, marked - Extent(s, inodes[s]))
  {
    assert OwnsExtent(s, inodes, marked);
    forall t | t in live ensures OwnsExtent(t, inodes, marked - Extent(s, inodes[s])) {
      assert OwnsExtent(t, inodes, marked) && Apart(t, s, inodes);
    }
  }

  lemma {:induction false} LiveMarked(inodes: map<nat, DiskInode>, live: set<nat>, marked: set<nat>)
    requires Owned(inodes, live, marked)
    ensures live <= marked && forall t :: t in live ==> t in inodes
  {
    forall t | t in live ensures t in marked && t in inodes { assert OwnsExtent(t, inodes, marked); }
  }

  lemma {:induction false} OwnFewer(inodes: map<nat, DiskInode>, live: set<nat>, marked: set<nat>, live': set<nat>,
      marked': set<nat>)
    requires Owned(inodes, live, marked) && live' <= live && marked <= marked'
    ensures Owned(inodes, live', marked')
  {
    forall t | t in live' ensures OwnsExtent(t, inodes, marked') { assert OwnsExtent(t, inodes, marked); }
  }

  // ----- Sectors that nobody owns

  ghost predicate HasOwner(x: nat, inodes: map<nat, DiskInode>, live: set<nat>) {
    exists s :: s in live && s in inodes && x in Extent(s, inodes[s])
  }

  /** Sectors marked used that belong to no live inode. */
  ghost function Orphaned(inodes: map<nat, DiskInode>, live: set<nat>, marked: set<nat>): set<nat> {
    set x | x in marked && !HasOwner(x, inodes, live)
  }

  /** An inode that takes its whole extent with it orphans nothing. */
  lemma {:induction false} OrphansAfterRelease(inodes: map<nat, DiskInode>, live: set<nat>, marked: set<nat>, s: nat)
    requires s in inodes
    ensures Orphaned(inodes, live, marked - Extent(s, inodes[s])) == Orphaned(inodes, live + {s}, marked)
  {
    forall x | x !in Extent(s, inodes[s]) ensures HasOwner(x, inodes, live) <==> HasOwner(x, inodes, live + {s}) {
      if HasOwner(x, inodes, live) {
        var t :| t in live && t in inodes && x in Extent(t, inodes[t]);
        assert t in live + {s};
      }
    }
  }

  /** A new inode in free sectors leaves the owners of all others as they are. */
  lemma {:induction false} OwnersKept(inodes: map<nat, DiskInode>, live: set<nat>, marked: set<nat>, s: nat,
      d: DiskInode, x: nat)
    requires Owned(inodes, live, marked) && Extent(s, d) !! marked
    ensures HasOwner(x, (inodes - Data(d))[s := d], live) <==> HasOwner(x, inodes, live)
    ensures HasOwner(x, inodes, live) ==> x in marked
  {
    var inodes' := (inodes - Data(d))[s := d];
    forall t | t in live
      ensures t in inodes && t in inodes' && inodes'[t] == inodes[t] && Extent(t, inodes[t]) <= marked
    {
      assert OwnsExtent(t, inodes, marked);
    }
  }

  lemma {:induction false} OrphansAfterCreate(inodes: map<nat, DiskInode>, live: set<nat>, marked: set<nat>, s: nat,
      d: DiskInode)
    requires Owned(inodes, live, marked) && Extent(s, d) !! marked
    ensures Orphaned((inodes - Data(d))[s := d], live + {s}, marked + Extent(s, d)) == Orphaned(inodes, live, marked)
  {
    var inodes' := (inodes - Data(d))[s := d];
    forall x ensures HasOwner(x, inodes', live + {s}) <==> HasOwner(x, inodes, live) || x in Extent(s, d) {
      OwnersKept(inodes, live, marked, s, d, x);
      if HasOwner(x, inodes', live) {
        var t :| t in live && t in inodes' && x in Extent(t, inodes'[t]);
        assert t in live + {s};
      }
      assert s in live + {s} && s in inodes';
    }
    forall x | x in Extent(s, d) ensures !HasOwner(x, inodes, live) { OwnersKept(inodes, live, marked, s, d, x); }
  }

  /** Data sectors without their inode are orphans. */
  lemma {:induction false} OrphansAfterLoss(inodes: map<nat, DiskInode>, live: set<nat>, marked: set<nat>, s: nat,
      d: DiskInode)
    requires Owned(inodes, live, marked) && Extent(s, d) !! marked
    ensures Orphaned((inodes - Data(d))[s := d], live, marked + Data(d)) == Orphaned(inodes, live, marked) + Data(d)
  {
    var inodes' := (inodes - Data(d))[s := d];
    forall x ensures HasOwner(x, inodes', live) <==> HasOwner(x, inodes, live) {
      OwnersKept(inodes, live, marked, s, d, x);
    }
    forall x | x in Data(d) ensures !HasOwner(x, inodes, live) { OwnersKept(inodes, live, marked, s, d, x); }
  }

  /** An inode that loses its name while nobody has it open orphans all its sectors. */
  lemma {:induction false} OrphansAfterOverwrite(inodes: map<nat, DiskInode>, live: set<nat>, marked: set<nat>, s: nat)
    requires Owned(inodes, live, marked) && s in live
    ensures s in inodes && Orphaned(inodes, live - {s}, marked) == Orphaned(inodes, live, marked) + Extent(s, inodes[s])
  {
    assert OwnsExtent(s, inodes, marked);
    forall x ensures HasOwner(x, inodes, live) <==> HasOwner(x, inodes, live - {s}) || x in Extent(s, inodes[s]) {
      if HasOwner(x, inodes, live) && x !in Extent(s, inodes[s]) {
        var t :| t in live && t in inodes && x in Extent(t, inodes[t]);
        assert t in live - {s};
      }
      if HasOwner(x, inodes, live - {s}) {
        var t :| t in live - {s} && t in inodes && x in Extent(t, inodes[t]);
        assert t in live;
      }
    }
    forall x | x in Extent(s, inodes[s]) ensures !HasOwner(x, inodes, live - {s}) {
      forall t | t in live - {s} && t in inodes ensures x !in Extent(t, inodes[t]) { assert Apart(s, t, inodes); }
    }
  }

  lemma {:induction false} OwnedKnown(inodes: map<nat, DiskInode>, live: set<nat>, marked: set<nat>)
    requires Owned(inodes, live, marked)
    ensures forall t :: t in live ==> t in inodes
  {
    forall t | t in live ensures t in inodes { assert OwnsExtent(t, inodes, marked); }
  }

  /** A new inode in free sectors, with or without its sector marked. */
  lemma {:induction false} CreateOrLose(inodes: map<nat, DiskInode>, live: set<nat>, marked: set<nat>, s: nat,
      d: DiskInode, inodes': map<nat, DiskInode>)
    requires Owned(inodes, live, marked) && Extent(s, d) !! marked && inodes' == (inodes - Data(d))[s := d]
    ensures Orphaned(inodes', live + {s}, marked + Extent(s, d)) == Orphaned(inodes, live, marked)
    ensures Orphaned(inodes', live, marked + Data(d)) == Orphaned(inodes, live, marked) + Data(d)
    ensures s !in live && forall t :: t in live ==> t in inodes && t in inodes' && inodes'[t] == inodes[t]
    ensures marked + Data(d) == marked <==> BytesToSectors(d.length) == 0
  {
    OrphansAfterCreate(inodes, live, marked, s, d);
    OrphansAfterLoss(inodes, live, marked, s, d);
    forall t | t in live ensures t in inodes && t in marked { assert OwnsExtent(t, inodes, marked); }
    assert BytesToSectors(d.length) > 0 ==> d.start in Data(d);
  }

  // ----- Where new inodes go

  /** Index of the first clear bit; |b| if all are set. */
  ghost function FirstFree(b: seq<bool>): (i: nat)
    ensures i <= |b| && (i < |b| ==> !b[i]) && forall j :: 0 <= j < i ==> b[j]
  {
    if b == [] || !b[0] then 0 else 1 + FirstFree(b[1..])
  }

  ghost predicate HasGroup(b: seq<bool>, cnt: nat) {
    exists i: nat :: IsGroup(b, i, cnt, false)
  }

  /** A sector for an inode, and then consecutive ones for its data, are free. */
  ghost predicate Room(b: seq<bool>, length: nat) {
    FirstFree(b) < |b| && HasGroup(b[FirstFree(b) := true], BytesToSectors(length))
  }

  lemma {:induction false} FirstFreeFits(b: seq<bool>, r: Option<nat>)
    requires IsFirstFit(b, 0, 1, false, r)
    ensures r == if FirstFree(b) < |b| then Some(FirstFree(b)) else None
  {
    var i := FirstFree(b);
    assert i < |b| ==> IsGroup(b, i, 1, false);
    assert r.Some? ==> !b[r.value];
  }

  /** In a map whose first m bits are set and no others, groups go right behind. */
  lemma {:induction false} PackedFits(b: seq<bool>, m: nat, cnt: nat, r: Option<nat>)
    requires SetBits(0, b) == Range(0, m) && m <= |b| && cnt > 0 && IsFirstFit(b, 0, cnt, false, r)
    ensures r == if m + cnt <= |b| then Some(m) else None
  {
    forall i | 0 <= i < |b| ensures b[i] <==> i < m {
      assert i in SetBits(0, b) <==> i in Range(0, m);
    }
    assert m + cnt <= |b| ==> IsGroup(b, m, cnt, false);
    assert r.Some? ==> !b[r.value];
  }

  lemma {:induction false} PackedRange(m: nat, cnt: nat)
    ensures Range(0, m) + Range(m, cnt) == Range(0, m + cnt)
  {
  }

  /** What the environment grants a call of filesys_create(): memory for the inode,
      writes of the free map after each allocation and of the directory, and so many
      reads of directory entries while it looks for the name and for a slot. */
  datatype Grants = Grants(memory: bool, written: bool, dataWritten: bool, dirWritten: bool, lookupReads: nat,
      slotReads: nat)

  /** An inode of that length gets its sectors. */
  ghost predicate Allocates(b: seq<bool>, length: nat, g: Grants) {
    g.memory && g.written && g.dataWritten && Room(b, length)
  }

  // ----- The root directory

  datatype Entry = Entry(sector: nat, name: string, inUse: bool)

  predicate IsNamed(e: Entry, name: string) {
    e.inUse && e.name == name
  }

  /** lookup() finds the name when its first `readCnt` reads of an entry succeed. */
  ghost predicate Taken(entries: seq<Entry>, name: string, readCnt: nat) {
    exists i :: 0 <= i < |entries| && i < readCnt && IsNamed(entries[i], name)
  }

  /** Where dir_add() writes when its first `readCnt` reads of an entry succeed: the
      first entry that is not in use, or else where reading stopped. */
  ghost function SlotFor(entries: seq<Entry>, readCnt: nat): (i: nat)
    ensures i <= |entries| && i <= readCnt && forall j :: 0 <= j < i ==> entries[j].inUse
    ensures i < |entries| && i < readCnt ==> !entries[i].inUse
  {
    if entries == [] || readCnt == 0 || !entries[0].inUse then 0 else 1 + SlotFor(entries[1..], readCnt - 1)
  }

  predicate ValidName(name: string) {
    0 < |name| <= NAME_MAX
  }

  /** A new file can have that name: it is valid and unused, and a slot is free. */
  ghost predicate Nameable(entries: seq<Entry>, name: string) {
    && ValidName(name) && !Taken(entries, name, |entries|)
    && exists i :: 0 <= i < |entries| && !entries[i].inUse
  }

  /** dir_add() enters the name. */
  ghost predicate Enters(entries: seq<Entry>, name: string, g: Grants) {
    ValidName(name) && !Taken(entries, name, g.lookupReads) && SlotFor(entries, g.slotReads) < |entries| && g.dirWritten
  }

  /** Writing the name into slot i leaves it the only one of its kind, and takes the
      name of no open file. */
  ghost predicate Harmless(entries: seq<Entry>, i: nat, name: string, open: set<nat>)
    requires i < |entries|
  {
    && (forall j :: 0 <= j < |entries| && j != i ==> !IsNamed(entries[j], name))
    && (entries[i].inUse ==> entries[i].sector !in open)
  }

  /** The inode that loses its name when slot i is overwritten, */
  ghost function Lost(entries: seq<Entry>, i: nat): set<nat>
    requires i < |entries|
  {
    if entries[i].inUse then {entries[i].sector} else {}
  }

  /** and all its sectors. */
  ghost function LostExtent(entries: seq<Entry>, i: nat, inodes: map<nat, DiskInode>): set<nat>
    requires i < |entries|
  {
    if entries[i].inUse && entries[i].sector in inodes then Extent(entries[i].sector, inodes[entries[i].sector]) else {}
  }

  /** Sectors of inodes that have a name. */
  ghost function Named(entries: seq<Entry>): set<nat> {
    set i | 0 <= i < |entries| && entries[i].inUse :: entries[i].sector
  }

  /** Inodes that stay when nobody has them open. */
  ghost function Kept(entries: seq<Entry>): set<nat> {
    {FREE_MAP_SECTOR, ROOT_DIR_SECTOR} + Named(entries)
  }

  ghost predicate EntryOk(entries: seq<Entry>, i: nat)
    requires i < |entries|
  {
    entries[i].inUse ==>
      ValidName(entries[i].name) && entries[i].sector != FREE_MAP_SECTOR && entries[i].sector != ROOT_DIR_SECTOR
  }

  ghost predicate NoClash(entries: seq<Entry>, i: nat, j: nat)
    requires i < |entries| && j < |entries|
  {
    entries[i].inUse && entries[j].inUse ==>
      entries[i].name != entries[j].name && entries[i].sector != entries[j].sector
  }

  /** Names are valid, and neither names nor sectors are used twice. */
  ghost predicate DirOk(entries: seq<Entry>) {
    && (forall i {:trigger EntryOk(entries, i)} :: 0 <= i < |entries| ==> EntryOk(entries, i))
    && (forall i, j {:trigger NoClash(entries, i, j)} :: 0 <= i < |entries| && 0 <= j < |entries| && i != j ==>
          NoClash(entries, i, j))
  }

  /** What entering a name does to the directory, wherever the reads stopped: it stays
      well formed if and only if no other entry has the name, and the entry that was
      in the slot is gone. */
  lemma {:induction false} AfterAdd(entries: seq<Entry>, i: nat, e: Entry)
    requires DirOk(entries) && i < |entries| && e.inUse && ValidName(e.name) && e.sector !in Kept(entries)
    ensures DirOk(entries[i := e]) <==> forall j :: 0 <= j < |entries| && j != i ==> !IsNamed(entries[j], e.name)
    ensures Named(entries[i := e]) ==
      Named(entries) - (if entries[i].inUse then {entries[i].sector} else {}) + {e.sector}
  {
    var after := entries[i := e];
    NamedAfterAdd(entries, i, e);
    if DirOk(after) {
      forall j | 0 <= j < |entries| && j != i ensures !IsNamed(entries[j], e.name) {
        assert NoClash(after, i, j);
      }
    }
    if forall j :: 0 <= j < |entries| && j != i ==> !IsNamed(entries[j], e.name) {
      forall j | 0 <= j < |entries| ensures EntryOk(after, j) { assert EntryOk(entries, j); }
      forall j | 0 <= j < |entries| && j != i ensures NoClash(after, i, j) && NoClash(after, j, i) {
        assert entries[j].inUse ==> entries[j].sector in Named(entries);
        assert !IsNamed(entries[j], e.name);
      }
      forall j, k | 0 <= j < |entries| && 0 <= k < |entries| && j != k ensures NoClash(after, j, k) {
        if j != i && k != i { assert NoClash(entries, j, k); }
      }
    }
  }

  lemma {:induction false} NamedAfterAdd(entries: seq<Entry>, i: nat, e: Entry)
    requires DirOk(entries) && i < |entries| && e.inUse
    ensures Named(entries[i := e]) ==
      Named(entries) - (if entries[i].inUse then {entries[i].sector} else {}) + {e.sector}
  {
    var after := entries[i := e];
    assert after[i].sector in Named(after);
    forall j | 0 <= j < |entries| && entries[j].inUse && j != i ensures entries[j].sector in Named(after) {
      assert after[j] == entries[j];
    }
    forall j | 0 <= j < |entries| && entries[j].inUse && j != i
      ensures entries[j].sector in Named(entries) && (entries[i].inUse ==> entries[j].sector != entries[i].sector)
    {
      assert NoClash(entries, j, i);
    }
  }

  /** With complete reads, dir_add() enters exactly the names that can be given, into
      the first free slot, and without harm. */
  lemma {:induction false} CompleteReads(entries: seq<Entry>, name: string, g: Grants, open: set<nat>)
    requires |entries| <= g.lookupReads && |entries| <= g.slotReads
    ensures Enters(entries, name, g) <==> Nameable(entries, name) && g.dirWritten
    ensures Enters(entries, name, g) ==>
      var i := SlotFor(entries, g.slotReads);
      !entries[i].inUse && (forall j :: 0 <= j < i ==> entries[j].inUse) && Harmless(entries, i, name, open)
  {
  }

  /** With reads that stop early it may enter a name twice, or overwrite a file's entry. */
  lemma {:induction false} ShortReads()
    ensures var free, a, b := Entry(0, "", false), Entry(2, "a", true), Entry(3, "b", true);
            && DirOk([b, a, free])
            && !Taken([b, a, free], "a", 1) && SlotFor([b, a, free], 3) == 2
            && !DirOk([b, a, free][2 := Entry(4, "a", true)])
            && !Taken([b, a, free], "c", 3) && SlotFor([b, a, free], 1) == 1
            && 2 !in Named([b, a, free][1 := Entry(4, "c", true)])
  {
    var free, a, b := Entry(0, "", false), Entry(2, "a", true), Entry(3, "b", true);
    var twice := [b, a, free][2 := Entry(4, "a", true)];
    assert !NoClash(twice, 1, 2);
    assert SlotFor([a, free], 2) == 1 + SlotFor([free], 1);
    var over := [b, a, free][1 := Entry(4, "c", true)];
    assert over == [b, Entry(4, "c", true), free];
  }

  lemma {:induction false} NamedAfterErase(entries: seq<Entry>, i: nat)
    requires DirOk(entries) && i < |entries| && entries[i].inUse
    ensures DirOk(entries[i := entries[i].(inUse := false)])
    ensures Named(entries[i := entries[i].(inUse := false)]) == Named(entries) - {entries[i].sector}
  {
    var after := entries[i := entries[i].(inUse := false)];
    forall j | 0 <= j < |entries| && entries[j].inUse && j != i
      ensures entries[j].sector in Named(after) && entries[j].sector != entries[i].sector
    {
      assert after[j] == entries[j] && NoClash(entries, i, j);
    }
    forall j | 0 <= j < |entries| ensures EntryOk(after, j) { assert EntryOk(entries, j); }
    forall j, k | 0 <= j < |entries| && 0 <= k < |entries| && j != k ensures NoClash(after, j, k) {
      assert NoClash(entries, j, k);
    }
  }

  lemma {:induction false} NameGone(entries: seq<Entry>, i: nat)
    requires DirOk(entries) && i < |entries| && entries[i].inUse
    ensures !Taken(entries[i := entries[i].(inUse := false)], entries[i].name, |entries|)
  {
    forall j | 0 <= j < |entries| && j != i ensures !IsNamed(entries[j], entries[i].name) {
      assert NoClash(entries, i, j);
    }
  }

  /** Sectors of the file that holds the free map of a device. */
  function MapSectors(size: nat): nat {
    BytesToSectors(4 * ((size + ELEM_BITS - 1) / ELEM_BITS))
  }

  // ----- The free map

  class FreeMap {
    const bitmap: Bitmap
    ghost var marked: set<nat>             // sectors in use

    ghost predicate Valid()
      reads this, bitmap, bitmap.bits
    {
      bitmap.Valid() && marked == SetBits(0, bitmap.Bits())
    }

    /** free_map_init(). */
    constructor (size: nat)
      requires size > ROOT_DIR_SECTOR
      ensures Valid() && fresh(bitmap) && fresh(bitmap.bits) && bitmap.bitCnt == size
      ensures marked == {FREE_MAP_SECTOR, ROOT_DIR_SECTOR}
    {
      bitmap := new Bitmap(size);
      marked := {FREE_MAP_SECTOR, ROOT_DIR_SECTOR};
      new;
      bitmap.Mark(FREE_MAP_SECTOR);
      bitmap.Mark(ROOT_DIR_SECTOR);
    }

    /** free_map_allocate(): `written` tells if the free map file could be written. */
    method Allocate(cnt: nat, written: bool) returns (r: Option<nat>)
      requires Valid()
      modifies this, bitmap.bits
      ensures Valid()
      ensures IsFirstFit(old(bitmap.Bits()), 0, cnt, false, r) || (!written && r.None?)
      ensures r.Some? ==> written && Range(r.value, cnt) !! old(marked) && marked == old(marked) + Range(r.value, cnt)
      ensures r.None? ==> marked == old(marked)
      ensures bitmap.Bits() == if r.Some? then Filled(old(bitmap.Bits()), r.value, cnt, true) else old(bitmap.Bits())
    {
      r := bitmap.ScanAndFlip(0, cnt, false);
      if r.Some? {
        FilledBits(0, old(bitmap.Bits()), r.value, cnt, true);
        marked := SetBits(0, bitmap.Bits());
        if !written {
          FilledBits(0, bitmap.Bits(), r.value, cnt, false);
          bitmap.SetMultiple(r.value, cnt, false);
          marked := SetBits(0, bitmap.Bits());
          assert bitmap.Bits() == old(bitmap.Bits());
          r := None;
        }
      }
    }

    /** free_map_release(). */
    method Release(sector: nat, cnt: nat)
      requires Valid() && Range(sector, cnt) <= marked
      modifies this, bitmap.bits
      ensures Valid() && marked == old(marked) - Range(sector, cnt)
    {
      if cnt > 0 {
        assert sector + cnt - 1 in Range(sector, cnt);
        FilledBits(0, bitmap.Bits(), sector, cnt, false);
        bitmap.SetMultiple(sector, cnt, false);
        marked := SetBits(0, bitmap.Bits());
      }
    }
  }

  // ----- Open inodes

  class Inode {
    const sector: nat
    const data: DiskInode
    var openCnt: nat
    var removed: bool

    /** A first opener has the inode. */
    constructor (sector: nat, data: DiskInode)
      ensures this.sector == sector && this.data == data && openCnt == 1 && !removed
    {
      this.sector, this.data, openCnt, removed := sector, data, 1, false;
    }
  }

  ghost function OpenSectors(open: seq<Inode>): set<nat> {
    set i | 0 <= i < |open| :: open[i].sector
  }

  ghost predicate InodeOk(o: Inode, inodes: map<nat, DiskInode>, kept: set<nat>)
    reads o
  {
    o.openCnt > 0 && o.sector in inodes && o.data == inodes[o.sector] && (o.removed <==> o.sector !in kept)
  }

  ghost predicate Differ(open: seq<Inode>, i: nat, j: nat)
    requires i < |open| && j < |open|
  {
    open[i].sector != open[j].sector
  }

  ghost predicate Distinct(open: seq<Inode>) {
    forall i, j {:trigger Differ(open, i, j)} :: 0 <= i < j < |open| ==> Differ(open, i, j)
  }

  /** One in-memory inode for a sector; it is removed if it has lost its name. */
  ghost predicate OpenOk(open: seq<Inode>, inodes: map<nat, DiskInode>, kept: set<nat>)
    reads open
  {
    && (forall o {:trigger InodeOk(o, inodes, kept)} :: o in open ==> InodeOk(o, inodes, kept))
    && Distinct(open)
  }

  lemma {:induction false} DistinctTail(open: seq<Inode>)
    requires Distinct(open) && open != []
    ensures Distinct(open[1..]) && open[0].sector !in OpenSectors(open[1..])
  {
    forall i, j | 0 <= i < j < |open[1..]| ensures Differ(open[1..], i, j) { assert Differ(open, i + 1, j + 1); }
    forall i | 0 <= i < |open[1..]| ensures open[1..][i].sector != open[0].sector { assert Differ(open, 0, i + 1); }
  }

  lemma {:induction false} DistinctMore(o: Inode, open: seq<Inode>)
    requires Distinct(open) && o.sector !in OpenSectors(open)
    ensures Distinct([o] + open)
  {
    var more := [o] + open;
    forall i, j | 0 <= i < j < |more| ensures Differ(more, i, j) {
      assert more[j] == open[j - 1] && open[j - 1].sector in OpenSectors(open);
      if i > 0 { assert Differ(open, i - 1, j - 1); }
    }
  }

  lemma {:induction false} WithoutSectors(open: seq<Inode>, o: Inode)
    requires o in open && Distinct(open)
    ensures OpenSectors(Removed(open, o)) == OpenSectors(open) - {o.sector}
    ensures Distinct(Removed(open, o)) && o !in Removed(open, o)
  {
    OpenSectorsHead(open);
    DistinctTail(open);
    if open[0] == o {
      assert forall x :: x in open[1..] ==> x.sector in OpenSectors(open[1..]);
    } else {
      var rest := Removed(open[1..], o);
      WithoutSectors(open[1..], o);
      assert ([open[0]] + rest)[1..] == rest;
      OpenSectorsHead([open[0]] + rest);
      DistinctMore(open[0], rest);
      assert o.sector in OpenSectors(open[1..]);
    }
  }

  lemma {:induction false} OpenSectorsHead(open: seq<Inode>)
    requires open != []
    ensures OpenSectors(open) == {open[0].sector} + OpenSectors(open[1..])
  {
    forall i | 0 <= i < |open| ensures open[i].sector in {open[0].sector} + OpenSectors(open[1..]) {
      if i > 0 { assert open[1..][i - 1] == open[i]; }
    }
    forall i | 0 <= i < |open[1..]| ensures open[1..][i].sector in OpenSectors(open) {
      assert open[i + 1] == open[1..][i];
    }
  }

  lemma {:induction false} OpenWithout(open: seq<Inode>, o: Inode, inodes: map<nat, DiskInode>, kept: set<nat>)
    requires o in open && Distinct(open)
    requires forall x {:trigger InodeOk(x, inodes, kept)} :: x in open && x != o ==> InodeOk(x, inodes, kept)
    ensures OpenOk(Removed(open, o), inodes, kept)
    ensures OpenSectors(Removed(open, o)) == OpenSectors(open) - {o.sector}
  {
    WithoutSectors(open, o);
    forall x | x in Removed(open, o) ensures InodeOk(x, inodes, kept) {
      assert x in open;
    }
  }

  lemma {:induction false} OtherSectors(open: seq<Inode>, o: Inode)
    requires o in open && Distinct(open)
    ensures forall x :: x in open && x != o ==> x.sector != o.sector
  {
    var m: nat :| m < |open| && open[m] == o;
    forall x | x in open && x != o ensures x.sector != o.sector {
      var k: nat :| k < |open| && open[k] == x;
      assert if k < m then Differ(open, k, m) else Differ(open, m, k);
    }
  }

  class Volume {
    const freeMap: FreeMap
    var inodes: map<nat, DiskInode>        // inodes on disk, by sector
    var entries: seq<Entry>                // the root directory
    var openInodes: seq<Inode>

    /** Inodes with a name, or open. */
    ghost function Live(): set<nat>
      reads this`entries, this`openInodes
    {
      Kept(entries) + OpenSectors(openInodes)
    }

    /** Sectors marked used that nobody will ever give back. */
    ghost function Orphans(): set<nat>
      reads this`inodes, this`entries, this`openInodes, freeMap`marked
    {
      Orphaned(inodes, Live(), freeMap.marked)
    }

    ghost predicate Valid()
      reads this, freeMap, freeMap.bitmap, freeMap.bitmap.bits, openInodes
    {
      && freeMap.Valid() && DirOk(entries)
      && Owned(inodes, Live(), freeMap.marked)
      && OpenOk(openInodes, inodes, Kept(entries))
    }

    /** A device on which there is no inode yet. */
    constructor Blank(size: nat)
      requires size > ROOT_DIR_SECTOR
      ensures freeMap.Valid() && fresh(freeMap) && fresh(freeMap.bitmap) && fresh(freeMap.bitmap.bits)
      ensures freeMap.bitmap.bitCnt == size && freeMap.marked == {FREE_MAP_SECTOR, ROOT_DIR_SECTOR}
      ensures inodes == map[] && entries == [] && openInodes == []
    {
      freeMap := new FreeMap(size);
      inodes, entries, openInodes := map[], [], [];
    }

    // ----- Creating inodes

    /** Zeros are written over cnt sectors, and over any inode that lay there. */
    method ZeroSectors(start: nat, cnt: nat)
      modifies this`inodes
      ensures inodes == old(inodes) - Range(start, cnt)
    {
      for i := 0 to cnt
        invariant inodes == old(inodes) - Range(start, i)
      {
        inodes := inodes - {start + i};
      }
    }

    /** inode_create() at a sector that was allocated for it, beside the inodes `live`. */
    method InodeCreate(sector: nat, length: nat, memory: bool, written: bool, ghost live: set<nat>) returns (ok: bool)
      requires freeMap.Valid() && sector in freeMap.marked && sector !in live
      requires Owned(inodes, live, freeMap.marked - {sector})
      modifies this`inodes, freeMap, freeMap.bitmap.bits
      ensures freeMap.Valid()
      ensures ok <==> memory && written && HasGroup(old(freeMap.bitmap.Bits()), BytesToSectors(length))
      ensures !ok ==> inodes == old(inodes) && freeMap.marked == old(freeMap.marked)
      ensures ok ==>
        && sector in inodes && inodes[sector].length == length
        && IsFirstFit(old(freeMap.bitmap.Bits()), 0, BytesToSectors(length), false, Some(inodes[sector].start))
        && Data(inodes[sector]) !! old(freeMap.marked) && freeMap.marked == old(freeMap.marked) + Data(inodes[sector])
        && inodes == (old(inodes) - Data(inodes[sector]))[sector := inodes[sector]]
        && Owned(inodes, live + {sector}, freeMap.marked)
    {
      if !memory { return false; }
      var sectors := BytesToSectors(length);
      var start := freeMap.Allocate(sectors, written);
      if start.None? { return false; }
      var d := DiskInode(start.value, length);
      CreateOwned(inodes, live, old(freeMap.marked), sector, d, freeMap.marked);
      inodes := inodes[sector := d];
      ZeroSectors(start.value, sectors);
      assert inodes == (old(inodes) - Data(d))[sector := d];
      ok := true;
    }

    /** do_format(): inodes for the free map and for an empty root directory, one after
        the other.  It panics unless both inodes can be allocated (memory, dirMemory),
        the new free map can be opened and written (mapWritten), and be written once
        more for the directory (written). */
    static method Format(size: nat, memory: bool, mapWritten: bool, dirMemory: bool, written: bool)
        returns (r: Option<Volume>)
      requires size > ROOT_DIR_SECTOR
      ensures r.Some? <==> memory && mapWritten && dirMemory && written && 3 + MapSectors(size) <= size
      ensures r.Some? ==>
        && fresh(r.value) && fresh(r.value.freeMap) && fresh(r.value.freeMap.bitmap.bits)
        && r.value.Valid() && r.value.Live() == {FREE_MAP_SECTOR, ROOT_DIR_SECTOR} && r.value.openInodes == []
        && r.value.entries == seq(ROOT_ENTRIES, _ => Entry(0, "", false))
        && r.value.freeMap.bitmap.bitCnt == size
        && r.value.freeMap.marked == Range(0, 3 + MapSectors(size)) && r.value.Orphans() == {}
    {
      var v := new Volume.Blank(size);
      var ok := v.FormatMap(size, memory);
      if !ok || !mapWritten { return None; }
      ok := v.FormatRoot(size, dirMemory, written);
      if !ok { return None; }
      r := Some(v);
    }

    /** free_map_create(). */
    method FormatMap(size: nat, memory: bool) returns (ok: bool)
      requires freeMap.Valid() && freeMap.bitmap.bitCnt == size > ROOT_DIR_SECTOR && inodes == map[]
      requires freeMap.marked == {FREE_MAP_SECTOR, ROOT_DIR_SECTOR}
      modifies this`inodes, freeMap, freeMap.bitmap.bits
      ensures freeMap.Valid() && (ok <==> memory && 2 + MapSectors(size) <= size)
      ensures ok ==>
        && freeMap.marked == Range(0, 2 + MapSectors(size))
        && Owned(inodes, {FREE_MAP_SECTOR}, freeMap.marked - {ROOT_DIR_SECTOR})
        && inodes == map[FREE_MAP_SECTOR := DiskInode(2, 4 * ((size + ELEM_BITS - 1) / ELEM_BITS))]
    {
      ghost var bits := freeMap.bitmap.Bits();
      assert freeMap.marked == Range(0, 2);
      ok := InodeCreate(FREE_MAP_SECTOR, 4 * ((size + ELEM_BITS - 1) / ELEM_BITS), memory, true, {});
      FitIff(bits, 2, MapSectors(size));
      if ok {
        PackedFits(bits, 2, MapSectors(size), Some(inodes[FREE_MAP_SECTOR].start));
        PackedRange(2, MapSectors(size));
        FormatStep(inodes, freeMap.marked);
      }
    }

    static lemma {:induction false} FitIff(b: seq<bool>, m: nat, cnt: nat)
      requires SetBits(0, b) == Range(0, m) && m <= |b| && cnt > 0
      ensures HasGroup(b, cnt) <==> m + cnt <= |b|
    {
      forall i | 0 <= i < |b| ensures b[i] <==> i < m {
        assert i in SetBits(0, b) <==> i in Range(0, m);
      }
      assert m + cnt <= |b| ==> IsGroup(b, m, cnt, false);
      if HasGroup(b, cnt) {
        var i: nat :| IsGroup(b, i, cnt, false);
        assert !b[i];
      }
    }

    static lemma {:induction false} FormatStep(inodes: map<nat, DiskInode>, marked: set<nat>)
      requires Owned(inodes, {FREE_MAP_SECTOR}, marked) && FREE_MAP_SECTOR in inodes
        && ROOT_DIR_SECTOR !in Data(inodes[FREE_MAP_SECTOR])
      ensures Owned(inodes, {FREE_MAP_SECTOR}, marked - {ROOT_DIR_SECTOR})
    {
      assert OwnsExtent(FREE_MAP_SECTOR, inodes, marked);
      assert OwnsExtent(FREE_MAP_SECTOR, inodes, marked - {ROOT_DIR_SECTOR});
    }

    /** dir_create() of the root directory, behind the free map. */
    method FormatRoot(size: nat, memory: bool, written: bool) returns (ok: bool)
      requires freeMap.Valid() && freeMap.bitmap.bitCnt == size && 2 + MapSectors(size) <= size
      requires freeMap.marked == Range(0, 2 + MapSectors(size))
        && Owned(inodes, {FREE_MAP_SECTOR}, freeMap.marked - {ROOT_DIR_SECTOR})
      requires inodes == map[FREE_MAP_SECTOR := DiskInode(2, 4 * ((size + ELEM_BITS - 1) / ELEM_BITS))]
      modifies this`inodes, this`entries, freeMap, freeMap.bitmap.bits
      ensures freeMap.Valid() && (ok <==> memory && written && 3 + MapSectors(size) <= size)
      ensures ok ==>
        && freeMap.marked == Range(0, 3 + MapSectors(size)) && entries == seq(ROOT_ENTRIES, _ => Entry(0, "", false))
        && DirOk(entries) && Kept(entries) == {FREE_MAP_SECTOR, ROOT_DIR_SECTOR}
        && Owned(inodes, Kept(entries), freeMap.marked) && Orphaned(inodes, Kept(entries), freeMap.marked) == {}
    {
      ghost var bits := freeMap.bitmap.Bits();
      var m := 2 + MapSectors(size);
      ok := InodeCreate(ROOT_DIR_SECTOR, ROOT_ENTRIES * ENTRY_SIZE, memory, written, {FREE_MAP_SECTOR});
      FitIff(bits, m, 1);
      if ok {
        PackedFits(bits, m, 1, Some(inodes[ROOT_DIR_SECTOR].start));
        PackedRange(m, 1);
        AllOwned(inodes, m - 2);
        entries := seq(ROOT_ENTRIES, _ => Entry(0, "", false));
        assert Kept(entries) == {FREE_MAP_SECTOR} + {ROOT_DIR_SECTOR} by { NoNames(entries); }
      }
    }

    static lemma {:induction false} NoNames(entries: seq<Entry>)
      requires forall i :: 0 <= i < |entries| ==> !entries[i].inUse
      ensures Named(entries) == {}
    {
    }

    /** Every sector of a new volume belongs to the free map or to the root directory. */
    static lemma {:induction false} AllOwned(inodes: map<nat, DiskInode>, n: nat)
      requires FREE_MAP_SECTOR in inodes && Data(inodes[FREE_MAP_SECTOR]) == Range(2, n)
      requires ROOT_DIR_SECTOR in inodes && Data(inodes[ROOT_DIR_SECTOR]) == Range(2 + n, 1)
      ensures Orphaned(inodes, {FREE_MAP_SECTOR} + {ROOT_DIR_SECTOR}, Range(0, 3 + n)) == {}
    {
      forall x | x in Range(0, 3 + n) ensures HasOwner(x, inodes, {FREE_MAP_SECTOR} + {ROOT_DIR_SECTOR}) {
        var s := if x == 0 || 2 <= x < 2 + n then FREE_MAP_SECTOR else ROOT_DIR_SECTOR;
        assert s in {FREE_MAP_SECTOR} + {ROOT_DIR_SECTOR} && x in Extent(s, inodes[s]);
      }
    }

    // ----- Open inodes

    /** The in-memory inode of a sector, if it is open. */
    method FindOpen(sector: nat) returns (r: Option<Inode>)
      ensures r.Some? ==> r.value in openInodes && r.value.sector == sector
      ensures r.None? <==> sector !in OpenSectors(openInodes)
    {
      for i := 0 to |openInodes|
        invariant forall j :: 0 <= j < i ==> openInodes[j].sector != sector
      {
        if openInodes[i].sector == sector { return Some(openInodes[i]); }
      }
      return None;
    }

    /** inode_reopen(). */
    method InodeReopen(o: Inode)
      requires Valid() && o in openInodes
      modifies o`openCnt
      ensures Valid() && o.openCnt == old(o.openCnt) + 1
    {
      assert InodeOk(o, inodes, Kept(entries));
      o.openCnt := o.openCnt + 1;
      forall x | x in openInodes ensures InodeOk(x, inodes, Kept(entries)) {
        assert old(InodeOk(x, inodes, Kept(entries)));
      }
    }

    /** All handles that were there but one are as they were. */
    static twostate predicate OthersKept(was: seq<Inode>, new r: Option<Inode>)
      reads was
    {
      forall o :: o in was && r != Some(o) ==> o.openCnt == old(o.openCnt) && o.removed == old(o.removed)
    }

    /** inode_open() of an inode that has not been removed. */
    method InodeOpen(sector: nat, memory: bool) returns (r: Option<Inode>)
      requires Valid() && sector in Kept(entries)
      modifies this`openInodes, openInodes
      ensures Valid()
      ensures r.Some? <==> memory || sector in old(OpenSectors(openInodes))
      ensures r.None? ==> openInodes == old(openInodes)
      ensures r.Some? ==>
        && r.value in openInodes && r.value.sector == sector && !r.value.removed
        && sector in inodes && r.value.data == inodes[sector]
        && OpenSectors(openInodes) == old(OpenSectors(openInodes)) + {sector}
      ensures Live() == old(Live())
      ensures sector in old(OpenSectors(openInodes)) ==>
        r.value in old(openInodes) && openInodes == old(openInodes)
          && r.value.openCnt == old(r.value.openCnt) + 1 > 1 && !old(r.value.removed)
      ensures r.Some? && sector !in old(OpenSectors(openInodes)) ==>
        fresh(r.value) && r.value.openCnt == 1 && openInodes == [r.value] + old(openInodes)
      ensures OthersKept(old(openInodes), r)
    {
      r := FindOpen(sector);
      if r.Some? {
        assert InodeOk(r.value, inodes, Kept(entries));
        InodeReopen(r.value);
        assert OpenSectors(openInodes) == OpenSectors(openInodes) + {sector};
        return;
      }
      if !memory { return None; }
      var o := OpenNew(sector);
      r := Some(o);
    }

    /** An inode that is not open is read from disk. */
    method OpenNew(sector: nat) returns (o: Inode)
      requires Valid() && sector in Kept(entries) && sector !in OpenSectors(openInodes)
      modifies this`openInodes
      ensures Valid() && Live() == old(Live()) && openInodes == [o] + old(openInodes)
      ensures OpenSectors(openInodes) == old(OpenSectors(openInodes)) + {sector}
      ensures fresh(o) && o.sector == sector && o.openCnt == 1 && !o.removed && sector in inodes
        && o.data == inodes[sector]
    {
      assert OwnsExtent(sector, inodes, freeMap.marked);
      o := new Inode(sector, inodes[sector]);
      DistinctMore(o, openInodes);
      openInodes := [o] + openInodes;
      OpenSectorsHead(openInodes);
      assert openInodes[1..] == old(openInodes);
      assert Live() == old(Live());
      forall x | x in openInodes ensures InodeOk(x, inodes, Kept(entries)) {
        assert x in old(openInodes) ==> InodeOk(x, inodes, Kept(entries));
      }
    }

    /** inode_close(): the last closer of a removed inode releases its sectors. */
    method InodeClose(o: Inode)
      requires Valid() && o in openInodes
      modifies this`openInodes, o`openCnt, freeMap, freeMap.bitmap.bits
      ensures Valid() && Orphans() == old(Orphans())
      ensures old(o.openCnt) > 1 ==>
        openInodes == old(openInodes) && o.openCnt == old(o.openCnt) - 1 && Live() == old(Live())
          && freeMap.marked == old(freeMap.marked)
      ensures old(o.openCnt) == 1 ==>
        && openInodes == Removed(old(openInodes), o)
        && Live() == (if o.removed then old(Live()) - {o.sector} else old(Live()))
        && freeMap.marked == (if o.removed then old(freeMap.marked) - Extent(o.sector, o.data) else old(freeMap.marked))
    {
      assert InodeOk(o, inodes, Kept(entries));
      o.openCnt := o.openCnt - 1;
      forall x | x in openInodes && (x != o || o.openCnt > 0) ensures InodeOk(x, inodes, Kept(entries)) {
        assert old(InodeOk(x, inodes, Kept(entries)));
      }
      if o.openCnt > 0 { return; }
      Forget(o);
    }

    /** Valid, except that nobody has o open any more. */
    ghost predicate Unopened(o: Inode)
      reads this, freeMap, freeMap.bitmap, freeMap.bitmap.bits, openInodes, o
    {
      && freeMap.Valid() && DirOk(entries) && Owned(inodes, Live(), freeMap.marked)
      && Distinct(openInodes)
      && (forall x {:trigger InodeOk(x, inodes, Kept(entries))} :: x in openInodes && x != o ==>
            InodeOk(x, inodes, Kept(entries)))
      && o in openInodes && o.sector in inodes && o.data == inodes[o.sector]
      && (o.removed <==> o.sector !in Kept(entries))
    }

    method Forget(o: Inode)
      requires Unopened(o)
      modifies this`openInodes, freeMap, freeMap.bitmap.bits
      ensures Valid() && Orphans() == old(Orphans())
      ensures openInodes == Removed(old(openInodes), o)
      ensures Live() == if o.removed then old(Live()) - {o.sector} else old(Live())
      ensures freeMap.marked == if o.removed then old(freeMap.marked) - Extent(o.sector, o.data)
        else old(freeMap.marked)
    {
      OpenWithout(openInodes, o, inodes, Kept(entries));
      openInodes := Removed(openInodes, o);
      if o.removed {
        assert Live() + {o.sector} == old(Live());
        ReleaseSectors(o);
      } else {
        assert Live() == old(Live());
      }
    }

    /** The sectors of a removed inode that nobody has open go back to the free map. */
    method ReleaseSectors(o: Inode)
      requires freeMap.Valid() && o.sector !in Live() && Owned(inodes, Live() + {o.sector}, freeMap.marked)
      requires o.sector in inodes && o.data == inodes[o.sector]
      modifies freeMap, freeMap.bitmap.bits
      ensures freeMap.Valid()
      ensures Owned(inodes, Live(), freeMap.marked) && freeMap.marked == old(freeMap.marked) - Extent(o.sector, o.data)
      ensures Orphans() == Orphaned(inodes, Live() + {o.sector}, old(freeMap.marked))
    {
      Disown(inodes, Live(), freeMap.marked, o.sector);
      OrphansAfterRelease(inodes, Live(), freeMap.marked, o.sector);
      ghost var rest := freeMap.marked - Extent(o.sector, o.data);
      freeMap.Release(o.sector, 1);
      freeMap.Release(o.data.start, BytesToSectors(o.data.length));
      assert freeMap.marked == rest;
    }

    // ----- The directory

    /** lookup() in the root directory, when the first `readCnt` reads of an entry succeed. */
    method Lookup(name: string, readCnt: nat) returns (r: Option<nat>)
      ensures r.Some? <==> Taken(entries, name, readCnt)
      ensures r.Some? ==> r.value < |entries| && r.value < readCnt && IsNamed(entries[r.value], name)
    {
      var i := 0;
      while i < |entries| && i < readCnt
        invariant i <= |entries| && forall j :: 0 <= j < i ==> !IsNamed(entries[j], name)
      {
        if entries[i].inUse && entries[i].name == name { return Some(i); }
        i := i + 1;
      }
      return None;
    }

    /** The slot that dir_add() writes to. */
    method FindSlot(readCnt: nat) returns (i: nat)
      ensures i == SlotFor(entries, readCnt)
    {
      i := 0;
      while i < |entries| && i < readCnt && entries[i].inUse
        invariant i <= |entries| && i <= readCnt && SlotFor(entries, readCnt) == i + SlotFor(entries[i..], readCnt - i)
      {
        assert entries[i..][1..] == entries[i + 1..];
        i := i + 1;
      }
    }

    /** dir_add() to the root directory, which cannot grow, when the given numbers of
        reads of an entry succeed while it looks for the name and for a slot. */
    method DirAdd(name: string, sector: nat, lookupReads: nat, slotReads: nat, written: bool) returns (ok: bool)
      modifies this`entries
      ensures ok <==>
        && ValidName(name) && !Taken(old(entries), name, lookupReads)
        && SlotFor(old(entries), slotReads) < |old(entries)| && written
      ensures entries == if ok then old(entries)[SlotFor(old(entries), slotReads) := Entry(sector, name, true)]
        else old(entries)
    {
      if |name| == 0 || |name| > NAME_MAX { return false; }
      var found := Lookup(name, lookupReads);
      if found.Some? { return false; }
      var i := FindSlot(slotReads);
      if i == |entries| || !written { return false; }
      entries := entries[i := Entry(sector, name, true)];
      ok := true;
    }

    /** An open inode loses its name: it stays live until its last close. */
    method Erase(i: nat, o: Inode)
      requires Valid() && i < |entries| && entries[i].inUse && o in openInodes && o.sector == entries[i].sector
      modifies this`entries, o`removed
      ensures Valid() && o.removed && Live() == old(Live())
      ensures entries == old(entries)[i := old(entries)[i].(inUse := false)]
    {
      NamedAfterErase(entries, i);
      assert EntryOk(entries, i);
      OtherSectors(openInodes, o);
      entries := entries[i := entries[i].(inUse := false)];
      o.removed := true;
      assert Kept(entries) == old(Kept(entries)) - {o.sector};
      assert Live() == old(Live()) by { assert o.sector in OpenSectors(openInodes); }
      forall x | x in openInodes ensures InodeOk(x, inodes, Kept(entries)) {
        assert old(InodeOk(x, inodes, Kept(entries)));
      }
    }

    /** dir_remove() of the entry in slot i, whose inode o somebody has open: it stays
        live, without a name. */
    method RemoveOpen(i: nat, o: Inode, written: bool)
      requires Valid() && i < |entries| && entries[i].inUse && o in openInodes && o.sector == entries[i].sector
      modifies this`entries, this`openInodes, o, freeMap, freeMap.bitmap.bits
      ensures Valid() && Live() == old(Live()) && freeMap.marked == old(freeMap.marked) && Orphans() == old(Orphans())
      ensures openInodes == old(openInodes) && o.openCnt == old(o.openCnt) && (o.removed <==> old(o.removed) || written)
      ensures entries == if written then old(entries)[i := old(entries)[i].(inUse := false)] else old(entries)
    {
      assert InodeOk(o, inodes, Kept(entries));
      InodeReopen(o);
      if written {
        Erase(i, o);
      }
      InodeClose(o);
    }

    /** dir_remove() of the entry in slot i, whose inode nobody has open: its sectors
        go back to the free map. */
    method RemoveClosed(i: nat, written: bool)
      requires Valid() && i < |entries| && entries[i].inUse && entries[i].sector !in OpenSectors(openInodes)
      modifies this`entries, this`openInodes, freeMap, freeMap.bitmap.bits
      ensures Valid() && openInodes == old(openInodes) && Orphans() == old(Orphans())
      ensures !written ==> entries == old(entries) && Live() == old(Live()) && freeMap.marked == old(freeMap.marked)
      ensures written ==>
        var s := old(entries)[i].sector;
        && entries == old(entries)[i := old(entries)[i].(inUse := false)] && s in inodes
        && Live() == old(Live()) - {s} && freeMap.marked == old(freeMap.marked) - Extent(s, inodes[s])
    {
      assert entries[i].sector in Named(entries);
      var o := OpenNew(entries[i].sector);
      if written {
        Erase(i, o);
      }
      InodeClose(o);
      assert Removed([o] + old(openInodes), o) == old(openInodes);
    }

    /** What a removal of the inode at s leaves of the handles: they stay open, and know
        if their inode has lost its name. */
    twostate predicate HandlesKept(ok: bool, s: nat)
      reads this, openInodes
    {
      && openInodes == old(openInodes)
      && forall o :: o in openInodes ==>
        o.openCnt == old(o.openCnt) && (o.removed <==> old(o.removed) || (ok && o.sector == s))
    }

    /** dir_remove(), and so filesys_remove(): `memory` tells if an in-memory inode could
        be allocated and `written` if the directory could be written; i is the slot
        of the name, if there is one. */
    method DirRemove(name: string, readCnt: nat, memory: bool, written: bool) returns (ok: bool, ghost i: nat)
      requires Valid()
      modifies this`entries, this`openInodes, openInodes, freeMap, freeMap.bitmap.bits
      ensures Valid() && Orphans() == old(Orphans())
      ensures Taken(old(entries), name, readCnt) ==> i < |old(entries)| && IsNamed(old(entries)[i], name)
      ensures ok <==>
        && Taken(old(entries), name, readCnt) && written
        && (memory || old(entries)[i].sector in OpenSectors(old(openInodes)))
      ensures !ok ==>
        entries == old(entries) && Live() == old(Live()) && freeMap.marked == old(freeMap.marked)
          && HandlesKept(false, 0)
      ensures ok ==>
        var s := old(entries)[i].sector;
        && entries == old(entries)[i := old(entries)[i].(inUse := false)] && !Taken(entries, name, |entries|)
        && HandlesKept(true, s)
        && (s in OpenSectors(old(openInodes)) ==> Live() == old(Live()) && freeMap.marked == old(freeMap.marked))
        && (s !in OpenSectors(old(openInodes)) ==>
              s in inodes && Live() == old(Live()) - {s}
                && freeMap.marked == old(freeMap.marked) - Extent(s, inodes[s]))
    {
      i := 0;
      var found := Lookup(name, readCnt);
      if found.None? { return false, i; }
      i := found.value;
      NameGone(entries, i);
      var o := FindOpen(entries[found.value].sector);
      ok := written && (o.Some? || memory);
      if o.Some? {
        OtherSectors(openInodes, o.value);
        RemoveOpen(found.value, o.value, written);
      } else if memory {
        RemoveClosed(found.value, written);
      }
    }

    // ----- Files

    /** A new inode that is not yet named: the rest of the volume is as before. */
    ghost predicate Unnamed(sector: nat)
      reads this, freeMap, freeMap.bitmap, freeMap.bitmap.bits, openInodes
    {
      && freeMap.Valid() && DirOk(entries) && sector !in Live()
      && Owned(inodes, Live() + {sector}, freeMap.marked)
      && OpenOk(openInodes, inodes, Kept(entries))
    }

    /** Two free extents become an inode and its data. */
    method NewInode(length: nat, g: Grants) returns (r: Option<nat>)
      requires Valid()
      modifies this`inodes, freeMap, freeMap.bitmap.bits
      ensures r.Some? <==> Allocates(old(freeMap.bitmap.Bits()), length, g)
      ensures r.None? ==> Valid() && freeMap.marked == old(freeMap.marked) && inodes == old(inodes)
      ensures r.Some? ==>
        && Unnamed(r.value) && r.value in inodes && inodes[r.value].length == length
        && Extent(r.value, inodes[r.value]) !! old(freeMap.marked) && r.value !in Data(inodes[r.value])
        && freeMap.marked == old(freeMap.marked) + Extent(r.value, inodes[r.value])
        && inodes == (old(inodes) - Data(inodes[r.value]))[r.value := inodes[r.value]]
    {
      r := InodeSector(g.written);
      if r.None? { return; }
      ghost var marked := old(freeMap.marked);
      LiveMarked(inodes, Live(), marked);
      assert freeMap.marked - {r.value} == marked;
      var ok := InodeCreate(r.value, length, g.memory, g.dataWritten, Live());
      if ok {
        NewAmongOpen(r.value);
      } else {
        DropSector(r.value);
        r := None;
      }
    }

    /** Valid, if the free map had other marks. */
    ghost predicate ValidWith(marked: set<nat>)
      reads this, openInodes
    {
      DirOk(entries) && Owned(inodes, Live(), marked) && OpenOk(openInodes, inodes, Kept(entries))
    }

    /** The sector allocated for an inode that did not come about is given back. */
    method DropSector(s: nat)
      requires freeMap.Valid() && s in freeMap.marked && ValidWith(freeMap.marked - {s})
      modifies freeMap, freeMap.bitmap.bits
      ensures Valid() && freeMap.marked == old(freeMap.marked) - {s}
    {
      assert Range(s, 1) == {s};
      freeMap.Release(s, 1);
    }

    /** The first free sector, for an inode. */
    method InodeSector(written: bool) returns (r: Option<nat>)
      requires freeMap.Valid()
      modifies freeMap, freeMap.bitmap.bits
      ensures freeMap.Valid()
      ensures var b := old(freeMap.bitmap.Bits());
              && (r.Some? <==> written && FirstFree(b) < |b|) && (r.Some? ==> r.value == FirstFree(b))
              && freeMap.bitmap.Bits() == if r.Some? then b[r.value := true] else b
      ensures r.Some? ==> r.value !in old(freeMap.marked)
      ensures freeMap.marked == old(freeMap.marked) + if r.Some? then {r.value} else {}
    {
      ghost var b := freeMap.bitmap.Bits();
      r := freeMap.Allocate(1, written);
      if r.Some? || written { FirstFreeFits(b, r); }
      if r.Some? {
        assert freeMap.bitmap.Bits() == b[r.value := true];
        assert r.value in Range(r.value, 1) && Range(r.value, 1) == {r.value};
      }
    }

    /** What is open was not overwritten by a new inode. */
    twostate lemma {:induction false} NewAmongOpen(s: nat)
      requires old(Valid()) && s in inodes && s !in old(Live()) && old(Live() <= freeMap.marked)
      requires openInodes == old(openInodes) && entries == old(entries)
      requires forall o :: o in openInodes ==> o.openCnt == old(o.openCnt) && o.removed == old(o.removed)
      requires Data(inodes[s]) !! old(freeMap.marked) && inodes == (old(inodes) - Data(inodes[s]))[s := inodes[s]]
      ensures OpenOk(openInodes, inodes, Kept(entries))
    {
      forall o | o in openInodes ensures InodeOk(o, inodes, Kept(entries)) {
        assert old(InodeOk(o, inodes, Kept(entries)));
        assert o.sector in OpenSectors(openInodes);
      }
    }

    /** A file that cannot be named gives back its inode sector, but not its data. */
    method Unmake(sector: nat)
      requires Unnamed(sector)
      modifies freeMap, freeMap.bitmap.bits
      ensures Valid() && freeMap.marked == old(freeMap.marked) - {sector}
    {
      Disown(inodes, Live(), freeMap.marked, sector);
      assert Range(sector, 1) == {sector};
      OwnFewer(inodes, Live(), freeMap.marked - Extent(sector, inodes[sector]), Live(), freeMap.marked - {sector});
      freeMap.Release(sector, 1);
    }

    /** A new inode gets its name, or is given up. */
    method NameInode(name: string, sector: nat, g: Grants) returns (ok: bool)
      requires Unnamed(sector)
      modifies this`entries, freeMap, freeMap.bitmap.bits
      ensures ok <==> Enters(old(entries), name, g)
      ensures !ok ==> Valid() && entries == old(entries) && freeMap.marked == old(freeMap.marked) - {sector}
      ensures ok ==>
        var i := SlotFor(old(entries), g.slotReads);
        && freeMap.Valid() && freeMap.marked == old(freeMap.marked)
        && entries == old(entries)[i := Entry(sector, name, true)]
        && (Valid() <==> Harmless(old(entries), i, name, OpenSectors(openInodes)))
        && (Valid() ==> Live() == old(Live()) + {sector} - Lost(old(entries), i))
    {
      ok := DirAdd(name, sector, g.lookupReads, g.slotReads, g.dirWritten);
      if ok {
        Renamed(old(entries), SlotFor(old(entries), g.slotReads), Entry(sector, name, true));
      } else {
        Unmake(sector);
      }
    }

    /** The directory has changed in slot i only, to name a new inode. */
    lemma {:induction false} Renamed(was: seq<Entry>, i: nat, e: Entry)
      requires freeMap.Valid() && DirOk(was) && i < |was| && e.inUse && ValidName(e.name) && entries == was[i := e]
      requires e.sector !in Kept(was) + OpenSectors(openInodes)
      requires Owned(inodes, Kept(was) + OpenSectors(openInodes) + {e.sector}, freeMap.marked)
        && OpenOk(openInodes, inodes, Kept(was))
      ensures Valid() <==> Harmless(was, i, e.name, OpenSectors(openInodes))
      ensures Valid() ==> Live() == Kept(was) + OpenSectors(openInodes) + {e.sector} - Lost(was, i)
    {
      AfterAdd(was, i, e);
      assert EntryOk(was, i);
      assert Kept(entries) == Kept(was) - Lost(was, i) + {e.sector};
      if Harmless(was, i, e.name, OpenSectors(openInodes)) {
        assert Live() == Kept(was) + OpenSectors(openInodes) + {e.sector} - Lost(was, i);
        OwnFewer(inodes, Kept(was) + OpenSectors(openInodes) + {e.sector}, freeMap.marked, Live(), freeMap.marked);
        forall o | o in openInodes ensures InodeOk(o, inodes, Kept(entries)) {
          assert o.sector in OpenSectors(openInodes) && InodeOk(o, inodes, Kept(was));
        }
      } else if DirOk(entries) {
        assert was[i].sector in Named(was);
        var k :| 0 <= k < |openInodes| && openInodes[k].sector == was[i].sector;
        assert openInodes[k] in openInodes && InodeOk(openInodes[k], inodes, Kept(was));
        assert !InodeOk(openInodes[k], inodes, Kept(entries));
      }
    }

    /** A new inode gets its name, or its data sectors are lost; inodes0 and marked0 are
        from before it was made. */
    method NameOrLose(name: string, s: nat, g: Grants, ghost inodes0: map<nat, DiskInode>, ghost marked0: set<nat>)
        returns (ok: bool)
      requires Unnamed(s) && s in inodes && inodes == (inodes0 - Data(inodes[s]))[s := inodes[s]]
        && s !in Data(inodes[s])
      requires Owned(inodes0, Live(), marked0) && Extent(s, inodes[s]) !! marked0
        && freeMap.marked == marked0 + Extent(s, inodes[s])
      modifies this`entries, freeMap, freeMap.bitmap.bits
      ensures ok <==> Enters(old(entries), name, g)
      ensures ok ==>
        var i := SlotFor(old(entries), g.slotReads);
        && entries == old(entries)[i := Entry(s, name, true)] && s !in old(Live())
        && freeMap.marked == old(freeMap.marked)
        && (Valid() <==> Harmless(old(entries), i, name, OpenSectors(openInodes)))
        && (Valid() ==>
              && Live() == old(Live()) + {s} - Lost(old(entries), i)
              && Orphans() == Orphaned(inodes0, old(Live()), marked0) + LostExtent(old(entries), i, inodes0))
      ensures !ok ==>
        && Valid() && entries == old(entries) && freeMap.marked == marked0 + Data(inodes[s])
        && (freeMap.marked == marked0 <==> BytesToSectors(inodes[s].length) == 0)
        && Orphans() == Orphaned(inodes0, Live(), marked0) + Data(inodes[s])
      ensures forall t :: t in old(Live()) ==> t in inodes && t in inodes0 && inodes[t] == inodes0[t]
    {
      CreateOrLose(inodes0, Live(), marked0, s, inodes[s], inodes);
      ghost var live, was := Live(), entries;
      ok := NameInode(name, s, g);
      assert marked0 + Extent(s, inodes[s]) - {s} == marked0 + Data(inodes[s]);
      if ok && Valid() { OverwriteOrphans(was, SlotFor(was, g.slotReads), live, s, inodes0, marked0); }
    }

    /** What a new name orphans: the file whose entry it overwrote, if any. */
    lemma {:induction false} OverwriteOrphans(was: seq<Entry>, i: nat, live: set<nat>, s: nat,
        inodes0: map<nat, DiskInode>, marked0: set<nat>)
      requires i < |was| && (was[i].inUse ==> was[i].sector in live) && s !in live
        && Live() == live + {s} - Lost(was, i)
      requires Owned(inodes, live + {s}, freeMap.marked)
      requires Orphaned(inodes, live + {s}, freeMap.marked) == Orphaned(inodes0, live, marked0)
      requires forall t :: t in live ==> t in inodes && t in inodes0 && inodes[t] == inodes0[t]
      ensures Orphans() == Orphaned(inodes0, live, marked0) + LostExtent(was, i, inodes0)
    {
      if was[i].inUse {
        OrphansAfterOverwrite(inodes, live + {s}, freeMap.marked, was[i].sector);
      } else {
        assert Live() == live + {s};
      }
    }

    /** filesys_create(), with the root directory open; s is the new inode.  If there is
        room but the name cannot be entered, the data sectors stay marked and belong
        to nobody.  If reads of the directory stop early, the entry of another file
        may be overwritten or the name entered twice. */
    method FilesysCreate(name: string, length: nat, g: Grants) returns (ok: bool, ghost s: nat)
      requires Valid()
      modifies this`inodes, this`entries, freeMap, freeMap.bitmap.bits
      ensures ok <==> Allocates(old(freeMap.bitmap.Bits()), length, g) && Enters(old(entries), name, g)
      ensures ok ==>
        var i := SlotFor(old(entries), g.slotReads);
        && entries == old(entries)[i := Entry(s, name, true)]
        && s !in old(Live()) && s in inodes && inodes[s].length == length
        && Extent(s, inodes[s]) !! old(freeMap.marked) && freeMap.marked == old(freeMap.marked) + Extent(s, inodes[s])
        && (Valid() <==> Harmless(old(entries), i, name, OpenSectors(openInodes)))
        && (Valid() ==>
              && Live() == old(Live()) + {s} - Lost(old(entries), i)
              && Orphans() == old(Orphans()) + LostExtent(old(entries), i, old(inodes)))
      ensures !ok ==> Valid() && entries == old(entries)
      ensures !ok ==>
        (freeMap.marked == old(freeMap.marked) <==>
          !Allocates(old(freeMap.bitmap.Bits()), length, g) || BytesToSectors(length) == 0)
      ensures !ok && !Allocates(old(freeMap.bitmap.Bits()), length, g) ==> Orphans() == old(Orphans())
      ensures !ok && Allocates(old(freeMap.bitmap.Bits()), length, g) ==>
        && s in inodes && inodes[s].length == length && Data(inodes[s]) !! old(freeMap.marked)
        && freeMap.marked == old(freeMap.marked) + Data(inodes[s]) && Orphans() == old(Orphans()) + Data(inodes[s])
      ensures forall t :: t in old(Live()) ==> t in inodes && t in old(inodes) && inodes[t] == old(inodes)[t]
    {
      s := 0;
      var sector := NewInode(length, g);
      if sector.None? {
        OwnedKnown(inodes, Live(), freeMap.marked);
        return false, s;
      }
      s := sector.value;
      ok := NameOrLose(name, sector.value, g, old(inodes), old(freeMap.marked));
    }

    /** filesys_create() when the directory can be read completely. */
    method CreateComplete(name: string, length: nat, g: Grants) returns (ok: bool, ghost s: nat)
      requires Valid() && |entries| <= g.lookupReads && |entries| <= g.slotReads
      modifies this`inodes, this`entries, freeMap, freeMap.bitmap.bits
      ensures Valid()
      ensures ok <==> Allocates(old(freeMap.bitmap.Bits()), length, g) && Nameable(old(entries), name) && g.dirWritten
      ensures ok ==>
        var i := SlotFor(old(entries), g.slotReads);
        && i < |old(entries)| && !old(entries)[i].inUse && (forall j :: 0 <= j < i ==> old(entries)[j].inUse)
        && entries == old(entries)[i := Entry(s, name, true)] && Taken(entries, name, |entries|)
        && Live() == old(Live()) + {s} && s in inodes && inodes[s].length == length
        && freeMap.marked == old(freeMap.marked) + Extent(s, inodes[s]) && Orphans() == old(Orphans())
      ensures !ok ==> entries == old(entries) && Live() == old(Live())
      ensures !ok && Allocates(old(freeMap.bitmap.Bits()), length, g) ==>
        && s in inodes && inodes[s].length == length && Data(inodes[s]) !! old(freeMap.marked)
        && freeMap.marked == old(freeMap.marked) + Data(inodes[s]) && Orphans() == old(Orphans()) + Data(inodes[s])
    {
      CompleteReads(entries, name, g, OpenSectors(openInodes));
      ok, s := FilesysCreate(name, length, g);
      if ok { assert IsNamed(entries[SlotFor(old(entries), g.slotReads)], name); }
    }

    /** filesys_open(), with the root directory open: `memory` tells if an in-memory
        inode could be allocated, and fileMemory if the file itself could be, without
        which the inode is closed again. */
    method FilesysOpen(name: string, readCnt: nat, memory: bool, fileMemory: bool)
        returns (r: Option<Inode>, ghost i: nat)
      requires Valid()
      modifies this`openInodes, openInodes, freeMap, freeMap.bitmap.bits
      ensures Valid() && Live() == old(Live()) && freeMap.marked == old(freeMap.marked)
      ensures Taken(entries, name, readCnt) ==> i < |entries| && IsNamed(entries[i], name)
      ensures r.Some? <==>
        && Taken(entries, name, readCnt) && fileMemory
        && (memory || entries[i].sector in OpenSectors(old(openInodes)))
      ensures r.None? ==> openInodes == old(openInodes)
      ensures r.Some? ==> r.value in openInodes && r.value.sector == entries[i].sector && !r.value.removed
      ensures r.Some? ==> (r.value in old(openInodes) <==> entries[i].sector in OpenSectors(old(openInodes)))
      ensures r.Some? && r.value in old(openInodes) ==>
        openInodes == old(openInodes) && r.value.openCnt == old(r.value.openCnt) + 1
      ensures r.Some? && r.value !in old(openInodes) ==>
        fresh(r.value) && openInodes == [r.value] + old(openInodes) && r.value.openCnt == 1
      ensures OthersKept(old(openInodes), r)
    {
      i := 0;
      var found := Lookup(name, readCnt);
      if found.None? { return None, i; }
      i := found.value;
      assert entries[i].sector in Named(entries);
      r := FileOpen(entries[found.value].sector, memory, fileMemory);
    }

    /** file_open() of inode_open(): without memory for the file, the inode is closed
        again. */
    method FileOpen(sector: nat, memory: bool, fileMemory: bool) returns (r: Option<Inode>)
      requires Valid() && sector in Kept(entries)
      modifies this`openInodes, openInodes, freeMap, freeMap.bitmap.bits
      ensures Valid() && Live() == old(Live()) && freeMap.marked == old(freeMap.marked)
      ensures r.Some? <==> fileMemory && (memory || sector in OpenSectors(old(openInodes)))
      ensures r.None? ==> openInodes == old(openInodes)
      ensures r.Some? ==> r.value in openInodes && r.value.sector == sector && !r.value.removed
      ensures r.Some? ==> (r.value in old(openInodes) <==> sector in OpenSectors(old(openInodes)))
      ensures r.Some? && r.value in old(openInodes) ==>
        openInodes == old(openInodes) && r.value.openCnt == old(r.value.openCnt) + 1
      ensures r.Some? && r.value !in old(openInodes) ==>
        fresh(r.value) && openInodes == [r.value] + old(openInodes) && r.value.openCnt == 1
      ensures OthersKept(old(openInodes), r)
    {
      r := InodeOpen(sector, memory);
      if r.Some? && !fileMemory {
        var o := r.value;
        InodeClose(o);
        assert Removed([o] + old(openInodes), o) == old(openInodes);
        r := None;
      }
    }
  }

  // ----- Opening, removing and closing

  /** A file that nobody has open is opened n times: all openers share one inode. */
  method OpenMany(v: Volume, name: string, n: nat) returns (o: Inode, ghost i: nat)
    requires v.Valid() && n > 0 && Taken(v.entries, name, |v.entries|)
    requires forall k :: 0 <= k < |v.entries| && IsNamed(v.entries[k], name) ==>
      v.entries[k].sector !in OpenSectors(v.openInodes)
    modifies v`openInodes, v.openInodes, v.freeMap, v.freeMap.bitmap.bits
    ensures v.Valid() && v.Live() == old(v.Live()) && v.freeMap.marked == old(v.freeMap.marked)
    ensures i < |v.entries| && IsNamed(v.entries[i], name) && o.sector == v.entries[i].sector
    ensures fresh(o) && v.openInodes == [o] + old(v.openInodes) && o.openCnt == n && !o.removed
    ensures forall x :: x in old(v.openInodes) ==> x.openCnt == old(x.openCnt) && x.removed == old(x.removed)
  {
    var r;
    r, i := v.FilesysOpen(name, |v.entries|, true, true);
    o := r.value;
    OpenSectorsHead(v.openInodes);
    for k := 1 to n
      invariant v.Valid() && v.Live() == old(v.Live()) && v.freeMap.marked == old(v.freeMap.marked)
      invariant i < |v.entries| && IsNamed(v.entries[i], name) && o.sector == v.entries[i].sector
      invariant fresh(o) && v.openInodes == [o] + old(v.openInodes) && o.openCnt == k && !o.removed
      invariant forall x :: x in old(v.openInodes) ==> x.openCnt == old(x.openCnt) && x.removed == old(x.removed)
    {
      ghost var j;
      assert o in v.openInodes && o.sector in OpenSectors(v.openInodes);
      OtherSectors(v.openInodes, o);
      SameSlot(v.entries, name);
      r, j := v.FilesysOpen(name, |v.entries|, true, true);
      assert r.value == o;
    }
  }

  /** A name is in one slot only. */
  lemma {:induction false} SameSlot(entries: seq<Entry>, name: string)
    requires DirOk(entries)
    ensures forall i, j ::
      0 <= i < |entries| && 0 <= j < |entries| && IsNamed(entries[i], name) && IsNamed(entries[j], name) ==> i == j
  {
    forall i, j | 0 <= i < |entries| && 0 <= j < |entries| && IsNamed(entries[i], name) && IsNamed(entries[j], name)
      ensures i == j
    {
      assert i != j ==> NoClash(entries, i, j);
    }
  }

  /** Closes that leave an opener release nothing. */
  method CloseSome(v: Volume, o: Inode, n: nat)
    requires v.Valid() && o in v.openInodes && n < o.openCnt
    modifies v`openInodes, o`openCnt, v.freeMap, v.freeMap.bitmap.bits
    ensures v.Valid() && v.openInodes == old(v.openInodes) && o.openCnt == old(o.openCnt) - n
    ensures v.Live() == old(v.Live()) && v.freeMap.marked == old(v.freeMap.marked)
  {
    for k := 0 to n
      invariant v.Valid() && v.openInodes == old(v.openInodes) && o.openCnt == old(o.openCnt) - k
      invariant v.Live() == old(v.Live()) && v.freeMap.marked == old(v.freeMap.marked)
    {
      v.InodeClose(o);
    }
  }

  /** A file is opened n times, removed while it is open, and closed n times: its
      sectors are released by the last close and not before.  `kept` are the marked
      sectors before that close. */
  method LastCloseReleases(v: Volume, name: string, n: nat) returns (ok: bool, o: Inode, ghost kept: set<nat>)
    requires v.Valid() && n > 0 && Taken(v.entries, name, |v.entries|)
    requires forall k :: 0 <= k < |v.entries| && IsNamed(v.entries[k], name) ==>
      v.entries[k].sector !in OpenSectors(v.openInodes)
    modifies v, v.openInodes, v.freeMap, v.freeMap.bitmap.bits
    ensures ok && v.Valid() && !Taken(v.entries, name, |v.entries|) && v.openInodes == old(v.openInodes)
    ensures kept == old(v.freeMap.marked) && Extent(o.sector, o.data) <= kept
    ensures v.freeMap.marked == kept - Extent(o.sector, o.data) && v.Live() == old(v.Live()) - {o.sector}
    ensures forall x :: x in old(v.openInodes) ==> x.openCnt == old(x.openCnt) && x.removed == old(x.removed)
  {
    ghost var i;
    o, i := OpenMany(v, name, n);
    ok := RemoveOpened(v, name, o, i);
    CloseSome(v, o, n - 1);
    kept := v.freeMap.marked;
    CloseLast(v, o);
    assert Removed([o] + old(v.openInodes), o) == old(v.openInodes);
  }

  /** Removing a file that is open releases nothing. */
  method RemoveOpened(v: Volume, name: string, o: Inode, ghost i: nat) returns (ok: bool)
    requires v.Valid() && i < |v.entries| && IsNamed(v.entries[i], name)
    requires o in v.openInodes && o.sector == v.entries[i].sector
    modifies v`entries, v`openInodes, v.openInodes, v.freeMap, v.freeMap.bitmap.bits
    ensures ok && v.Valid() && !Taken(v.entries, name, |v.entries|) && v.openInodes == old(v.openInodes)
    ensures v.Live() == old(v.Live()) && v.freeMap.marked == old(v.freeMap.marked)
    ensures forall x :: x in v.openInodes ==>
      x.openCnt == old(x.openCnt) && (x.removed <==> old(x.removed) || x == o)
  {
    ghost var j;
    SameSlot(v.entries, name);
    OtherSectors(v.openInodes, o);
    assert o.sector in OpenSectors(v.openInodes);
    ok, j := v.DirRemove(name, |v.entries|, false, true);
  }

  /** The last close of a removed file releases all its sectors. */
  method CloseLast(v: Volume, o: Inode)
    requires v.Valid() && o in v.openInodes && o.openCnt == 1 && o.removed
    modifies v`openInodes, o`openCnt, v.freeMap, v.freeMap.bitmap.bits
    ensures v.Valid() && v.openInodes == Removed(old(v.openInodes), o) && v.Live() == old(v.Live()) - {o.sector}
    ensures Extent(o.sector, o.data) <= old(v.freeMap.marked)
    ensures v.freeMap.marked == old(v.freeMap.marked) - Extent(o.sector, o.data)
  {
    assert InodeOk(o, v.inodes, Kept(v.entries)) && o.sector in OpenSectors(v.openInodes);
    assert OwnsExtent(o.sector, v.inodes, v.freeMap.marked);
    v.InodeClose(o);
  }

  // ----- The leak

  /** Creating a file that exists already, with one sector of data, fails and leaves a
      sector marked that belongs to nobody. */
  method CreateAgain(v: Volume, name: string, ghost x: nat, ghost y: nat) returns (ok: bool, ghost z: nat)
    requires v.Valid() && Taken(v.entries, name, |v.entries|)
    requires x < v.freeMap.bitmap.bitCnt && y < v.freeMap.bitmap.bitCnt && x != y
    requires x !in v.freeMap.marked && y !in v.freeMap.marked
    modifies v, v.freeMap, v.freeMap.bitmap.bits
    ensures v.Valid() && !ok
    ensures z !in old(v.freeMap.marked) && v.freeMap.marked == old(v.freeMap.marked) + {z}
      && v.Orphans() == old(v.Orphans()) + {z}
  {
    var g := Grants(true, true, true, true, |v.entries|, |v.entries|);
    assert Allocates(v.freeMap.bitmap.Bits(), 512, g) by { TwoFree(v.freeMap.bitmap.Bits(), x, y, 512); }
    ghost var s;
    ok, s := v.CreateComplete(name, 512, g);
    z := v.inodes[s].start;
    assert Data(v.inodes[s]) == {z} by { assert Range(z, 1) == {z}; }
  }

  /** A small new volume: sectors 4 and up are free, and so is every slot. */
  method NewVolume() returns (v: Volume)
    ensures fresh(v) && fresh(v.freeMap) && fresh(v.freeMap.bitmap.bits)
    ensures v.Valid() && v.Orphans() == {} && v.freeMap.bitmap.bitCnt == 16 && v.freeMap.marked == Range(0, 4)
    ensures |v.entries| == ROOT_ENTRIES && v.openInodes == []
    ensures forall i :: 0 <= i < |v.entries| ==> !v.entries[i].inUse
    ensures Room(v.freeMap.bitmap.Bits(), 0)
  {
    assert MapSectors(16) == 1;
    var r := Volume.Format(16, true, true, true, true);
    v := r.value;
    assert 4 !in Range(0, 4) && 5 !in Range(0, 4);
    TwoFree(v.freeMap.bitmap.Bits(), 4, 5, 0);
  }

  /** The first file of a new volume, of no length, in the first slot. */
  method CreateFirst() returns (v: Volume, ghost s: nat)
    ensures fresh(v) && fresh(v.freeMap) && fresh(v.freeMap.bitmap.bits)
    ensures v.Valid() && v.Orphans() == {} && v.openInodes == []
    ensures |v.entries| == ROOT_ENTRIES && IsNamed(v.entries[0], "a")
    ensures forall i :: 1 <= i < |v.entries| ==> !v.entries[i].inUse
    ensures v.freeMap.bitmap.bitCnt == 16 && v.freeMap.marked == Range(0, 4) + {s}
  {
    v := NewVolume();
    FirstName(v.entries, "a");
    assert !v.entries[0].inUse;
    var ok;
    ok, s := v.CreateComplete("a", 0, Grants(true, true, true, true, |v.entries|, |v.entries|));
    assert Extent(s, v.inodes[s]) == {s} by { assert Range(v.inodes[s].start, 0) == {}; }
  }

  /** Room for one more inode of no length. */
  lemma {:induction false} RoomLeft(b: seq<bool>, s: nat)
    requires |b| == 16 && SetBits(0, b) == Range(0, 4) + {s}
    ensures Room(b, 0)
  {
    var x, y := if s == 4 then 5 else 4, if s == 6 then 5 else 6;
    assert x !in Range(0, 4) + {s} && y !in Range(0, 4) + {s};
    assert x !in SetBits(0, b) && y !in SetBits(0, b);
    TwoFree(b, x, y, 0);
  }

  /** A run in which the name is entered twice, because looking for it found no memory. */
  method EnteredTwice() returns (v: Volume, ok: bool)
    ensures ok && |v.entries| > 1 && IsNamed(v.entries[0], "a") && IsNamed(v.entries[1], "a") && !v.Valid()
  {
    ghost var s;
    v, s := CreateFirst();
    RoomLeft(v.freeMap.bitmap.Bits(), s);
    assert SlotFor(v.entries, |v.entries|) == 1;
    ok, s := v.FilesysCreate("a", 0, Grants(true, true, true, true, 0, |v.entries|));
  }

  /** Creating a file when looking for a slot finds no memory: the file in the first slot
      loses its entry, and with it its sectors. */
  method OverwriteFirst(v: Volume, name: string) returns (ok: bool)
    requires v.Valid() && ValidName(name) && !Taken(v.entries, name, |v.entries|)
    requires v.entries != [] && v.entries[0].inUse && v.entries[0].sector !in OpenSectors(v.openInodes)
    requires Room(v.freeMap.bitmap.Bits(), 0)
    modifies v`inodes, v`entries, v.freeMap, v.freeMap.bitmap.bits
    ensures ok && v.Valid() && !Taken(v.entries, old(v.entries[0].name), |v.entries|)
    ensures old(v.entries[0].sector) in v.Orphans()
  {
    ghost var x := LostExtent(v.entries, 0, v.inodes);
    assert v.entries[0].sector in x by {
      assert v.entries[0].sector in Named(v.entries);
      assert OwnsExtent(v.entries[0].sector, v.inodes, v.freeMap.marked);
    }
    assert SlotFor(v.entries, 0) == 0 && Harmless(v.entries, 0, name, OpenSectors(v.openInodes));
    ghost var s;
    ok, s := v.FilesysCreate(name, 0, Grants(true, true, true, true, |v.entries|, 0));
    assert v.Orphans() == old(v.Orphans()) + x;
    assert forall i :: 0 <= i < |v.entries| ==> !IsNamed(v.entries[i], old(v.entries[0].name)) by {
      SameSlot(old(v.entries), old(v.entries[0].name));
    }
  }

  /** A run in which that happens. */
  method Overwritten() returns (v: Volume, ok: bool)
    ensures ok && v.Valid() && !Taken(v.entries, "a", |v.entries|) && v.Orphans() != {}
  {
    ghost var s;
    v, s := CreateFirst();
    RoomLeft(v.freeMap.bitmap.Bits(), s);
    NotTaken(v.entries, "a", "bb");
    ok := OverwriteFirst(v, "bb");
  }

  /** A directory whose only file has a name of another length. */
  lemma {:induction false} NotTaken(entries: seq<Entry>, taken: string, name: string)
    requires entries != [] && IsNamed(entries[0], taken) && |taken| != |name|
    requires forall i :: 1 <= i < |entries| ==> !entries[i].inUse
    ensures !Taken(entries, name, |entries|)
  {
    assert forall i :: 0 <= i < |entries| ==> i == 0 || !entries[i].inUse;
  }

  /** A run that leaks: the file is created twice. */
  method CreateTwice() returns (v: Volume, ok: bool)
    ensures v.Valid() && !ok && |v.Orphans()| == 1
  {
    ghost var s, z;
    v, s := CreateFirst();
    ghost var x, y := if s == 4 then 5 else 4, if s == 6 then 5 else 6;
    assert x !in Range(0, 4) + {s} && y !in Range(0, 4) + {s};
    assert Taken(v.entries, "a", |v.entries|);
    ok, z := CreateAgain(v, "a", x, y);
    assert v.Orphans() == {z};
  }

  /** Any valid name can be entered into an empty directory, in its first slot. */
  lemma {:induction false} FirstName(entries: seq<Entry>, name: string)
    requires ValidName(name) && entries != [] && forall i :: 0 <= i < |entries| ==> !entries[i].inUse
    ensures Nameable(entries, name)
  {
    assert !entries[0].inUse;
  }

  /** Two free sectors are room for an inode with up to one sector of data. */
  lemma {:induction false} TwoFree(b: seq<bool>, x: nat, y: nat, length: nat)
    requires x < |b| && y < |b| && x != y && !b[x] && !b[y] && length <= SECTOR_SIZE
    ensures Room(b, length)
  {
    var i := FirstFree(b);
    var t := if i == x then y else x;
    assert IsGroup(b[i := true], t, BytesToSectors(length), false);
  }
}
