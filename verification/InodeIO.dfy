/** Reading and writing file data through whole sectors (filesys/inode.c). */
module InodeIO {
  import opened Basics
  import opened BlockDevice
  import opened FileSystem

  // ----- A disk as a sequence of bytes

  ghost function ByteAt(disk: seq<seq<byte>>, i: nat): byte
    requires Sectors(disk) && i < |disk| * SECTOR_SIZE
  {
    disk[i / SECTOR_SIZE][i % SECTOR_SIZE]
  }

  /** The bytes from `at` on are data; all other bytes are as they were. */
  ghost predicate Replaced(was: seq<seq<byte>>, disk: seq<seq<byte>>, at: nat, data: seq<byte>) {
    && Sectors(was) && Sectors(disk) && |disk| == |was|
    && forall i: nat :: i < |was| * SECTOR_SIZE ==>
      ByteAt(disk, i) == if at <= i < at + |data| then data[i - at] else ByteAt(was, i)
  }

  /** The bytes from `at` on are data. */
  ghost predicate Reads(disk: seq<seq<byte>>, at: nat, data: seq<byte>) {
    && Sectors(disk) && (data == [] || at + |data| <= |disk| * SECTOR_SIZE)
    && forall i: nat :: i < |data| ==> data[i] == ByteAt(disk, at + i)
  }

  /** Byte `offset` of the file, counted from the start of the disk. */
  function Position(inode: DiskInode, offset: nat): nat {
    inode.start * SECTOR_SIZE + offset
  }

  /** How many of size bytes from offset lie within the file. */
  function Clipped(inode: DiskInode, size: int, offset: nat): nat {
    if size <= 0 || offset >= inode.length then 0
    else if size < inode.length - offset then size
    else inode.length - offset
  }

  /** The file's sectors are on the disk. */
  ghost predicate OnDisk(inode: DiskInode, disk: seq<seq<byte>>) {
    Sectors(disk) && inode.start + BytesToSectors(inode.length) <= |disk|
  }

  /** byte_to_sector(): the data sector that holds the byte, -1 past the end of the file. */
  function ByteToSector(inode: DiskInode, pos: nat): (s: int)
    ensures pos < inode.length ==>
      s >= 0 && s in Data(inode) && s * SECTOR_SIZE <= Position(inode, pos) < (s + 1) * SECTOR_SIZE
    ensures pos >= inode.length ==> s == -1
  {
    if pos < inode.length then inode.start + pos / SECTOR_SIZE else -1
  }

  lemma {:induction false} ReadsMore(disk: seq<seq<byte>>, at: nat, done: seq<byte>, k: nat, ofs: nat, n: nat)
    requires Reads(disk, at, done) && k < |disk| && ofs + n <= SECTOR_SIZE
    requires k * SECTOR_SIZE + ofs == at + |done|
    ensures |disk[k]| == SECTOR_SIZE && Reads(disk, at, done + disk[k][ofs..ofs + n])
  {
    var data := done + disk[k][ofs..ofs + n];
    forall i: nat | |done| <= i < |data| ensures data[i] == ByteAt(disk, at + i) {
      assert at + i == k * SECTOR_SIZE + (ofs + i - |done|);
    }
  }

  /** Bytes ofs, ..., ofs + |chunk| - 1 of a sector are exchanged. */
  function Patched(sector: seq<byte>, ofs: nat, chunk: seq<byte>): (r: seq<byte>)
    requires ofs + |chunk| <= |sector|
    ensures |r| == |sector|
  {
    sector[..ofs] + chunk + sector[ofs + |chunk|..]
  }

  lemma {:induction false} ReplacedMore(was: seq<seq<byte>>, disk: seq<seq<byte>>, at: nat, done: seq<byte>, k: nat,
      ofs: nat, chunk: seq<byte>)
    requires Replaced(was, disk, at, done) && k < |disk| && ofs + |chunk| <= SECTOR_SIZE
    requires k * SECTOR_SIZE + ofs == at + |done|
    ensures |disk[k]| == SECTOR_SIZE && Replaced(was, disk[k := Patched(disk[k], ofs, chunk)], at, done + chunk)
  {
    var disk' := disk[k := Patched(disk[k], ofs, chunk)];
    var data := done + chunk;
    forall i: nat | i < |was| * SECTOR_SIZE
      ensures ByteAt(disk', i) == if at <= i < at + |data| then data[i - at] else ByteAt(was, i)
    {
      assert ByteAt(disk, i) == if at <= i < at + |done| then done[i - at] else ByteAt(was, i);
      assert i == i / SECTOR_SIZE * SECTOR_SIZE + i % SECTOR_SIZE;
    }
  }

  /** inode_read_at(): `memory` tells if a bounce buffer could be allocated.  The
      result is what the caller's buffer holds up to the number of bytes read. */
  method ReadAt(disk: array<seq<byte>>, inode: DiskInode, size: int, offset: nat, memory: bool)
      returns (buffer: seq<byte>)
    requires OnDisk(inode, disk[..])
    ensures Reads(disk[..], Position(inode, offset), buffer)
    ensures |buffer| <= Clipped(inode, size, offset)
    ensures memory ==> |buffer| == Clipped(inode, size, offset)
  {
    buffer := [];
    var left, at := size, offset;
    while left > 0
      invariant at == offset + |buffer| && left == size - |buffer|
      invariant |buffer| <= Clipped(inode, size, offset)
      invariant Reads(disk[..], Position(inode, offset), buffer)
    {
      var sector := ByteToSector(inode, at);
      var ofs := at % SECTOR_SIZE;
      var inodeLeft := inode.length - at;
      var sectorLeft := SECTOR_SIZE - ofs;
      var minLeft := if inodeLeft < sectorLeft then inodeLeft else sectorLeft;
      var chunk := if left < minLeft then left else minLeft;
      if chunk <= 0 { break; }
      ReadsMore(disk[..], Position(inode, offset), buffer, sector, ofs, chunk);
      if ofs == 0 && chunk == SECTOR_SIZE {
        assert disk[sector][0..SECTOR_SIZE] == disk[sector];
        buffer := buffer + disk[sector];
      } else {
        if !memory { break; }
        buffer := buffer + disk[sector][ofs..ofs + chunk];
      }
      left, at := left - chunk, at + chunk;
    }
  }

  /** inode_write_at(). */
  method WriteAt(disk: array<seq<byte>>, inode: DiskInode, buffer: seq<byte>, offset: nat, denied: bool,
      memory: bool) returns (n: nat)
    requires OnDisk(inode, disk[..])
    modifies disk
    ensures n <= Clipped(inode, |buffer|, offset)
    ensures denied ==> n == 0
    ensures !denied && memory ==> n == Clipped(inode, |buffer|, offset)
    ensures Replaced(old(disk[..]), disk[..], Position(inode, offset), buffer[..n])
  {
    n := 0;
    if denied { return; }
    var zeros := seq(SECTOR_SIZE, _ => 0 as byte);
    var left, at := |buffer|, offset;
    while left > 0
      invariant at == offset + n && left == |buffer| - n
      invariant n <= Clipped(inode, |buffer|, offset)
      invariant Replaced(old(disk[..]), disk[..], Position(inode, offset), buffer[..n])
    {
      var sector := ByteToSector(inode, at);
      var ofs := at % SECTOR_SIZE;
      var inodeLeft := inode.length - at;
      var sectorLeft := SECTOR_SIZE - ofs;
      var minLeft := if inodeLeft < sectorLeft then inodeLeft else sectorLeft;
      var chunk := if left < minLeft then left else minLeft;
      if chunk <= 0 { break; }
      var data := buffer[n..n + chunk];
      ReplacedMore(old(disk[..]), disk[..], Position(inode, offset), buffer[..n], sector, ofs, data);
      assert buffer[..n] + data == buffer[..n + chunk];
      ghost var before := disk[..];
      if ofs == 0 && chunk == SECTOR_SIZE {
        assert Patched(before[sector], 0, data) == data;
        disk[sector] := data;
      } else {
        if !memory { break; }
        var bounce := zeros;
        if ofs > 0 || chunk < sectorLeft { bounce := disk[sector]; }
        disk[sector] := Patched(bounce, ofs, data);
      }
      assert disk[..] == before[sector := Patched(before[sector], ofs, data)];
      left, at, n := left - chunk, at + chunk, n + chunk;
    }
  }

  /** Reading back what was written. */
  lemma {:induction false} ReadAfterWrite(was: seq<seq<byte>>, disk: seq<seq<byte>>, at: nat, data: seq<byte>,
      got: seq<byte>)
    requires Replaced(was, disk, at, data) && Reads(disk, at, got) && |got| == |data|
    ensures got == data
  {
    forall i: nat | i < |got| ensures got[i] == data[i] {
      assert got[i] == ByteAt(disk, at + i);
    }
  }

  /** A write changes no sector outside the data of its inode. */
  lemma {:induction false} WriteStaysInside(was: seq<seq<byte>>, disk: seq<seq<byte>>, inode: DiskInode, offset: nat,
      data: seq<byte>, k: nat)
    requires Replaced(was, disk, Position(inode, offset), data) && (data == [] || offset + |data| <= inode.length)
    requires k < |was| && k !in Data(inode)
    ensures disk[k] == was[k]
  {
    forall j: nat | j < SECTOR_SIZE ensures disk[k][j] == was[k][j] {
      var i := k * SECTOR_SIZE + j;
      assert i / SECTOR_SIZE == k && i % SECTOR_SIZE == j;
      assert disk[k][j] == ByteAt(disk, i) && was[k][j] == ByteAt(was, i);
    }
  }

  /** Writing to one live inode leaves the sectors of every other alone. */
  lemma {:induction false} OthersUntouched(was: seq<seq<byte>>, disk: seq<seq<byte>>, inodes: map<nat, DiskInode>,
      live: set<nat>, marked: set<nat>, s: nat, offset: nat, data: seq<byte>, t: nat, k: nat)
    requires Owned(inodes, live, marked) && s in live && t in live && s != t
    requires s in inodes && Replaced(was, disk, Position(inodes[s], offset), data)
      && (data == [] || offset + |data| <= inodes[s].length)
    requires t in inodes && k in Extent(t, inodes[t]) && k < |was|
    ensures disk[k] == was[k]
  {
    assert OwnsExtent(s, inodes, marked) && OwnsExtent(t, inodes, marked) && Apart(s, t, inodes);
    WriteStaysInside(was, disk, inodes[s], offset, data, k);
  }
}
