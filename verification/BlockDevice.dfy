/** Sectors, as the block layer moves them. */
module BlockDevice {
  import opened Basics

  const SECTOR_SIZE: nat := 512            // BLOCK_SECTOR_SIZE

  ghost predicate Sectors(s: seq<seq<byte>>) {
    forall i :: 0 <= i < |s| ==> |s[i]| == SECTOR_SIZE
  }
}
