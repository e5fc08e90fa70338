// Layer 0: the in-memory disk, an array of fixed-size blocks guarded by
// the number of blocks it holds.
module BlockStore {
  import opened Codec
  import opened Globals

  const UNINITIALIZED_BLOCKS: int := -1

  /** The outcome of a block access, in the order the checks are made. */
  function AccessStatus(initialized: bool, totalBlocks: int, blocknum: int, hasBuf: bool): int {
    if !initialized then DISC_UNINITIALIZED
    else if blocknum >= totalBlocks || blocknum < 0 then INVALID_BLOCK
    else if !hasBuf then BUF_NULL
    else SUCCESS
  }

  /** The global `disk` buffer together with the global `total_blocks`. */
  class Disk {
    var disk: array?<Block>
    var totalBlocks: int

    /** The state before any filesystem is created. */
    constructor ()
      ensures disk == null && totalBlocks == UNINITIALIZED_BLOCKS
      ensures Valid() && !Initialized()
    {
      disk := null;
      totalBlocks := UNINITIALIZED_BLOCKS;
    }

    /** `total_blocks` counts the blocks of the buffer once both are set. */
    ghost predicate Valid()
      reads this
    {
      Initialized() ==> disk.Length == totalBlocks
    }

    predicate Initialized()
      reads this
    {
      totalBlocks != UNINITIALIZED_BLOCKS && disk != null
    }

    /** The blocks of the disk; empty while there is no buffer. */
    ghost function Contents(): seq<Block>
      reads this, disk
    {
      if disk == null then [] else disk[..]
    }

    /** Copies `buf` into block `blocknum`; no other block changes. */
    method WriteBlock(blocknum: int, buf: Option<Block>) returns (r: int)
      requires Valid()
      modifies disk
      ensures Valid()
      ensures r == AccessStatus(Initialized(), totalBlocks, blocknum, buf.Some?)
      ensures r == SUCCESS ==> Contents() == old(Contents())[blocknum := buf.value]
      ensures r != SUCCESS ==> Contents() == old(Contents())
    {
      if totalBlocks == UNINITIALIZED_BLOCKS || disk == null {
        return DISC_UNINITIALIZED;
      }
      if blocknum >= totalBlocks || blocknum < 0 {
        return INVALID_BLOCK;
      }
      if buf.None? {
        return BUF_NULL;
      }
      disk[blocknum] := buf.value;
      return SUCCESS;
    }

    /** Copies block `blocknum` into the caller's buffer; on an error the
        buffer is left as it was. The disk never changes. */
    method ReadBlock(blocknum: int, buf: Option<Block>) returns (r: int, out: Option<Block>)
      requires Valid()
      ensures r == AccessStatus(Initialized(), totalBlocks, blocknum, buf.Some?)
      ensures r == SUCCESS ==> 0 <= blocknum < |Contents()| && out == Some(Contents()[blocknum])
      ensures r != SUCCESS ==> out == buf
    {
      if totalBlocks == UNINITIALIZED_BLOCKS || disk == null {
        return DISC_UNINITIALIZED, buf;
      }
      if blocknum >= totalBlocks || blocknum < 0 {
        return INVALID_BLOCK, buf;
      }
      if buf.None? {
        return BUF_NULL, buf;
      }
      return SUCCESS, Some(disk[blocknum]);
    }
  }
}
