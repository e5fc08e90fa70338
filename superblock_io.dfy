// Reading and writing the superblock (`read_superblock`, `write_superblock`),
// and the state every layer-1 operation assumes of the disk.
module SuperblockIO {
  import opened Codec
  import opened Globals
  import opened BlockStore
  import opened Layout

  /** The superblock can be read: the disk exists and holds the superblock's blocks. */
  predicate Ready(d: Disk)
    reads d
  {
    d.Initialized() && d.totalBlocks >= SUPERBLOCK_SIZE
  }

  /** What the operations assume of a disk nobody "messed with": once the
      superblock can be read, it describes regions that fit the disk. */
  ghost predicate Consistent(d: Disk)
    reads d, d.disk
  {
    d.Valid() && (Ready(d) ==> Mounted(d.Contents()))
  }

  /** The value a superblock buffer holds before anything is read into it. */
  const BlankSuper: Superblock := Superblock(0, 0, 0, 0, 0, 0, 0, 0, 0, 0, 0, 0, 0)

  /** Reads the superblock's blocks one at a time; any failed read means there
      is no filesystem. */
  method ReadSuperblock(d: Disk) returns (r: int, sb: Superblock)
    requires d.Valid()
    ensures r == (if Ready(d) then SUCCESS else DISC_UNINITIALIZED)
    ensures r == SUCCESS ==> sb == SuperOf(d.Contents())
  {
    var temp: seq<Block> := [];
    var i := 0;
    while i < SUPERBLOCK_SIZE
      invariant 0 <= i <= SUPERBLOCK_SIZE && |temp| == i
      invariant i > 0 ==> Ready(d)
      invariant forall j :: 0 <= j < i ==> j < |d.Contents()| && temp[j] == d.Contents()[j]
    {
      var ret, out := d.ReadBlock(i, Some(ZeroBlock()));
      if ret != SUCCESS {
        return DISC_UNINITIALIZED, BlankSuper;
      }
      temp := temp + [out.value];
      i := i + 1;
    }
    return SUCCESS, DecodeSuper(temp[0]);
  }

  /** Writes the record into the superblock's blocks; a failed write means
      there is no filesystem. */
  method WriteSuperblock(d: Disk, sb: Superblock) returns (r: int)
    requires d.Valid()
    modifies d.disk
    ensures d.Valid()
    ensures r == (if Ready(d) then SUCCESS else DISC_UNINITIALIZED)
    ensures r == SUCCESS ==> d.Contents() == old(d.Contents())[0 := EncodeSuper(sb)]
    ensures r != SUCCESS ==> d.Contents() == old(d.Contents())
  {
    var temp := [EncodeSuper(sb)];
    var i := 0;
    while i < SUPERBLOCK_SIZE
      invariant 0 <= i <= SUPERBLOCK_SIZE
      invariant i > 0 ==> Ready(d)
      invariant d.Valid()
      invariant d.Contents() == if i == 0 then old(d.Contents()) else old(d.Contents())[0 := EncodeSuper(sb)]
    {
      var ret := d.WriteBlock(i, Some(temp[i]));
      if ret != SUCCESS {
        return DISC_UNINITIALIZED;
      }
      i := i + 1;
    }
    return SUCCESS;
  }

  /** Writing a superblock makes it the one read back, and keeps every other block. */
  lemma WriteThenReadSuper(s: seq<Block>, sb: Superblock)
    requires |s| >= SUPERBLOCK_SIZE
    ensures SuperOf(s[0 := EncodeSuper(sb)]) == sb
    ensures forall k :: SUPERBLOCK_SIZE <= k < |s| ==> s[0 := EncodeSuper(sb)][k] == s[k]
  {
    DecodeEncodeSuper(sb);
  }
}
