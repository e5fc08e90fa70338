# 270-filesystem in Dafny

A model of the three lower layers of the 270-filesystem, an in-memory block
filesystem written in C, with proofs about it.

- **Layer 0** (`layer0.c`) is a global array of 4096-byte blocks, `disk`, together
  with `total_blocks`. `writeBlock` and `readBlock` copy one block in or out.
- **Layer 1** (`layer1.c`) is the allocation layer on top of that array:
  - `mkfs` and its helpers lay out the superblock, the inode bitmap, the inode
    table and the data region, and create the root directory;
  - inodes are 1-indexed, 48 to a table block, one bitmap bit each (most
    significant bit first);
  - data blocks are 1-indexed, and block 0 reads as zeros;
  - free data blocks are kept on an intrusive free list: each node is a `next`
    number plus 1023 slots, stored inside a free data block.
- **Layer 2** (`layer2.c`) maps logical file blocks to data blocks through 10 direct
  slots and single, double and triple indirect blocks of P = 1024 entries each:
  - `get_nth_datablock` looks a block up, creating the missing blocks on request;
  - `rm_nth_datablock` frees a block, together with every indirect block that it
    leaves all-zero;
  - `read_i` and `write_i` read and write byte ranges of a file. `write_i` removes
    a block instead of writing it when its new content is all zeros.

The model keeps the source's structure.

- **The disk** is the class `BlockStore.Disk`, holding an `array` of blocks.
- **Every layer-1 and layer-2 operation is a method on that disk.** Each method is
  proved against a ghost function of the disk's contents (a `seq<Block>`) that
  states the operation's effect. The loops of the C code stay loops: the bitmap
  scan, the free-list walk, the node-building loop of `init_freelist`, the
  level-by-level loops of `get_nth_datablock` and `rm_nth_datablock`, and the
  block loops of `read_i` and `write_i`.
- **The properties** are lemmas about those functions, over three abstract views:
  - the *free set*: the node blocks of the free list plus the numbers in their
    non-zero slots;
  - the *inode view*: `InodeAt` and `InodeUsed` for every valid inode number;
  - the *file view*: `Lookup`, which maps a logical block to a data block through
    the zones, and `FileBlocks`, the file's blocks as `data_read` returns them.

Integers are unbounded. Block numbers stored on disk are 32-bit words, and the C
code reads them as `int`: `Tree.SignedOf` turns words of 2^31 and above
negative, as the C conversion does. File sizes go through the same conversion
(`FileWrite.Int32Of`).

The constants are the ones the code uses with the types of `layer1.c`:

| constant | value |
|---|---|
| `BLOCK_SIZE` | 4096 |
| `ADDR_PER_NODE` | 1023 |
| `sizeof(inode)` | 84, so `INODES_PER_BLOCK` is 48 |
| `SUPERBLOCK_SIZE` | 1 |
| `MIN_IBITMAP`, `MIN_INODES`, `MIN_DATA` | 1 each, so `MIN_BLOCKS` is 4 |
| `INVALID_DATA`, `INVALID_INODE` | 0 |
| `ROOT_FREELIST` | 1 |
| `MAX_FS_SIZE` | 262144 |
| `INODES_PERCENT` | 10% |

Modules, leaf first:

- `Globals`: status codes; `Option` for an argument that may be NULL.
- `Codec`: bytes and 32-bit words.
- `Bits`: the bitmap byte operations.
- `BlockStore`: layer 0.
- `Layout`: the superblock, inode and directory-entry formats and the region
  arithmetic.
- `SuperblockIO`: `read_superblock` and `write_superblock`.
- `FreeList`: the free-list chain and its free set.
- `DataBlocks`: the data-region operations.
- `Inodes`: the inode table and bitmap.
- `Format`: `mkfs` and its helpers.
- `Tree`: zones, indices and the lookup function.
- `Indirect`: `get_nth_datablock`.
- `Routes`: facts about created routes.
- `Remove`: `rm_nth_datablock`.
- `Frames`: the lookups of other blocks are unchanged.
- `FileRead`: `read_i`.
- `FileWrite`: `write_i`.
- `WriteProps`: what `write_i` achieves.

## Model

| member | source | states |
|---|---|---|
| BlockStore.Disk.constructor | layer0.c:4-5 | Before `mkfs` there is no disk and `total_blocks` is `UNINITIALIZED_BLOCKS`, so the disk is not initialised. |
| BlockStore.Disk.WriteBlock | layer0.c:20-53 | Status order: `DISC_UNINITIALIZED` when there is no disk; otherwise `INVALID_BLOCK` outside `[0, total_blocks)`; otherwise `BUF_NULL` for a NULL buffer; otherwise `SUCCESS`. On success only block `blocknum` changes, and it changes to the buffer. On any error the disk is unchanged. |
| BlockStore.Disk.ReadBlock | layer0.c:68-101 | The same status order as `writeBlock`. On success the buffer receives block `blocknum`. On an error the buffer is unchanged. The disk is never modified (no `modifies` clause). |
| SuperblockIO.ReadSuperblock | layer1.c:810-839 | `DISC_UNINITIALIZED` unless the disk is ready. Otherwise `SUCCESS`, and the result is the superblock decoded from block 0. |
| SuperblockIO.WriteSuperblock | layer1.c:851-880 | `DISC_UNINITIALIZED` unless ready, with the disk unchanged. On success only block 0 changes, and it now holds the encoded superblock. |
| SuperblockIO.WriteThenReadSuper | layer1.c:810-880 | Reading the superblock back after writing it yields the superblock that was written. Every block past the superblock is unchanged. |
| Codec.WordOfByteOf | layer1.c:262-275 | Storing a 32-bit word as four bytes and reading it back gives the word. |
| Codec.ByteOfWordOf | layer1.c:262-275 | Reading four bytes as a word and storing it again gives the same bytes. |
| Codec.WordsFromWords | layer2.c:624-665 | A sequence of words written into a block and read back as `address[]` entries is unchanged. |
| Codec.FromWordsWords | layer2.c:624-665 | A block read as words and written back is unchanged. |
| Codec.WordsInjective | layer2.c:624-665 | Two blocks with the same words are the same block. |
| Codec.ZeroIffZeroWords | layer2.c:251 | A block is all zero bytes iff all its words are zero. This is the `memcmp` against the zero block. |
| Bits.MaskDistinct | layer1.c:544-554 | The masks `0x80 >> bit` of two different bits share no bit, and no mask is zero. |
| Bits.SetBitBits | layer1.c:554 | `byte \| (0x80 >> bit)` sets exactly that bit and keeps the other seven. |
| Bits.ClearBitBits | layer1.c:478 | `x & (x ^ (0x80 >> bit))` clears exactly that bit and keeps the other seven. |
| Bits.ClearAfterSet | layer1.c:478 | Clearing a bit that was just set (and was clear before) restores the byte. |
| Bits.ClearBitTwice | layer1.c:478 | Clearing a bit is idempotent. |
| Bits.ClearAtBit | layer1.c:544 | The test `((byte << bit) & 0x80) == 0` holds exactly when the bit is clear. |
| Layout.DecodeEncodeSuper | layer1.c:810-880 | Decoding an encoded superblock gives it back. |
| Layout.CeilDiv | layer1.c:175-180 | The quotient is the ceiling of `a / b`. It is the least `q` with `q * b >= a`, and stands for the `ceil` of a `double` division. |
| Layout.InitSuperLayout | layer1.c:172-217 | `init_superblock`'s layout: the bitmap starts at `SUPERBLOCK_SIZE`; the table follows the bitmap; the data region follows the table. The four regions sum to the disk size. `num_inodes == ilist_size * INODES_PER_BLOCK`. Every region has at least its minimum size, and the regions lie inside the disk. |
| Layout.DecodeEncodeInode | layer1.c:327-429 | Decoding an encoded inode gives it back. |
| Layout.EncodeDecodeInode | layer1.c:327-429 | Encoding a decoded 21-word inode gives the words back. |
| Layout.InodeInWithInode | layer1.c:409-428 | Writing inode slot `i` of a table block changes slot `i` to the new inode and leaves every other slot of the block unchanged. |
| Layout.InodeLocation | layer1.c:352-357 | The table block of a valid inode `n` lies inside the inode table, and its slot is below `INODES_PER_BLOCK`. |
| Layout.BitmapLocation | layer1.c:448-482 | The bitmap block of a valid inode lies inside the bitmap region, with a byte below `BLOCK_SIZE` and a bit below 8. |
| Layout.CStringPadded | layer1.c:124-128 | A name without NUL, followed by a NUL, reads back as that name. |
| Layout.WithDirEntAt | layer1.c:136-137 | Storing a directory entry at index `i` makes index `i` read back with that name and inode number. |
| Layout.WithDirEntKeeps | layer1.c:136-137 | Storing a directory entry at index `i` leaves every other entry unchanged. |
| Layout.NewDirBlockEntries | layer1.c:123-137 | A new directory block holds `.` naming the directory and `..` naming the parent. |
| FreeList.FirstSpace | layer1.c:693-712 | The first chain node with an empty slot, and that slot's index, is found on the chain and is the first empty slot of that node. When there is none, every node on the chain is full. |
| FreeList.SlotCountIn | layer1.c:766-772 | A block is counted in the slots iff it is a non-zero entry of them. |
| FreeList.ListMinus | layer1.c:760-797 | A list whose counts equal the old counts less one block `r` is well formed, and its free set is the old one without `r`. |
| FreeList.ListPlus | layer1.c:685-736 | A list whose counts equal the old counts plus one block `b` that was not free is well formed, and its free set is the old one with `b`. |
| FreeList.TakeSlot | layer1.c:766-781 | Clearing a non-zero slot of the head node and writing the named block keeps the chain and removes exactly that block from the free set. |
| FreeList.TakeHead | layer1.c:783-795 | When the head node's slots are all empty, taking the head itself makes `next` the new head and removes exactly the head from the free set. |
| FreeList.PutSlot | layer1.c:693-712 | Storing a non-free block `b` in an empty slot of a chain node keeps the chain and adds exactly `b` to the free set. |
| FreeList.PushNode | layer1.c:714-735 | Making a non-free `b` a new node with no slots and `next` set to the old head prepends `b` to the chain and adds exactly `b` to the free set. |
| FreeList.HeadSlot | layer1.c:766-772 | A non-zero slot of the head names a block in range. That block is free and is not a chain node. |
| FreeList.NodeIsFree | layer1.c:783-795 | Every chain node is in the free set. |
| FreeList.OnceNoDup | layer1.c:685-736 | A well-formed list never meets a node twice. |
| DataBlocks.DataRead | layer1.c:584-616 | `DISC_UNINITIALIZED` unless ready. Otherwise `INVALID_BLOCK` when `k < 0` or `k > data_size`. Otherwise `SUCCESS`, with data block `k` (1-indexed; block 0 reads as zeros). On failure the buffer is unchanged. |
| DataBlocks.DataWrite | layer1.c:629-655 | `DISC_UNINITIALIZED`, then `INVALID_BLOCK` for `k <= 0` or `k > data_size`. On success only data block `k` changes, and it holds the buffer. Otherwise the disk is unchanged. |
| DataBlocks.DataFree | layer1.c:667-737 | `DISC_UNINITIALIZED`, then `INVALID_BLOCK` outside `[1, data_size]`. On success the disk is exactly `FreeSpec`: the block goes into the first empty slot on the chain, or becomes the new head node when there is none. |
| DataBlocks.FreeFound | layer1.c:693-712 | When some chain node has an empty slot, `data_free` fills the first such slot. |
| DataBlocks.FreeNotFound | layer1.c:714-735 | When no chain node has an empty slot, `data_free` pushes the block as the new head. |
| DataBlocks.FreeSpecOk | layer1.c:667-737 | Freeing a non-free block keeps the list well formed. The free set gains exactly that block. Only the superblock's head changes in the superblock. Nothing outside the old free set and the block changes. |
| DataBlocks.FindSpace | layer1.c:693-712 | The chain walk finds exactly the first node with an empty slot, or reports that there is none. |
| DataBlocks.DataAllocate | layer1.c:750-798 | `DISC_UNINITIALIZED` unless ready. Otherwise `DATA_FULL` iff the head is `INVALID_DATA`, with the disk and `*data_block_num` unchanged. On success the new disk and the returned block are exactly `AllocSpec`. |
| DataBlocks.AllocFound | layer1.c:766-781 | When the head has a non-zero slot, allocation takes the first one, clears that slot, and returns the block it names, which is not the head. |
| DataBlocks.AllocNotFound | layer1.c:783-795 | When every slot of the head is zero, allocation returns the head itself and makes `next` the head. |
| DataBlocks.AllocSpecOk | layer1.c:750-798 | The returned block was free. The free set loses exactly that block. The block holds `newData`. Only the head changes in the superblock. Nothing outside the old free set changes. |
| DataBlocks.AllocThenFree | layer1.c:667-798 | After allocating, the block is not free. Freeing it again restores the free set. |
| DataBlocks.ScanSlots | layer1.c:766-772 | The loop finds the first empty (or first non-empty) slot, or reports that there is none. |
| Inodes.InodeRead | layer1.c:327-371 | `DISC_UNINITIALIZED` unless ready. Otherwise `BAD_INODE` for `n` outside `[1, num_inodes]`. Otherwise `SUCCESS`, with inode `n` of the table. On failure the buffer is unchanged. |
| Inodes.InodeWrite | layer1.c:385-429 | The same statuses as `InodeRead`. On success the disk is `PutInode`. Otherwise the disk is unchanged. |
| Inodes.PutInodeEffect | layer1.c:409-428 | After `inode_write`, `inode_read` of `n` gives the new inode. Every other inode, every bitmap bit and the data region are unchanged. |
| Inodes.InodeFree | layer1.c:438-483 | The same statuses as `InodeRead`. On success the disk is `ClearUsed`. Otherwise the disk is unchanged. |
| Inodes.ClearUsedEffect | layer1.c:470-481 | `inode_free(n)` clears only inode `n`'s bit. Every other bit, every inode and the data region are unchanged. |
| Inodes.ClearUsedTwice | layer1.c:438-483 | `inode_free` is idempotent. |
| Inodes.MarkUsedEffect | layer1.c:553-556 | Marking inode `n` sets only its bit. |
| Inodes.MarkThenClear | layer1.c:478 | Freeing an inode just marked, that was clear before, restores the disk. |
| Inodes.InodeCreate | layer1.c:494-571 | `DISC_UNINITIALIZED` unless ready. Otherwise `ILIST_FULL` iff every inode `1..num_inodes` is in use, with the disk unchanged. On success the number is the lowest free inode, and the disk is `Claim`: its bit set and `newNode` written. |
| Inodes.ScanBitmap | layer1.c:521-567 | Every bitmap block before the one returned is full, and every bit before the one found in that block is set. The bit found is clear and, when below `num_inodes`, it is free; otherwise the scan ran past the last inode. |
| Inodes.ScanBitmapBlock | layer1.c:529-566 | Within one bitmap block, every bit before the one returned is set. The bit returned is clear and numbers an inode `<= num_inodes`, or it lies past the last inode. "All in use" means the whole block is set. |
| Inodes.LowestAt | layer1.c:521-563 | The first clear bit the scan meets numbers the lowest free inode. |
| Inodes.LowestFreeUnique | layer1.c:521-563 | There is only one lowest free inode. |
| Inodes.ClaimEffect | layer1.c:553-562 | `inode_create` sets only the chosen inode's bit and writes only that inode. The superblock and the data region are unchanged. |
| Inodes.ClaimThenFree | layer1.c:438-571 | `inode_free` of a just-created inode restores every bit. |
| Inodes.ClaimNext | layer1.c:521-570 | When exactly inodes `1..k` are used, the next creation takes `k + 1`, and afterwards exactly `1..k+1` are used. So after `mkfs` the creations succeed one by one with strictly increasing numbers until the table is full. |
| Inodes.AllUsedUpTo | layer1.c:539-570 | The scan reports `ILIST_FULL` only when every inode is in use. |
| Format.InitSuperblock | layer1.c:172-217 | `DISC_UNINITIALIZED` unless ready. On success block 0 holds the computed superblock, and nothing else changes. |
| Format.SuperblockInitialized | layer1.c:172-217 | After `init_superblock` the disk is mounted, and its superblock is the computed one. |
| Format.InitFreelist | layer1.c:229-280 | `DISC_UNINITIALIZED` unless ready. On success every data block of the layout's nodes is written and nothing else changes. |
| Format.BuildNode | layer1.c:251-270 | The node built for index `i` names the following blocks in its slots (0 past `data_size`), and has `next` naming the next node, or 0 for the last. |
| Format.FillSlots | layer1.c:258-262 | The slot loop fills slot `j` with `node_loc + j + 1` while that is `<= data_size`, and leaves the rest 0. |
| Format.WriteNodes | layer1.c:251-277 | The node loop writes node `i` at `1 + i * (ADDR_PER_NODE + 1)` for every node, and changes nothing outside the data region. |
| Format.NodeInRange | layer1.c:252-253 | Every node of the layout lies inside the data region. |
| Format.NextInRange | layer1.c:265-268 | A node's `next` names the next node exactly when there is one. |
| Format.RunCount | layer1.c:258-262 | A node's slots name each block between it and the next node exactly once, up to `data_size`. |
| Format.LaidChain | layer1.c:251-277 | From node `i` the chain visits the later nodes of the layout in order and ends. |
| Format.LaidListOk | layer1.c:229-280 | The free list `init_freelist` lays out is well formed. Its free set is exactly the data blocks `1..data_size`: every block counted once, as a node or in a slot. |
| Format.FreshListOk | layer1.c:229-280 | The same on the disk: after `init_freelist` the free set is every data block. |
| Format.InitIbitmap | layer1.c:292-314 | `DISC_UNINITIALIZED` unless ready. On success every bitmap block is zeroed and nothing else changes. |
| Format.ZeroBitmap | layer1.c:303-311 | The loop writes a zero block at every bitmap block. |
| Format.BitmapCleared | layer1.c:292-314 | After `init_ibitmap` no inode is in use. The inodes, the superblock and the data region are unchanged. |
| Format.CreateDirBase | layer1.c:107-159 | `DISC_UNINITIALIZED` unless ready. Otherwise `ILIST_FULL` when every inode is used, then `DATA_FULL` when the free list is empty, else `SUCCESS`. On success the number is the lowest free inode and the disk is `CreateDirSpec`. On `DATA_FULL` the inode claimed by `inode_create` stays claimed, holding the uninitialised `new_dir`. On `ILIST_FULL` the disk is unchanged. |
| Format.FillDir | layer1.c:119-158 | After the inode is claimed: `DATA_FULL` when the free list is empty, otherwise the directory block and the inode are written. |
| Format.CreateDirBlock | layer1.c:119-142 | The new directory's data block was free and leaves the free set. It holds `.` naming the new inode and `..` naming the parent (or itself when the parent is `INVALID_INODE`). |
| Format.CreateDirInode | layer1.c:144-151 | The new inode has the mode, uid, gid, `size == 2 * sizeof(dir_ent)` and `direct_blocks[0]` the new block, all else zero. Every other inode is unchanged. |
| Format.CreateDirUsed | layer1.c:113 | Only the new inode's bit becomes set. |
| Format.FirstAllocation | layer1.c:138 | On a fresh free list the first allocation returns block 2, the first slot of node 1, or block 1 when the region has a single block. |
| Format.BlankMade | layer1.c:76-80 | After `init_superblock`, `init_freelist` and `init_ibitmap`: the computed superblock, every data block free, and no inode used. |
| Format.BlankLowest | layer1.c:83-85 | On that blank disk inode 1 is the lowest free inode, and the free list is not empty. |
| Format.RootBlockMade | layer1.c:83-85 | Creating the root directory on that blank disk allocates the root block. The free set is every other data block. The root block holds `.` and `..`, both naming inode 1. |
| Format.RootInodeMade | layer1.c:83-85 | After creating the root, exactly inode 1 is in use, and it is the directory inode owned by `root_uid:root_gid`. |
| Format.SuperRewrite | layer1.c:87-89 | Rewriting the superblock with `root_inode = 1` keeps the formatted state. |
| Format.LayOut | layer1.c:75-80 | The three initialisers leave the blank disk described above. |
| Format.CreateRoot | layer1.c:83-85 | Creating the root turns the blank disk into a formatted one. |
| Format.StoreRoot | layer1.c:87-89 | Storing the root inode number in the superblock keeps the formatted state. |
| Format.Mkfs | layer1.c:23-92 | Status order: `TOTALBLOCKS_INVALID` for `blocks < 0`; `FS_TOO_SMALL` below `MIN_BLOCKS`; `BAD_UID` for a negative uid or gid; otherwise `SUCCESS`. On an error nothing changes. On success the disk has `min(blocks, MAX_FS_SIZE)` blocks and is `Formatted`: the computed regions; a free list holding every data block but the root block; exactly inode 1 in use; inode 1 the root directory of size `2 * sizeof(dir_ent)`, whose first block holds `.` and `..` naming inode 1. |
| Tree.ZonesAdjoin | layer2.c:545-548 | Each zone starts where the previous one ends: 10 direct blocks, then P, P² and P³ blocks. |
| Tree.PlaceOf | layer2.c:533-596 | `None` (`INVALID_BLOCK`) iff `n < 0` or `n >= 10 + P + P² + P³`. Otherwise `n` lies in the zone whose range holds it, and its offset is `n` minus the zone's start. |
| Tree.Digit | layer2.c:632-633 | The index taken at level `j` is below P. |
| Tree.IndicesDigits | layer2.c:632-633 | The indices taken level by level (`offset / P^j`, then `offset % P^j`) are `j + 1` base-P digits whose value is the offset. |
| Tree.IndicesInjective | layer2.c:632-633 | Different offsets of one zone give different index sequences. |
| Tree.RoutesDiffer | layer2.c:565-633 | Logical blocks `n != m` lie in different zones, or take different direct slots, or take different index sequences. |
| Tree.PowAdd | layer2.c:674-682 | `x^(a+b) = x^a * x^b`. |
| Tree.WithRoot | layer2.c:614 | Setting a zone's root in the inode makes that root read back as the new value. |
| Tree.WalkFrame | layer2.c:622-668 | A lookup depends only on the blocks its route meets. Blocks off the route may change without changing it. |
| Indirect.IntPow | layer2.c:674-682 | The multiply loop computes `x^y`, and 1 for `y <= 0`. |
| Indirect.Find | layer2.c:622-670 | The `create = FALSE` descent returns exactly what `Lookup`'s walk gives: 0 at the first zero entry, `DISC_UNINITIALIZED` or `INVALID_BLOCK` when a read fails, and otherwise the entry at the last level. |
| Indirect.GetNth | layer2.c:532-671 | With `create = FALSE`: the result is `Lookup`; the disk, the inode and `*created` are unchanged. With `create = TRUE`: the disk, the inode, the result and `*created` are exactly `GetSpec`. |
| Indirect.MakeRoot | layer2.c:600-619 | A zero zone root gets a newly allocated zero block, or `DATA_FULL` with nothing changed. |
| Indirect.Make | layer2.c:622-668 | The creating descent equals `Create`'s level by level. |
| Indirect.MakeStep | layer2.c:623-665 | One level of the creating descent. |
| Indirect.GrowStep | layer2.c:641-662 | A missing entry gets a new block: the allocation plus the write-back of the parent. `DATA_FULL` when the list is empty. |
| Indirect.Taken | layer2.c:603 | A block allocated for the path is in range, is no longer free, and holds all zeros. |
| Indirect.GrowOk | layer2.c:641-662 | After the growth step the list is well formed, the new block holds zeros, and the parent's entry names it. |
| Indirect.GetFinds | layer2.c:601-670 | With `create = TRUE` the result is never 0. Unless it is `DATA_FULL`, a later `create = FALSE` lookup on the updated inode returns the same block. |
| Indirect.GetKeeps | layer2.c:601-670 | Creating keeps the list well formed and only shrinks the free set. The layout is kept. Only blocks that were free or on the route change. `*created` is set iff a block was allocated, and when nothing was allocated the disk is unchanged. |
| Indirect.CreateKeeps | layer2.c:622-668 | The creating descent keeps the list well formed and only shrinks the free set. |
| Indirect.CreateFlags | layer2.c:618-662 | `*created` ends up set iff it was set before or some block was allocated. |
| Indirect.CreateFrame | layer2.c:622-668 | The creating descent changes only blocks that were free or on the route. |
| Indirect.CreateFinds | layer2.c:622-670 | After the creating descent, the walk from the same block finds the returned block. |
| Indirect.GetInode | layer2.c:614-617 | The inode changes at most in the zone's root, and only when it was 0. |
| Indirect.GetUnready | layer2.c:601-629 | On an uninitialised disk nothing changes. The result is `INVALID_BLOCK`, `DISC_UNINITIALIZED`, or a direct slot's value. |
| Routes.GetRoutes | layer2.c:601-670 | After creating, the route of the same block is still one the model can follow: no free block on it, no block met twice. |
| Routes.CreateRoutes | layer2.c:622-668 | The same, level by level. The new route meets only blocks of the old route and blocks that were free. |
| Routes.GetEnds | layer2.c:601-670 | `*created` is set only when the block was absent before (the lookup gave 0). The result is then `DATA_FULL` or a data block in range. |
| Routes.CreateEnds | layer2.c:622-668 | The same, level by level. |
| Remove.RmNth | layer2.c:367-515 | The disk, the inode and the status are exactly `RmSpec`. |
| Remove.Descend | layer2.c:436-467 | The descent records the blocks, indices and addresses of the route. It stops at a zero entry, or fails as `Prune` fails. |
| Remove.Ascend | layer2.c:469-496 | The freeing loop equals `Prune`'s result: it frees the leaf, zeroes its entry, and goes on upward while the block just cleared is all zero. |
| Remove.RmZone | layer2.c:398-514 | One zone's removal equals `RmAt`. |
| Remove.PruneResult | layer2.c:436-496 | Freeing succeeds iff the route's lookup is in `[0, data_size]`. Otherwise the result is `INVALID_BLOCK` and nothing changed. |
| Remove.PruneClears | layer2.c:469-496 | After freeing, the route's lookup is 0, and the path is reported emptied iff every block on it became all zero. |
| Remove.PruneFrees | layer2.c:469-496 | The free set gains exactly the leaf and the indirect blocks that became all zero. |
| Remove.PruneKeeps | layer2.c:469-496 | Freeing keeps the list well formed, and changes only blocks that were free or on the route. |
| Remove.RmResult | layer2.c:367-515 | `SUCCESS` iff the lookup of `n` is in `[0, data_size]`, so a block already absent gives `SUCCESS` (idempotence). Otherwise `INVALID_BLOCK`, with the disk and the inode unchanged. |
| Remove.RmClears | layer2.c:367-515 | After a successful `rm_nth_datablock(n)`, `get_nth_datablock(n, FALSE)` on the updated inode returns 0. |
| Remove.RmFrees | layer2.c:469-512 | On success the free set gains exactly the leaf and every indirect block on the path that became all zero. The inode's zone root is zeroed iff the zone's root was freed. |
| Remove.RmFreesData | layer2.c:471-473 | On success the data block `n` mapped to is now free. |
| Remove.RmKeeps | layer2.c:367-515 | The list stays well formed. The layout is kept. The free set grows only by blocks of the route. Only blocks that were free or on the route change. The inode changes at most by zeroing the zone's root. |
| Remove.RmUnready | layer2.c:367-515 | On an uninitialised disk nothing changes. The result is `SUCCESS` iff the zone root is 0 (no read happens), `INVALID_BLOCK` iff `n` is out of range, and `DISC_UNINITIALIZED` otherwise. |
| Frames.RmFrame | layer2.c:469-512 | `rm_nth_datablock(n)` leaves the lookup of every other block `m` unchanged, when `m`'s route shares no block with `n`'s below the point where they part. |
| Frames.GetFrame | layer2.c:601-670 | `get_nth_datablock(n, TRUE)` leaves the lookup of every other block `m` unchanged, under the same condition. |
| FileRead.BoundsOf | layer2.c:103-107 | `start_block`, `start_offset`, `end_block` and `end_size` locate the first and the last byte of the range. |
| FileRead.Fetch | layer1.c:584-616 | `data_read` fails only with `INVALID_BLOCK`, succeeds iff the block number is in `[0, data_size]`, and returns zeros for block 0. |
| FileRead.ReadI | layer2.c:75-170 | The status and the bytes copied are exactly `ReadSpec`: `DISC_UNINITIALIZED` or `BAD_INODE` from `inode_read`, then `ReadFrom` the file's blocks. The disk is unchanged. |
| FileRead.ReadFile | layer2.c:91-169 | After the inode is read, the result is `ReadFrom` the file's blocks. |
| FileRead.CopySpan | layer2.c:115-169 | The copying part equals `ReadSpan`. |
| FileRead.ReadMid | layer2.c:139-154 | The middle loop equals `ReadRun`: whole blocks one after the other, stopping at the first that cannot be read. |
| FileRead.ReadBytes | layer2.c:91-169 | Nothing is read when `offset >= size`. Otherwise, on success, the result is `min(size - offset, len)` and the bytes are the file's bytes from `offset`, holes reading as zeros. The only error is `INVALID_BLOCK`, and it arises iff some block of the range cannot be read. |
| FileRead.SpanBytes | layer2.c:115-169 | The same for the copying part, given the range's bounds. |
| FileRead.RunBytes | layer2.c:139-154 | The middle loop succeeds iff every block can be read, and then yields their bytes in order. |
| FileRead.FileStatuses | layer1.c:584-616 | Every block of a file reads with `SUCCESS` or `INVALID_BLOCK`. |
| FileWrite.Int32Of | layer2.c:199 | An unbounded size kept as a C `int` is congruent to it modulo 2^32, and is equal to it inside the `int` range. |
| FileWrite.SizeMax | layer2.c:266 | `MAX(original_size, n)` is `original_size` when that is negative; otherwise it is the larger of the two. |
| FileWrite.Splice | layer2.c:242-248 | Copying bytes into a block at an offset puts them there and keeps every other byte. |
| FileWrite.WriteI | layer2.c:183-351 | The disk and the status are exactly `WriteSpec` with line 266 as written: `DISC_UNINITIALIZED` or `BAD_INODE` from `inode_read`, then the first block, the middle loop and the last block, each stopping at its error. |
| FileWrite.WriteJob | layer2.c:199-351 | After the inode is read, the write equals `Written`. |
| FileWrite.WriteFirst | layer2.c:215-269 | The first block equals `First`: found or created, read or zeroed, spliced, removed if all zero, else written, and then the inode is persisted. |
| FileWrite.WriteMid | layer2.c:275-305 | The middle loop equals `Run` of `MidStep` over the whole blocks. |
| FileWrite.WriteWhole | layer2.c:277-299 | One whole block is removed when all zero, and found or created and written otherwise. |
| FileWrite.WriteLast | layer2.c:307-350 | The last block equals `Last`, ending with `size = MAX(original_size, offset + size)`. |
| FileWrite.WriteEdge | layer2.c:215-264 | A partial block's step equals `Edge`. |
| FileWrite.StoreBlock | layer2.c:250-264 | A block of zeros is removed with `rm_nth_datablock`; any other block is written with `data_write`. |
| FileWrite.PersistInode | layer2.c:267 | `inode_write` of the job's inode. |
| FileWrite.AdvanceInode | layer2.c:266-267 | After a block's step the size is updated and the inode written. |
| FileWrite.AdvanceStops | layer2.c:256-263 | A failed step ends the write with its status and the inode not written. |
| WriteProps.WriteResult | layer2.c:183-351 | On an uninitialised disk the result is `DISC_UNINITIALIZED`, and for an invalid inode `BAD_INODE`, with nothing changed. Otherwise the result is `len` on success, or `INVALID_BLOCK` or `DATA_FULL`. |
| WriteProps.WrittenStatus | layer2.c:215-351 | After the inode is read, the result is `len` or a block error. |
| WriteProps.WriteSize | layer2.c:266-350 | After a successful write the stored size is `MAX(original_size, offset + len)`, except for a single-block write as written, where it is `MAX(original_size, len)`. |
| WriteProps.WrittenSize | layer2.c:266-350 | The same, after the inode is read. |
| WriteProps.FirstSize | layer2.c:266-267 | After the first block the stored inode has `size = MAX(original_size, bytes written)` as written, or `MAX(original_size, offset + bytes written)` corrected. |
| WriteProps.LastSize | layer2.c:347-348 | After the last block the stored size is `MAX(original_size, offset + size)`. |
| WriteProps.FirstReads | layer2.c:215-264 | After the first block's step succeeds, the block was readable before, and it now reads as before with the data copied in at `start_offset`. |
| WriteProps.StoreReads | layer2.c:250-264 | After storing, the block reads back as stored, zeros included. |
| WriteProps.DiscardReads | layer2.c:250-253 | A block of zeros removed with `rm_nth_datablock` ends unallocated: its lookup gives 0, and it reads as zeros. |
| WriteProps.ReadBack | layer2.c:183-266 | With line 266 corrected, a write confined to one block over a clean route never stops early: it returns `len`, `INVALID_BLOCK` or `DATA_FULL`. When it returns `len`, `read_i` of the same range returns exactly the bytes written. |
| WriteProps.SpanRead | layer2.c:91-133 | A read inside the file confined to one block returns that block's bytes at the range. |
| WriteProps.ShortRead | layer2.c:266 | As written, a single-block write at an offset of at least its length, to a file no longer than that length, sets the size to the length. Reading the written range back then returns 0 bytes. |
| WriteProps.EdgeFresh | layer2.c:215-264 | A partial block whose direct slot is still 0 is created from the free list. While the list is not empty, its step returns `SUCCESS`. |
| WriteProps.FreshWrite | layer2.c:183-272 | A write confined to one block whose direct slot is still 0 returns `len` while the free list is not empty, as written and corrected alike. |
| WriteProps.ShortReachable | layer2.c:266 | On an empty file whose first direct slot is 0, with a non-empty free list, `write_i(inum, buf, 1, 1)` as written returns 1 and sets the size to 1. `read_i(inum, buf, 1, 1)` then returns 0 bytes. |

## Left out

- Memory allocation: the `malloc` of the disk and its failure (`UNEXPECTED_ERROR`, layer1.c:56-65) are not modelled. The disk array is allocated with `min(blocks, MAX_FS_SIZE)` blocks, which always succeeds.
- Constants: the compile-time constants are fixed at the values in the table above, as the code's `#define`s fix them. The model is not parameterised over other block or inode sizes.
- `MAX_FS_SIZE`: the value 262144 (about 1 GB of 4096-byte blocks) is a choice of this model. The value is not defined in any source file shown, and the clamp itself is modelled.
- Format.Mkfs: the `BLOCKSIZE_TOO_SMALL` check (layer1.c:35-40) is treated as unreachable. With an 84-byte inode and 4096-byte blocks it can never fire, so it is asserted dead rather than modelled as a status.
- Floating point: `ceil(blocks * INODES_PERCENT)` at layer1.c:175-180 is exact integer ceiling division by 10 here (`total_iblocks = ceil(b / 10)`). The same holds for the `ceil` of a `double` at layer1.c:244.
- NULL arguments are modelled only in layer 0 (`BUF_NULL`). The following are not modelled, because every caller passes a real buffer and Dafny values cannot be NULL:
  - the `BUF_NULL` checks of `read_i` (layer2.c:76-80) and `write_i` (layer2.c:184-188);
  - the NULL-inode checks of `get_nth_datablock` (layer2.c:539-543) and `rm_nth_datablock` (layer2.c:374-378);
  - the `BUF_NULL`/`INT_NULL` checks of `inode_read`, `inode_write` and `inode_create` (layer1.c:337-341, 395-399, 505-515).
- Layer-1 and layer-2 methods require `Consistent(d)`: the disk is either uninitialised or holds a valid superblock whose regions fit. The C code assumes the same (layer1.c:802-803) and reads garbage otherwise.
- Free-list preconditions (`ListOk`):
  - DataBlocks.DataAllocate, Indirect.GetNth with `create`, Remove.RmNth and Format.CreateDirBase require a well-formed free list: a finite chain counting every free block once.
  - DataBlocks.DataFree requires only a finite chain. On a cyclic chain the C loop never ends (layer1.c:693-712).
  - The C code never checks either condition.
- FreeList.ListPlus / DataBlocks.FreeSpecOk: freeing requires the block not already to be free. `data_free` has no duplicate check (layer1.c:657) and would record a block twice.
- Route preconditions (`Clean`, `Distinct`):
  - Indirect.GetNth with `create`, Remove.RmNth, and the lemmas about them require every block on the route to be in use and met once. These are `PathClean` and `PathDistinct`.
  - A route through a free block, or one that meets a block twice, is corrupted filesystem state that the C code follows blindly.
- Indirect.GetNth: blocks allocated before a `DATA_FULL` in the middle of a path stay allocated. The model keeps them, as the code does, and nothing is proved about those leftover blocks beyond the list staying well formed.
- Frames.RmFrame / Frames.GetFrame: the other block `m` must have a clean route, and its route must part from `n`'s without sharing a block below the fork (`Apart`). The lookups of blocks whose routes share indirect blocks below the fork (a corrupted tree) are not covered.
- Frames.GetFrame, Routes.GetEnds, WriteProps.FirstReads, WriteProps.ReadBack, WriteProps.EdgeFresh, WriteProps.FreshWrite, WriteProps.ShortReachable: these require `data_size < 2^31`. Block numbers are stored as words and read as C `int`, so a block number of 2^31 or more would turn negative.
- Statuses the source ignores:
  - the status of `inode_write` in `create_dir_base`, `write_i` and `mkfs`;
  - the status of the `rm_nth_datablock` calls inside `write_i`;
  - the status of the write-back `data_write` in `rm_nth_datablock` (layer2.c:488).
  - The model ignores them as the code does.
- FileRead.ReadI and FileWrite.WriteI require `0 <= offset` and `offset + len <= INT_MAX`.
  - A negative offset is not rejected by the C code. C's division truncates toward zero, so an offset in `(-4096, 0)` gives block 0 and a negative byte offset into the block buffer (layer2.c:103-104 and 201-202). The copy then goes outside the buffer, which is undefined behaviour and has no result to model.
  - `len` is a `size_t` in C, so `0 <= len` holds by its type.
  - The C sum `offset + size` mixes `int` and `size_t`, so its wrap-around past `INT_MAX` is not modelled.
- FileWrite.WriteI requires `len >= 1`, so a zero-length write is not modelled. For `size == 0` the subtraction `offset + size - 1` at layer2.c:204-205 wraps only when `offset == 0`. For `offset > 0` nothing wraps, but the behaviour left unmodelled depends on the offset:
  - `offset % 4096 != 0`: the single-block path runs. `get_nth_datablock` may allocate a block, a 0-byte copy follows, `rm_nth_datablock` frees the block again when it is all zero, the size becomes `MAX(original_size, 0)`, and the call returns 0.
  - `offset` a non-zero multiple of 4096: `end_block` is `start_block - 1`, and the block steps copy up to 4096 bytes from an empty buffer. This over-read is undefined behaviour.
- FileWrite.WriteI requires `WriteSpec(...).ok`: every route the write meets must be one `get_nth_datablock` and `rm_nth_datablock` can follow (`RouteOk`: free list well formed, route clean and distinct). The outcome of a write over a corrupted route is not modelled.
- WriteProps.ReadBack requires a well-formed free list, a clean and distinct route for the block written, and a file size in `[0, INT_MAX]`. It covers a write confined to one block. The read-back of a multi-block write is proved only block by block: FirstReads for the first block, and StoreReads and DiscardReads for each block stored. It is not proved for the whole range.
- Zero blocks in `write_i` are proved unallocated only per step (WriteProps.DiscardReads), not for the whole range at the level of `WriteSpec`. Likewise, that the free set changes only on the touched routes is proved per operation (Indirect.GetKeeps, Remove.RmKeeps), not for the whole of `write_i`.
- Indirect.IntPow: the multiply loop (layer2.c:674-682) computes the exact power, without 32-bit overflow. It is only called for `1024^j` with `j <= 2`, where no overflow occurs.
- Byte-level struct packing: the superblock, inodes, directory entries and free-list nodes are kept as encode/decode pairs over blocks (little-endian 32-bit words). Struct padding is as the code's structs give it.
- I/O and printing: all `DEBUG` and `ERR` output.
- Stubs: the stubs `mkdir`, `namei` and `unlink_i` (layer2.c:18-60), the directory, permission and open-file-table prototypes (layer2.h:30-43), and the FUSE adapter fusemain.c. None has an implementation to model.
- Behaviour the code does not have:
  - no SUID/SGID clearing;
  - no timestamps or link counts;
  - no rollback of the claimed inode when `create_dir_base`'s `data_allocate` fails.

## Findings

| source | as written | input that shows it | evidently intended | confidence | as-written member | corrected member |
|---|---|---|---|---|---|---|
| layer2.c:266 | A `write_i` confined to one block sets `size = MAX(original_size, writeOffset)`. `writeOffset` counts the bytes written in this call, not the position after them. | An empty file (size 0), `write_i(inum, buf, 1, 1)` (one byte at offset 1): the size becomes 1, and `read_i(inum, buf, 1, 1)` returns 0 bytes instead of the byte written. | `MAX(original_size, offset + writeOffset)`, as the multi-block path does at lines 303 and 347. | not executed | WriteProps.ShortReachable | WriteProps.ReadBack |
