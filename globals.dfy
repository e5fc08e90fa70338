// Return codes shared by every layer, and the optional-buffer type that
// stands for a C argument that may be NULL.
module Globals {
  const TOTALBLOCKS_INVALID: int := -1001
  const FS_TOO_SMALL: int := -1002
  const BLOCKSIZE_TOO_SMALL: int := -1003
  const DATA_FULL: int := -1004
  const BAD_INODE: int := -1005
  const ILIST_FULL: int := -1007
  const BAD_UID: int := -1008

  const DISC_UNINITIALIZED: int := -1
  const INVALID_BLOCK: int := -2
  const BUF_NULL: int := -3
  const INT_NULL: int := -4

  const SUCCESS: int := 0
  const UNEXPECTED_ERROR: int := -99999

  /** A buffer argument: `None` is NULL. */
  datatype Option<T> = None | Some(value: T)
}
