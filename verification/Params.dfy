/** Constants that several parts share. */
module Params {
  /** The most blocks one file-system operation may add to the log. */
  const MAXOPBLOCKS: nat := 10
  const LOGBLOCKS: nat := 3 * MAXOPBLOCKS
  const NBUF: nat := 3 * MAXOPBLOCKS
  const NPROC: nat := 64
  const NCPU: nat := 8
  /** The longest simulation of the scheduling programs. */
  const MAX_TIME: nat := 1000
}
