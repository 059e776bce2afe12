/** Sizes the log and its users agree on (kernel/param.h). */
module Params {
  const MAXOPBLOCKS: nat := 10   // max # of blocks any FS op writes
  const LOGSIZE: nat := 30       // MAXOPBLOCKS * 3
}
