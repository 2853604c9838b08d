/** Sizes and types that several parts of the system share. */
module Params {
  /** One more than the largest unsigned 32-bit integer. */
  const UINT := 0x1_0000_0000
  /** The most sectors that a transaction may log. */
  const LOGSIZE := 10

  /** Types of inodes; 0 is a free one. */
  const T_DIR := 1
  const T_FILE := 2
  const T_DEV := 3

  /** A lock: free, or held by a thread or a CPU. */
  datatype Owner = Free | Held(who: nat)

  type Byte = b: int | 0 <= b < 256
}
