/** Kernel types and constants shared by the virtualization-enablement model. */
module Kernel {

  /** The C `u32` type. */
  type u32 = x: int | 0 <= x < 0x1_0000_0000

  /** A kernel address, opaque; `NULL` is address zero. */
  type Ptr = nat

  const NULL: Ptr := 0

  /** errno values, returned negated. */
  const EIO: int := 5
  const EBUSY: int := 16

  /** Return code of a notifier callback that handled the event. */
  const NOTIFY_OK: int := 1
}
