/// Definitions shared by several modules.
module Basics {
  datatype Option<+T> = None | Some(value: T)

  const U64_MAX: nat := 0xFFFF_FFFF_FFFF_FFFF

  /// Size of the TCP read buffers, and of TCP writes when there is no pacing.
  const CHUNK: nat := 256 * 1024
}
