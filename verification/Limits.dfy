/** The sizes of the driver's tables, from src/backend_internal.h, and the limits of its integers. */
module Limits {
  const MAX_CONFIGS := 16
  const MAX_CONTEXTS := 8
  const MAX_SURFACES := 64
  const MAX_BUFFERS := 512
  const MAX_IMAGES := 128

  const UINT32_MAX := 0xffff_ffff
  const SIZE_MAX := 0xffff_ffff_ffff_ffff
}
