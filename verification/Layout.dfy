/** Sizes of what is on disk. */
module Layout {
  const PAGE_HEADER := 28
  const BLOCK_HEADER := PAGE_HEADER + 12    // the block header follows the page header
  const MIN_UNIT := 512                     // the smallest allocation size
  const TWO32 := 0x1_0000_0000

  /** A checksum. */
  type Sum = x: int | 0 <= x < TWO32
}
