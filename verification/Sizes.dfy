/** The page size and the range of the machine's words. */
module Sizes {
  const PAGE: nat := 4096
  const U64: nat := 0x1_0000_0000_0000_0000
}
