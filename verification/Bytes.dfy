module Bytes {
  type Byte = x: int | 0 <= x < 256

  const PAGE_SIZE: nat := 0x1000

  /** The page that holds byte address `a`. */
  function PageDown(a: nat): nat {
    a / PAGE_SIZE
  }

  /** The first page that starts at byte address `a` or later. */
  function PageUp(a: nat): nat {
    (a + PAGE_SIZE - 1) / PAGE_SIZE
  }
}
