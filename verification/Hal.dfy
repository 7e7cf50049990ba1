/**
 What the parts of the hardware abstraction layer have in common: machine integers and error numbers.
 */
module Hal {

  /** 2^32 */
  const M: nat := 0x1_0000_0000

  type U32 = n: nat | n < 0x1_0000_0000

  type I32 = n: int | -0x8000_0000 <= n < 0x8000_0000

  const EACCES := 13
  const ENODEV := 19
  const EINVAL := 22
  const EMFILE := 24
  const ENOTTY := 25
  const EBADFD := 81
  const ENOSYS := 88
  const ENOTSUP := 134
}
