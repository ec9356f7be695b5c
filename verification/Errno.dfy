/** The kernel's error numbers the driver returns, negated. */
module Errno {
  const EPERM: int := 1
  const EIO: int := 5
  const E2BIG: int := 7
  const EINVAL: int := 22
  const EOPNOTSUPP: int := 95
  const ENOTCONN: int := 107
}
