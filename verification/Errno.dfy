/** The error numbers the driver returns, as positive constants; code returns their negations. */
module Errno {
  const ENOENT: int := 2
  const EIO: int := 5
  const ENOMEM: int := 12
  const EFAULT: int := 14
  const EBUSY: int := 16
  const EINVAL: int := 22
  const ENOSPC: int := 28
  const EOPNOTSUPP: int := 95
  const ECONNABORTED: int := 103
  const ENOTCONN: int := 107
}
