/** Stock definitions: optional values, the smaller of two numbers, and Linux error numbers
    as the sources return them. */
module Basics {
  datatype Option<+T> = None | Some(value: T)

  function Min(a: nat, b: nat): nat { if a <= b then a else b }

  const EINTR: int := -4
  const EAGAIN: int := -11
  const EBUSY: int := -16
  const EINVAL: int := -22
  const EOVERFLOW: int := -75
  const EOPNOTSUPP: int := -95
  const ECONNRESET: int := -104
  const ESHUTDOWN: int := -108
  const EINPROGRESS: int := -115
}
