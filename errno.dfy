// Error numbers as Zephyr's minimal libc defines them; the firmware returns
// their negations.
module Errno {
  const ENOENT: int := 2
  const ENXIO: int := 6
  const EAGAIN: int := 11
  const ENOMEM: int := 12
  const EACCES: int := 13
  const EFAULT: int := 14
  const EBUSY: int := 16
  const EINVAL: int := 22
  const EROFS: int := 30
  const ERANGE: int := 34
  const ENOMSG: int := 35
  const ENOSYS: int := 88
  const ENOBUFS: int := 105
  const ETIMEDOUT: int := 116
  const EALREADY: int := 120
  const EMSGSIZE: int := 122
  const EPROTONOSUPPORT: int := 123
  const ENOTSUP: int := 134
}

// Option and Result, for the source's NULL returns, None returns and exceptions.
module Wrappers {
  datatype Option<T> = None | Some(value: T)

  datatype Result<T, E> = Ok(value: T) | Err(error: E) {
    predicate IsOk() { Ok? }
  }
}
