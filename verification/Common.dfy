/** Values shared by every part of the model. */
module Common {

  datatype Option<+T> = None | Some(value: T)

  // Error numbers, returned negated as in the source.
  const EPERM: int := 1
  const ENOENT: int := 2
  const EIO: int := 5
  const ECHILD: int := 10
  const ENOMEM: int := 12
  const EACCES: int := 13
  const EBUSY: int := 16
  const EXDEV: int := 18
  const EINVAL: int := 22
  const ENOTEMPTY: int := 39
  const ESTALE: int := 116

  /** The first error of two, 0 if there is none. */
  function Or(a: int, b: int): int {
    if a != 0 then a else b
  }

  function Max(a: int, b: int): int {
    if a < b then b else a
  }
}
