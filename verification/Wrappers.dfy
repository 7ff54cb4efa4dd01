/** What several of the modelled files share. */
module Wrappers {
  datatype Option<T> = None | Some(value: T)

  // Error numbers, from errno.h.
  const E2BIG := 7
  const ENOMEM := 12
  const EFAULT := 14
  const EINVAL := 22
}
