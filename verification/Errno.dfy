/** The error numbers that the system calls return, negated. */
module Errno {
  const EBADF := 9
  const EAGAIN := 11
  const ENOMEM := 12
  const EFAULT := 14
  const EINVAL := 22
}
