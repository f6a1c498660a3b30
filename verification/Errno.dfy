/** The POSIX codes the core and its callbacks report; 0 is success. */
module Errno {
  const OK := 0
  const EIO := 5
  const ENOMEM := 12
  const EINVAL := 22
  const EFBIG := 27
  const EROFS := 30
}
