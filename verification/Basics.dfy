/** Shared vocabulary: optional values and the fates a file-system call can meet. */
module Basics {
  datatype Option<+T> = None | Some(value: T)

  /** What the operating system does to one call: it works, it is refused (with
      or without having done part of the work), or the process dies in it. */
  datatype Fate = Done | Fail | FailTorn | Crash | CrashTorn

  datatype Errno = Ok | Io | CrossDevice
}
