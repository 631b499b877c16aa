/**
  Abstract kernel objects shared by the supervisor and the shell commands:
  an optional value (a C pointer that may be NULL) and an opaque thread
  reference.
 */
module Kernel {

  /** A value that may be absent, as a `thread_t *` may be NULL. */
  datatype Option<+T> = None | Some(value: T)

  /** An opaque reference to a kernel thread. Two handles are equal exactly
      when they denote the same created thread. */
  datatype Handle = Handle(id: nat)
}
