/**
 The optional value shared by the lock bridge (a lock array that may have
 failed to allocate) and the lifecycle (a default RAND engine that may be
 absent).
 */
module Wrappers {

  datatype Option<T> = None | Some(value: T)
}
