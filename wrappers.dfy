/** Option and Result types shared by every module of the model. */
module Wrappers {
  datatype Option<T> = None | Some(value: T)

  /** A pass either produces a value or stops the compiler with a fatal error. */
  datatype Result<T> = Ok(value: T) | Fatal(message: string)
  {
    predicate IsFatal() { Fatal? }
  }
}
