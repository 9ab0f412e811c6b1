/** What many modules share: bytes, symbols, and results that may be missing. */
module Wrappers {

  type Byte = x: nat | x < 256

  type Symbol = string

  datatype Option<T> = None | Some(value: T) {
    predicate IsFailure() {
      None?
    }

    function PropagateFailure<U>(): Option<U>
      requires None?
    {
      None
    }

    function Extract(): T
      requires Some?
    {
      value
    }
  }
}
