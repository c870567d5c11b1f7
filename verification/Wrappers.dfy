/** Result types shared by the other modules. */
module Wrappers {

  /** A value that may be absent: JavaScript's `null`/`undefined`, or a parse that failed. */
  datatype Option<+T> = None | Some(value: T) {
    predicate IsFailure() {
      None?
    }

    function PropagateFailure<U>(): Option<U>
      requires None?
    {
      None
    }

    function Extract(): T
      requires Some?
    {
      value
    }
  }

  /**
    How the database behaves in one store operation. An UPDATE commits before the row is read
    back, so that the operation can throw with the new values already in the table.
   */
  datatype Db = Works | WriteFails | ReadBackFails
}
