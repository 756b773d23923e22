/** The outcomes shared by every component: a value, or the exception the C++ code throws. */
module Results {
  datatype Error =
    | OutOfRange        // std::out_of_range
    | DomainError       // std::domain_error
    | InvalidArgument   // std::invalid_argument
    | LengthError       // std::length_error
    | AssertionFailure  // assert(false)
    | BadAlloc          // std::bad_alloc
    | Exception(what: string)        // the proxy's own exception class
    | ExceptionPointer(what: string) // `throw new Exception(...)`, which a handler for Exception does not catch

  datatype Result<+T> = Ok(value: T) | Err(error: Error) {
    predicate IsFailure() {
      Err?
    }

    function PropagateFailure<U>(): Result<U>
      requires Err?
    {
      Err(error)
    }

    function Extract(): T
      requires Ok?
    {
      value
    }
  }

  datatype Option<+T> = None | Some(value: T)
}
