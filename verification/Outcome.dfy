/** A returned value, or an exception of the .NET runtime or of the library that ends the call. */
module Outcome {
  datatype Exception = IndexOutOfRange | InvalidOperation | NullReference | InvalidArgument

  datatype Outcome<+T> = Ok(value: T) | Throw(e: Exception) {
    predicate IsFailure() {
      Throw?
    }

    function PropagateFailure<U>(): Outcome<U>
      requires Throw?
    {
      Throw(e)
    }

    function Extract(): T
      requires Ok?
    {
      value
    }
  }
}
