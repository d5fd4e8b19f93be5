/** Failure-carrying results shared by every layer of the order-book model. */
module Wrappers {

  /** A Java reference that may be null. */
  datatype Option<+T> = None | Some(value: T)

  /** Why an operation threw IllegalArgumentException; the labels stand for the exception messages. */
  datatype Reason =
    | NullArgument         // validateArg on a null reference ("... cannot be null", "cannot clone null")
    | BlankArgument        // validateArg on a string whose trim() is empty
    | NonPositivePrice     // "price must be positive"
    | NonPositiveQuantity  // "quantity must be positive" / "Quantity must be positive"
    | ReservedSeparator    // "instrument name cannot contain '::'"
    | WrongSide            // "incorrect side"
    | DuplicateId          // "<id> already exists"
    | UnknownId            // "<id> does not exist"
    | NonPositiveLevel     // "priceLevel must be positive"

  /** The outcome of one operation: a value, or the IllegalArgumentException it throws. */
  datatype Result<+T> = Ok(value: T) | InvalidArgument(reason: Reason) {

    predicate IsFailure() {
      InvalidArgument?
    }

    function PropagateFailure<U>(): Result<U>
      requires InvalidArgument?
    {
      InvalidArgument(reason)
    }

    function Extract(): T
      requires Ok?
    {
      value
    }
  }
}
