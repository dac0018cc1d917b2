/** Option and Result, the two wrappers the model uses in place of null and exceptions. */
module Wrappers {

  /** A value that may be absent; `None` stands for C#'s `null`. */
  datatype Option<+T> = None | Some(value: T) {
    function GetOr(default: T): T {
      match this
      case Some(v) => v
      case None => default
    }
  }

  /** The outcome of an operation that either returns a value or throws. */
  datatype Result<+R, +E> = Success(value: R) | Failure(error: E)
}

/** The exceptions the core throws, with the messages it throws them with. */
module Errors {

  datatype Error =
    | ArgumentNull(paramName: string)     // ArgumentNullException
    | Argument(message: string)           // ArgumentException
    | InvalidOperation(message: string)   // InvalidOperationException
    | Constraint(message: string)         // a storage constraint violated inside a database transaction

  const BelowMinimumAmount := "Amount must be at least $0.01"
  const EmptyAmount := "Amount cannot be null or empty"
  const MalformedAmount := "Amount must be in format '123.45'"
  const NegativeRate := "Interest rate cannot be negative"
  const RateAboveOne := "Interest rate cannot exceed 100%"
  const NonPositivePeriods := "Compounding periods must be positive"
  const InsufficientFunds := "Insufficient funds"
  const ConcurrentModification := "The account was modified by another process. Please retry the operation."
  const DuplicateTransactionId := "UNIQUE constraint failed: Transactions.Id"

  function NotFound(accountId: string): Error {
    InvalidOperation("Account " + accountId + " not found")
  }

  function AlreadyExists(accountId: string): Error {
    InvalidOperation("Account " + accountId + " already exists")
  }
}
