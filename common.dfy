/** Values shared by the whole model: Java's nullable references, the clock, and the
    failures that the services and the store raise. */
module Common {

  /** A nullable Java reference (`null` is `None`), also `java.util.Optional`. */
  datatype Option<+T> = None | Some(value: T)

  /** A `LocalDateTime.now()` reading. Every call to the clock is an explicit parameter. */
  type Time = int

  /** A `RuntimeException` or a persistence fault, raised synchronously to the caller. */
  datatype Failure =
    | RuntimeError(message: string)              // `new RuntimeException(message)`
    | ConstraintViolation(messages: set<string>) // Bean Validation refused the entity on save
    | NullCategory                               // the database refused a null `category_id`
    | NullPointer                                // a method was called on a null reference
    | NonUniqueResult                            // a single-result query matched several rows

  /** The outcome of an operation that either returns a value or throws. */
  datatype Result<+T> = Ok(value: T) | Err(failure: Failure)

  const ISSUE_NOT_FOUND := "Issue not found"
  const USER_NOT_FOUND := "User not found"
  const INVALID_CREDENTIALS := "Invalid credentials"
  const LOGIN_SUCCESSFUL := "Login successful"
}
