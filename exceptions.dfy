/**
 * The exceptions the service layer raises or lets through, and the result of
 * an operation that either returns normally or throws one of them.
 */
module Exceptions {

  /** A `FieldError` of a failed `@Valid` binding: the field and its default message. */
  datatype FieldError = FieldError(field: string, defaultMessage: string)

  /** A `ConstraintViolation`: its property path and message. */
  datatype Violation = Violation(propertyPath: string, message: string)

  datatype Exception =
    | UserNotFoundException(message: string)
    | PaymentCardNotFoundException(message: string)
    | CardLimitExceededException(message: string)
    | DuplicateEmailException(message: string)
    | DuplicateCardNumberException(message: string)
    | MethodArgumentNotValidException(errors: seq<FieldError>)
    | IllegalArgumentException(message: string)
    | IllegalStateException(message: string)
    | ConstraintViolationException(violations: seq<Violation>)
      /** `jakarta.persistence.EntityNotFoundException`, raised by `updateCard`. */
    | EntityNotFoundException(message: string)
      /** A unique-constraint violation reported by the database on insert or update. */
    | DataIntegrityViolationException(message: string)

  /** A call that returns `value`, or throws `error` (and then changes nothing, the transaction being rolled back). */
  datatype Result<+T> = Ok(value: T) | Err(error: Exception)
}
