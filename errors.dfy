/**
 * Values shared by every component of the task tracker: Java's nullable
 * references, the exceptions the application throws or lets escape, and the
 * error body that handlers write into HTTP responses.
 */
module Errors {

  /** A Java reference that may be null. */
  datatype Option<+T> = None | Some(value: T)

  /** One failed bean-validation constraint: the field and its default message. */
  datatype FieldError = FieldError(field: string, message: string)

  /** The exceptions the modelled code throws, or lets escape from library calls. */
  datatype Exception =
    | JwtError(message: string)               // exception.JwtException
    | AuthError(message: string)              // exception.AuthException
    | UserAlreadyExists(message: string)      // exception.UserAlreadyExistsException
    | UserNotFound(message: string)           // exception.UserNotFoundException
    | UsernameNotFound(message: string)       // Spring Security's UsernameNotFoundException
    | NotAuthorizedUser(message: string)      // exception.NotAuthorizedUserException
    | TaskNotFound(message: string)           // exception.TaskNotFoundException
    | ArgumentNotValid(errors: seq<FieldError>) // MethodArgumentNotValidException
    | IllegalArgument(message: string)        // Enum.valueOf of an unknown name, and the like
    | NullPointer                             // a dereference of null
    | TokenLibrary                            // an exception of the token parser that the code does not catch

  /** The outcome of a Java call: a value, or the exception it throws. */
  datatype Result<+T> = Ok(value: T) | Throw(error: Exception)

  /**
   * The JSON error body. The controllers build exception.ErrorMessage and the
   * exception handler builds domain.dto.ErrorMessage; both carry an error code
   * and a message, so this one datatype stands for both. Their timestamp is
   * not modelled.
   */
  datatype ErrorMessage = ErrorMessage(errorCode: int, message: string)

  /** The text String.format("%s", s) produces for a nullable string. */
  function FormatNullable(s: Option<string>): (r: string)
    ensures s.Some? ==> r == s.value
  {
    if s.Some? then s.value else "null"
  }
}
