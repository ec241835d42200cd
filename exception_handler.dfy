/**
 * handler.ControllerExceptionHandler: which exceptions leaving a controller
 * are answered, with which status, and the error body written for them.
 * Exceptions without a handler are left to the framework.
 */
module ExceptionHandler {
  import opened Errors
  import opened Http

  /** Collectors.joining("; ") over the default messages, in order. */
  function JoinMessages(errors: seq<FieldError>): (r: string)
    ensures errors == [] ==> r == ""
    ensures |errors| == 1 ==> r == errors[0].message
  {
    if errors == [] then ""
    else if |errors| == 1 then errors[0].message
    else errors[0].message + "; " + JoinMessages(errors[1..])
  }

  /** Joining a concatenation joins the parts with one separator between them. */
  lemma {:induction false} JoinAppend(a: seq<FieldError>, b: seq<FieldError>)
    requires a != [] && b != []
    ensures JoinMessages(a + b) == JoinMessages(a) + "; " + JoinMessages(b)
  {
    if |a| == 1 {
      assert (a + b)[1..] == b;
    } else {
      assert (a + b)[1..] == a[1..] + b;
      JoinAppend(a[1..], b);
    }
  }

  /** The total length of the messages. */
  function MessagesLength(errors: seq<FieldError>): nat {
    if errors == [] then 0 else |errors[0].message| + MessagesLength(errors[1..])
  }

  /** n messages are joined with exactly n - 1 separators: the length is their sum plus 2(n - 1). */
  lemma {:induction false} JoinLength(errors: seq<FieldError>)
    requires errors != []
    ensures |JoinMessages(errors)| == MessagesLength(errors) + 2 * (|errors| - 1)
  {
    if |errors| > 1 {
      JoinLength(errors[1..]);
    }
  }

  /** Every message appears in the joined text, at the position after the earlier messages and separators. */
  lemma {:induction false} JoinContainsEach(errors: seq<FieldError>, i: nat)
    requires i < |errors|
    ensures var m := errors[i].message;
      var start := MessagesLength(errors[..i]) + 2 * i;
      start + |m| <= |JoinMessages(errors)| && JoinMessages(errors)[start..start + |m|] == m
  {
    if |errors| == 1 {
      assert errors[..i] == [];
    } else if i == 0 {
      assert errors[..0] == [];
    } else {
      JoinContainsEach(errors[1..], i - 1);
      assert errors[..i] == [errors[0]] + errors[1..][..i - 1];
      assert errors[..i][1..] == errors[1..][..i - 1];
    }
  }

  /** The error body a handler writes: its code is the status it answers with. */
  function ErrorResponse(status: int, message: string): (r: Response)
    ensures r.status == status && r.body.ErrorBody? && r.body.error.errorCode == status
  {
    Response(status, ErrorBody(ErrorMessage(status, message)))
  }

  /**
   * The handlers: validation failures and AuthException give 400, the two
   * user-not-found exceptions and TaskNotFoundException 404,
   * UserAlreadyExistsException 409. Anything else is not handled here.
   */
  function Handle(e: Exception): (r: Option<Response>)
    ensures r.Some? ==> r.value.body.ErrorBody? && r.value.body.error.errorCode == r.value.status
    ensures r.Some? <==> e.ArgumentNotValid? || e.AuthError? || e.UserNotFound? || e.UsernameNotFound?
                         || e.UserAlreadyExists? || e.TaskNotFound?
    ensures e.ArgumentNotValid? ==> r == Some(ErrorResponse(400, JoinMessages(e.errors)))
    ensures e.AuthError? ==> r == Some(ErrorResponse(400, e.message))
    ensures e.UserNotFound? || e.UsernameNotFound? || e.TaskNotFound? ==> r == Some(ErrorResponse(404, e.message))
    ensures e.UserAlreadyExists? ==> r == Some(ErrorResponse(409, e.message))
  {
    match e
    case ArgumentNotValid(errors) => Some(ErrorResponse(400, JoinMessages(errors)))
    case AuthError(message) => Some(ErrorResponse(400, message))
    case UserNotFound(message) => Some(ErrorResponse(404, message))
    case UsernameNotFound(message) => Some(ErrorResponse(404, message))
    case UserAlreadyExists(message) => Some(ErrorResponse(409, message))
    case TaskNotFound(message) => Some(ErrorResponse(404, message))
    case _ => None
  }

  /** Exceptions the handler leaves alone: bad tokens, unauthorised callers, and the Java runtime's own. */
  lemma UnhandledExceptions(message: string)
    ensures Handle(JwtError(message)) == None && Handle(NotAuthorizedUser(message)) == None
    ensures Handle(IllegalArgument(message)) == None && Handle(NullPointer) == None && Handle(TokenLibrary) == None
  {
  }
}
