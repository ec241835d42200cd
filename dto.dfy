/**
 * Request and response bodies, and the bean-validation constraints declared on
 * TaskDto, RegistrationUserDto and CommentDto. Each body has a predicate that
 * holds when it passes validation and a function listing the violations.
 */
module Dto {
  import opened Errors
  import opened Domain
  import opened Validation

  /** dto.TaskDto: every field may be null in a request body. */
  datatype TaskDto = TaskDto(
    id: Option<Uuid>,
    title: Option<string>,
    description: Option<string>,
    status: Option<string>,
    priority: Option<string>,
    comments: Option<seq<string>>,
    author: Option<string>,
    executor: Option<string>)

  /** dto.RegistrationUserDto */
  datatype RegistrationUserDto = RegistrationUserDto(
    username: Option<string>,
    password: Option<string>,
    confirmPassword: Option<string>)

  /** dto.CommentDto */
  datatype CommentDto = CommentDto(comment: Option<string>)

  /** dto.UserDto, the body of a successful registration. */
  datatype UserDto = UserDto(id: Uuid, username: string)

  /** dto.TaskCommentsDto */
  datatype TaskCommentsDto = TaskCommentsDto(id: Option<Uuid>, comments: seq<string>)

  /** response.JwtResponse: an access token and a refresh token, either may be null. */
  datatype JwtResponse = JwtResponse(token: Option<string>, refreshToken: Option<string>)

  /** request.AuthRequest: the login body, not validated, so either field may be null. */
  datatype AuthRequest = AuthRequest(username: Option<string>, password: Option<string>)

  /** One violation when the constraint fails, none when it holds. */
  function Check(holds: bool, field: string, message: string): set<FieldError> {
    if holds then {} else {FieldError(field, message)}
  }

  // ---- TaskDto ----

  /** The constraints on TaskDto; id and comments carry none. */
  predicate TaskDtoValid(d: TaskDto)
    ensures TaskDtoValid(d) ==>
      && d.title.Some? && 1 <= |d.title.value| <= 50
      && d.description.Some? && 1 <= |d.description.value| <= 256
      && d.status.Some? && d.status.value in StatusNames
      && d.priority.Some? && d.priority.value in PriorityNames
      && d.author.Some? && d.executor.Some?
  {
    && NotBlank(d.title) && SizeWithin(d.title, 0, 50)
    && NotBlank(d.description) && SizeWithin(d.description, 0, 256)
    && NotBlank(d.status) && EnumValid(d.status, StatusNames)
    && NotBlank(d.priority) && EnumValid(d.priority, PriorityNames)
    && NotBlank(d.author)
    && NotBlank(d.executor)
  }

  /** Every failed constraint of a TaskDto with its declared message. */
  function TaskDtoViolations(d: TaskDto): (v: set<FieldError>)
    ensures v == {} <==> TaskDtoValid(d)
    ensures !NotBlank(d.author) <==> FieldError("author", "Executor cannot be blank") in v
    ensures !NotBlank(d.executor) <==> FieldError("executor", "Executor cannot be blank") in v
  {
    Check(NotBlank(d.title), "title", "Title cannot be blank")
    + Check(SizeWithin(d.title, 0, 50), "title", "Max length are 50 chars")
    + Check(NotBlank(d.description), "description", "Description cannot be blank")
    + Check(SizeWithin(d.description, 0, 256), "description", "Max length are 256 chars")
    + Check(NotBlank(d.status), "status", "Status cannot be blank")
    + Check(EnumValid(d.status, StatusNames), "status", "Invalid status")
    + Check(NotBlank(d.priority), "priority", "Priority cannot be blank")
    + Check(EnumValid(d.priority, PriorityNames), "priority", "Invalid priority")
    + Check(NotBlank(d.author), "author", "Executor cannot be blank")
    + Check(NotBlank(d.executor), "executor", "Executor cannot be blank")
  }

  /** A valid TaskDto names an existing status and priority, so `valueOf` succeeds on both. */
  lemma ValidTaskDtoConverts(d: TaskDto)
    requires TaskDtoValid(d)
    ensures StatusValueOf(d.status).Ok? && PriorityValueOf(d.priority).Ok?
  {
    EnumValidIff(d.status, StatusNames);
    EnumValidIff(d.priority, PriorityNames);
  }

  /**
   * EnumValidator on Status: each constant's own name passes, matching is
   * case-sensitive, the empty string fails and null passes.
   */
  lemma StatusValidatorCases(s: Status)
    ensures EnumValid(Some(s.Name()), StatusNames)
    ensures !EnumValid(Some("done"), StatusNames) && !EnumValid(Some(""), StatusNames)
    ensures EnumValid(None, StatusNames)
  {
    EnumValidIff(Some(s.Name()), StatusNames);
    EnumValidIff(Some("done"), StatusNames);
    EnumValidIff(Some(""), StatusNames);
    assert "done"[0] != "DONE"[0];
  }

  /** id and comments are unconstrained: changing them never changes validity. */
  lemma TaskDtoIdAndCommentsFree(d: TaskDto, id: Option<Uuid>, comments: Option<seq<string>>)
    ensures TaskDtoValid(d.(id := id, comments := comments)) == TaskDtoValid(d)
  {
  }

  // ---- RegistrationUserDto ----

  /** The constraints on RegistrationUserDto; equality of the two passwords is not one of them. */
  predicate RegistrationValid(d: RegistrationUserDto)
    ensures RegistrationValid(d) ==>
      && d.username.Some? && 3 <= |d.username.value| <= 50
      && d.password.Some? && 3 <= |d.password.value| <= 255
      && d.confirmPassword.Some? && |d.confirmPassword.value| >= 1
  {
    && NotBlank(d.username) && SizeWithin(d.username, 3, 50)
    && NotBlank(d.password) && SizeWithin(d.password, 3, 255)
    && NotBlank(d.confirmPassword)
  }

  /** Every failed constraint of a RegistrationUserDto with its declared message. */
  function RegistrationViolations(d: RegistrationUserDto): (v: set<FieldError>)
    ensures v == {} <==> RegistrationValid(d)
  {
    Check(NotBlank(d.username), "username", "Username cannot be blank")
    + Check(SizeWithin(d.username, 3, 50), "username", "Username length must be from 3 to 50 chars")
    + Check(NotBlank(d.password), "password", "Password cannot be blank")
    + Check(SizeWithin(d.password, 3, 255), "password", "Password length must be from 3 to 255 chars")
    + Check(NotBlank(d.confirmPassword), "confirmPassword", "Repeat the entered password")
  }

  /** Differing password and confirmation still pass validation; the service checks them later. */
  lemma MismatchedPasswordsPassValidation()
    ensures RegistrationValid(RegistrationUserDto(Some("alice"), Some("pw123"), Some("pw124")))
  {
    assert !TrimmedAway("alice"[0]);
    assert !TrimmedAway("pw123"[0]);
    assert !TrimmedAway("pw124"[0]);
  }

  /** confirmPassword has no length bound: one character, or more than 255, is accepted. */
  lemma ConfirmPasswordUnbounded(d: RegistrationUserDto, c: string)
    requires RegistrationValid(d) && NotBlank(Some(c))
    ensures RegistrationValid(d.(confirmPassword := Some(c)))
  {
  }

  // ---- CommentDto ----

  /** The constraints on CommentDto: non-blank and 1 to 255 characters. */
  predicate CommentValid(d: CommentDto)
    ensures CommentValid(d) ==> d.comment.Some? && 1 <= |d.comment.value| <= 255
  {
    NotBlank(d.comment) && SizeWithin(d.comment, 1, 255)
  }

  /** Every failed constraint of a CommentDto with its declared message. */
  function CommentViolations(d: CommentDto): (v: set<FieldError>)
    ensures v == {} <==> CommentValid(d)
  {
    Check(NotBlank(d.comment), "comment", "Comment cannot be blank")
    + Check(SizeWithin(d.comment, 1, 255), "comment", "Comment length must be from 1 to 255 chars")
  }

  /**
   * A comment is accepted iff it is non-null, has a character other than
   * whitespace, and is at most 255 long; in particular a whitespace-only
   * comment fails although its length is at least 1.
   */
  lemma CommentValidIff(d: CommentDto)
    ensures CommentValid(d) <==> d.comment.Some? && NotBlank(d.comment) && |d.comment.value| <= 255
    ensures d.comment.Some? && |d.comment.value| >= 1 && (forall i :: 0 <= i < |d.comment.value| ==> d.comment.value[i] == ' ')
      ==> !CommentValid(d)
  {
    if NotBlank(d.comment) {
      NotBlankMeetsSizeOne(d.comment, |d.comment.value|);
    }
  }

  /** The 255-character boundary: a non-blank comment of 255 passes, one of 256 fails. */
  lemma CommentLengthBoundary(s: string)
    requires |s| == 256 && !TrimmedAway(s[0])
    ensures CommentValid(CommentDto(Some(s[..255])))
    ensures !CommentValid(CommentDto(Some(s)))
  {
    assert s[..255][0] == s[0];
  }
}
