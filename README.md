# Task management system: a verified model of its core

This project models the core of a Spring task tracker in Dafny. Users register and log in. A login hands out a JWT access token and a refresh token. Requests carry the access token as a bearer token. Tasks have a title, description, status, priority, comments, an author and an executor.

The model covers:

- **Entities** (`Domain`): users, tasks, and the `Role`, `Status` and `Priority` enums with their `valueOf`.
- **Request bodies and bean validation** (`Dto`, `Validation`): the constraints of `TaskDto`, `RegistrationUserDto` and `CommentDto`, and the custom enum validator.
- **Tokens** (`JwtService`): token issue, validation and claim reading.
  - The signing library is a `Codec` of a `sign` and a `parse` function.
  - `Sound` states that a signed token parses back to its claims.
- **The bearer filter** (`JwtFilter`) and the authentication object it installs (`Authentication`).
- **User and task services** (`UserServices`, `TaskServices`): classes over the repositories' tables. The task repository's filter queries are modelled in `TaskRepository`.
- **Controller and error mapping** (`TaskControllers`, `ExceptionHandler`): the task controller's permission checks, and the mapping of exceptions to HTTP answers.
- **Authentication service** (`AuthServices`): registration, login and refresh, with the in-memory refresh-token store.

Modelling conventions:

- A Java `null` is `Option.None`.
- A thrown exception is `Result.Throw`, carrying the exception and its message.
- The security context, the clock (`now`, in seconds) and generated ids are parameters.
- A transactional method that throws leaves its table as it was, because the transaction rolls back.
- Bean validation runs before a handler, so handlers require their validated body.

Three behaviours of the code are worth noting:

- **Refresh tokens are not rotated.** `refreshAndGetToken` only reads the store. The login refresh token stays usable until it expires (`LoginTokenRefreshes`). The refresh token a refresh hands out is never recorded, so presenting it later gets a pair of nulls (`MintedRefreshTokenNotRecorded`).
- **Refresh outcomes.** A refresh with an invalid token throws `JwtException`. A valid token that is not the stored one gets `JwtResponse(null, null)`.
- **Errors that leave the filter.** The filter answers only `JwtException` with 401. Parser failures other than the four caught ones escape the filter, and so does the `NullPointerException` from using a refresh token as a bearer token (`RefreshTokenAsBearerEscapes`).

## Model

| member | source | states |
|---|---|---|
| Domain.RoleValueOf | src/main/java/ru/effectivemobile/taskmanagementsystem/security/Role.java:16-21 | Role.valueOf succeeds exactly on "ROLE_ADMIN" and "ROLE_USER", gives the constant with that name, and otherwise throws IllegalArgumentException "No enum constant …" |
| Domain.StatusValueOf | src/main/java/ru/effectivemobile/taskmanagementsystem/domain/entity/Status.java:6-22 | Status.valueOf succeeds exactly on DONE, IN_PROGRESS, PENDING with the constant of that name; null throws NullPointerException, other names IllegalArgumentException |
| Domain.PriorityValueOf | src/main/java/ru/effectivemobile/taskmanagementsystem/domain/entity/Priority.java:6-20 | Priority.valueOf succeeds exactly on LOW, NORMAL, HIGH with the constant of that name; null throws NullPointerException |
| Domain.RoleValueOfName | src/main/java/ru/effectivemobile/taskmanagementsystem/security/Role.java:16-21 | Role.valueOf(name()) gives back every Role constant |
| Domain.StatusValueOfName | src/main/java/ru/effectivemobile/taskmanagementsystem/domain/entity/Status.java:6-22 | Status.valueOf(name()) gives back every Status constant |
| Domain.PriorityValueOfName | src/main/java/ru/effectivemobile/taskmanagementsystem/domain/entity/Priority.java:6-20 | Priority.valueOf(name()) gives back every Priority constant |
| Validation.NotBlank | src/main/java/ru/effectivemobile/taskmanagementsystem/domain/dto/TaskDto.java:36 | a non-blank value is non-null and non-empty |
| Validation.SizeWithin | src/main/java/ru/effectivemobile/taskmanagementsystem/domain/dto/CommentDto.java:23 | null meets any @Size; a present value that meets it has a length between min and max |
| Validation.EnumValid | src/main/java/ru/effectivemobile/taskmanagementsystem/util/validation/EnumValidator.java:34-40 | null is valid; a valid non-null value is one of the constant names |
| Validation.HasText | src/main/java/ru/effectivemobile/taskmanagementsystem/security/JwtFilter.java:67 | a header with text is non-null and non-empty |
| Validation.NotBlankExamples | src/main/java/ru/effectivemobile/taskmanagementsystem/domain/dto/TaskDto.java:36 | @NotBlank rejects null, "" and whitespace-only text and accepts text with one visible character |
| Validation.NotBlankMeetsSizeOne | src/main/java/ru/effectivemobile/taskmanagementsystem/domain/dto/CommentDto.java:22-23 | a non-blank value always meets a minimum size of 1 |
| Validation.EnumValidIff | src/main/java/ru/effectivemobile/taskmanagementsystem/util/validation/EnumValidator.java:34-40 | isValid holds iff the value is null or equals one constant name exactly |
| Dto.StatusValidatorCases | src/main/java/ru/effectivemobile/taskmanagementsystem/util/validation/EnumValidator.java:35-39 | every Status name is accepted, "done" (wrong case) and "" are rejected, null is accepted |
| Dto.TaskDtoValid | src/main/java/ru/effectivemobile/taskmanagementsystem/domain/dto/TaskDto.java:36-83 | a valid body has a title of 1 to 50 chars, a description of 1 to 256, a status and a priority that are constant names, and non-null author and executor |
| Dto.TaskDtoViolations | src/main/java/ru/effectivemobile/taskmanagementsystem/domain/dto/TaskDto.java:36-83 | the set of violations is empty iff the body is valid; a blank author and a blank executor both report "Executor cannot be blank" |
| Dto.ValidTaskDtoConverts | src/main/java/ru/effectivemobile/taskmanagementsystem/domain/dto/TaskDto.java:52-64 | a valid body names an existing status and priority, so both valueOf calls succeed |
| Dto.TaskDtoIdAndCommentsFree | src/main/java/ru/effectivemobile/taskmanagementsystem/domain/dto/TaskDto.java:30-69 | changing id or comments never changes validity |
| Dto.RegistrationValid | src/main/java/ru/effectivemobile/taskmanagementsystem/domain/dto/RegistrationUserDto.java:17-34 | a valid body has a username of 3 to 50 chars, a password of 3 to 255 and a non-empty confirmation |
| Dto.RegistrationViolations | src/main/java/ru/effectivemobile/taskmanagementsystem/domain/dto/RegistrationUserDto.java:17-34 | no violations iff username is non-blank with 3 to 50 chars, password non-blank with 3 to 255, confirmPassword non-blank |
| Dto.MismatchedPasswordsPassValidation | src/main/java/ru/effectivemobile/taskmanagementsystem/domain/dto/RegistrationUserDto.java:11-35 | a body whose password and confirmation differ still passes validation |
| Dto.ConfirmPasswordUnbounded | src/main/java/ru/effectivemobile/taskmanagementsystem/domain/dto/RegistrationUserDto.java:33-34 | any non-blank confirmation, of any length, keeps a valid body valid |
| Dto.CommentValid | src/main/java/ru/effectivemobile/taskmanagementsystem/domain/dto/CommentDto.java:22-24 | a valid comment is non-null and 1 to 255 chars long |
| Dto.CommentViolations | src/main/java/ru/effectivemobile/taskmanagementsystem/domain/dto/CommentDto.java:22-24 | no violations iff the comment is non-blank and 1 to 255 chars long |
| Dto.CommentValidIff | src/main/java/ru/effectivemobile/taskmanagementsystem/domain/dto/CommentDto.java:22-23 | valid iff non-null, non-blank and at most 255 chars; a comment of spaces is rejected whatever its length |
| Dto.CommentLengthBoundary | src/main/java/ru/effectivemobile/taskmanagementsystem/domain/dto/CommentDto.java:23 | a non-blank comment of 255 chars passes and one of 256 fails |
| Authentication.JwtAuthentication.constructor | src/main/java/ru/effectivemobile/taskmanagementsystem/security/JwtAuthentication.java:30-34 | stores authenticated, username and roles exactly as given |
| Authentication.JwtAuthentication.GetAuthorities | src/main/java/ru/effectivemobile/taskmanagementsystem/security/JwtAuthentication.java:42-44 | getAuthorities is the role set |
| Authentication.JwtAuthentication.GetCredentials | src/main/java/ru/effectivemobile/taskmanagementsystem/security/JwtAuthentication.java:52-54 | getCredentials is always null |
| Authentication.JwtAuthentication.GetDetails | src/main/java/ru/effectivemobile/taskmanagementsystem/security/JwtAuthentication.java:62-64 | getDetails is always null |
| Authentication.JwtAuthentication.GetPrincipal | src/main/java/ru/effectivemobile/taskmanagementsystem/security/JwtAuthentication.java:72-74 | getPrincipal is the object itself |
| Authentication.JwtAuthentication.IsAuthenticated | src/main/java/ru/effectivemobile/taskmanagementsystem/security/JwtAuthentication.java:82-84 | isAuthenticated is the current flag |
| Authentication.JwtAuthentication.SetAuthenticated | src/main/java/ru/effectivemobile/taskmanagementsystem/security/JwtAuthentication.java:93-95 | setAuthenticated overwrites the flag; username and roles are unchanged |
| Authentication.JwtAuthentication.GetName | src/main/java/ru/effectivemobile/taskmanagementsystem/security/JwtAuthentication.java:103-105 | getName is the username |
| JwtService.SignInjective | src/main/java/ru/effectivemobile/taskmanagementsystem/security/JwtService.java:163-168 | with a key under which every signed token parses back to its claims, two different claim sets never give the same token |
| JwtService.AccessClaims | src/main/java/ru/effectivemobile/taskmanagementsystem/security/JwtService.java:50-59 | subject and "username" claim are the username, expiry is issue time + accessTokenLife, and "roles" holds exactly the names of the user's roles |
| JwtService.RefreshClaims | src/main/java/ru/effectivemobile/taskmanagementsystem/security/JwtService.java:72-79 | subject is the username, expiry is issue time + refreshTokenLifetime, and there is no roles or username claim |
| JwtService.GenerateToken | src/main/java/ru/effectivemobile/taskmanagementsystem/security/JwtService.java:47-60 | under a sound key the access token is non-empty and parses back to exactly its claims |
| JwtService.GenerateRefreshToken | src/main/java/ru/effectivemobile/taskmanagementsystem/security/JwtService.java:69-80 | under a sound key the refresh token is non-empty and parses back to exactly its claims |
| JwtService.RoleNameList | src/main/java/ru/effectivemobile/taskmanagementsystem/security/JwtService.java:58 | the "roles" claim holds exactly the names of the user's roles |
| JwtService.AccessTokenCarries | src/main/java/ru/effectivemobile/taskmanagementsystem/security/JwtService.java:47-60 | an access token decodes to sub = username, exp = issue time + accessTokenLife, a "roles" claim with the role names and a "username" claim |
| JwtService.RefreshTokenCarries | src/main/java/ru/effectivemobile/taskmanagementsystem/security/JwtService.java:69-80 | a refresh token decodes to sub = username and exp = issue time + refreshTokenLifetime, with no roles and no username claim |
| JwtService.CheckToken | src/main/java/ru/effectivemobile/taskmanagementsystem/security/JwtService.java:194-198 | throws JwtException(message) exactly when the token is null or empty, and otherwise passes it on |
| JwtService.ValidateToken | src/main/java/ru/effectivemobile/taskmanagementsystem/security/JwtService.java:163-175 | never false: true iff the token parses with the key and is unexpired; expired, unsupported, malformed and badly signed tokens all give JwtException "Incorrect jwt token", other parser failures escape |
| JwtService.ValidateAccessToken | src/main/java/ru/effectivemobile/taskmanagementsystem/security/JwtService.java:89-92 | never false; true iff the token is non-empty and accepted; null or empty gives "Incorrect token" |
| JwtService.ValidateRefreshToken | src/main/java/ru/effectivemobile/taskmanagementsystem/security/JwtService.java:100-103 | never false; true iff the token is non-empty and accepted; null or empty gives "Incorrect refresh token" |
| JwtService.ValidatorsAgree | src/main/java/ru/effectivemobile/taskmanagementsystem/security/JwtService.java:89-103 | both validators answer alike on every non-empty token, so an unexpired refresh token passes validateAccessToken |
| JwtService.GetClaims | src/main/java/ru/effectivemobile/taskmanagementsystem/security/JwtService.java:148-154 | the claims come back iff the token is non-empty, parses and is unexpired; nothing is caught |
| JwtService.GetAccessClaims | src/main/java/ru/effectivemobile/taskmanagementsystem/security/JwtService.java:111-114 | succeeds iff validateAccessToken is true, with the parsed claims; null or empty gives "Incorrect token" |
| JwtService.GetRefreshClaims | src/main/java/ru/effectivemobile/taskmanagementsystem/security/JwtService.java:122-125 | succeeds iff validateRefreshToken is true; a null or empty token gives "Incorrect token", as on the access path |
| JwtService.ClaimGettersAgree | src/main/java/ru/effectivemobile/taskmanagementsystem/security/JwtService.java:111-125 | getAccessClaims and getRefreshClaims give the same result on every input |
| JwtService.RolesFromNames | src/main/java/ru/effectivemobile/taskmanagementsystem/security/JwtService.java:135-138 | the role set converts iff every name is a Role name, and then holds exactly the roles named; otherwise IllegalArgumentException |
| JwtService.RolesRoundTrip | src/main/java/ru/effectivemobile/taskmanagementsystem/security/JwtService.java:133-138 | the role names written into an access token convert back to the same role set |
| JwtService.PrincipalOf | src/main/java/ru/effectivemobile/taskmanagementsystem/security/JwtService.java:133-140 | username = subject and roles = the converted "roles" claim; a token without that claim throws NullPointerException |
| JwtService.Generate | src/main/java/ru/effectivemobile/taskmanagementsystem/security/JwtService.java:133-140 | a new JwtAuthentication with authenticated = true, username = subject and the converted roles, or the conversion's exception |
| JwtService.AccessTokenRoundTrip | src/main/java/ru/effectivemobile/taskmanagementsystem/security/JwtService.java:47-140 | before expiry, an access token's claims are read back and turn into the principal of the user it was issued for |
| JwtService.RefreshClaimsHaveNoPrincipal | src/main/java/ru/effectivemobile/taskmanagementsystem/security/JwtService.java:133-136 | the claims of a refresh token cannot be turned into a principal |
| JwtFilter.GetTokenFromRequest | src/main/java/ru/effectivemobile/taskmanagementsystem/security/JwtFilter.java:65-71 | a token iff the header has text and starts with the case-sensitive "Bearer ", and then the header is "Bearer " followed by the token; otherwise null |
| JwtFilter.BearerIff | src/main/java/ru/effectivemobile/taskmanagementsystem/security/JwtFilter.java:65-71 | a header yields token t exactly when it is "Bearer " + t |
| JwtFilter.NoBearerNoToken | src/main/java/ru/effectivemobile/taskmanagementsystem/security/JwtFilter.java:67 | "bearer …", "Basic …" and a missing header yield no token |
| JwtFilter.Catch | src/main/java/ru/effectivemobile/taskmanagementsystem/security/JwtFilter.java:54-55 | a JwtException is answered with 401 and its message; any other exception leaves the filter |
| JwtFilter.Decide | src/main/java/ru/effectivemobile/taskmanagementsystem/security/JwtFilter.java:45-57 | no token continues unauthenticated; a principal is set if and only if validateAccessToken was true and the claims converted, and then it is the converted one; an exception of the validator goes to the catch block; a rejection is always 401 |
| JwtFilter.EmptyBearerRejected | src/main/java/ru/effectivemobile/taskmanagementsystem/security/JwtFilter.java:47-48 | the header "Bearer " is rejected with 401 "Incorrect token" |
| JwtFilter.AccessTokenAuthenticates | src/main/java/ru/effectivemobile/taskmanagementsystem/security/JwtFilter.java:48-53 | an unexpired access token authenticates the request as its user with that user's roles |
| JwtFilter.RefreshTokenAsBearerEscapes | src/main/java/ru/effectivemobile/taskmanagementsystem/security/JwtFilter.java:48-50 | a refresh token passes validation but makes generate throw NullPointerException, which leaves the filter |
| JwtFilter.RejectedTokenMessage | src/main/java/ru/effectivemobile/taskmanagementsystem/security/JwtFilter.java:54-55 | an expired or forged token is answered with 401 "Incorrect jwt token" |
| JwtFilter.DoFilter | src/main/java/ru/effectivemobile/taskmanagementsystem/security/JwtFilter.java:45-57 | the outcome is Decide's; on success the context holds a new authenticated JwtAuthentication with the principal's name and roles, otherwise the context is unchanged |
| UserServices.GetUsernameOfCurrentUser | src/main/java/ru/effectivemobile/taskmanagementsystem/service/impl/UserServiceImpl.java:58-68 | the username iff the context holds an authenticated JwtAuthentication; null, unauthenticated and other kinds give NotAuthorizedUserException "Not authorized user" |
| UserServices.OtherAuthenticationRefused | src/main/java/ru/effectivemobile/taskmanagementsystem/service/impl/UserServiceImpl.java:63-67 | an authenticated authentication of another kind is refused |
| UserServices.UserService.GetUserByUsername | src/main/java/ru/effectivemobile/taskmanagementsystem/service/impl/UserServiceImpl.java:52-55 | the stored user of that name, or UsernameNotFoundException "User with username '…' not found" |
| UserServices.UserService.GetCurrentUser | src/main/java/ru/effectivemobile/taskmanagementsystem/service/impl/UserServiceImpl.java:71-74 | the stored user named by the context; the context's exception first, then the lookup's |
| UserServices.UserService.CurrentUserRolesFromStore | src/main/java/ru/effectivemobile/taskmanagementsystem/service/impl/UserServiceImpl.java:71-74 | the current user's roles are the stored ones, not the authentication's |
| UserServices.UserService.LoadUserByUsername | src/main/java/ru/effectivemobile/taskmanagementsystem/service/impl/UserServiceImpl.java:78-86 | name, password and one authority per stored role named by the role; unknown or null name gives "User with name '…' not found" |
| UserServices.UserService.AuthoritiesPerRole | src/main/java/ru/effectivemobile/taskmanagementsystem/service/impl/UserServiceImpl.java:84 | there are exactly as many authorities as stored roles |
| UserServices.UserService.CreateNewUser | src/main/java/ru/effectivemobile/taskmanagementsystem/service/impl/UserServiceImpl.java:36-49 | an existing name throws UserAlreadyExistsException and saves nothing; otherwise the user with that name, encode(password) and roles {ROLE_USER} is saved and returned |
| UserUtil.IsCurrentUserAdmin | src/main/java/ru/effectivemobile/taskmanagementsystem/util/UserUtil.java:18-20 | admin iff one of the user's roles has the authority name "ROLE_ADMIN" |
| UserUtil.IsCurrentUserOwner | src/main/java/ru/effectivemobile/taskmanagementsystem/util/UserUtil.java:29-31 | owner iff the task is authored by a user of that name, the join the "my tasks" query uses |
| UserUtil.PlainUserIsNotAdmin | src/main/java/ru/effectivemobile/taskmanagementsystem/util/UserUtil.java:18-20 | a user with only ROLE_USER is not an administrator, and adding ROLE_ADMIN makes one |
| UserUtil.ExecutorIsNotOwner | src/main/java/ru/effectivemobile/taskmanagementsystem/util/UserUtil.java:29-31 | the executor who is not the author is not the owner; "Alice" does not own a task of "alice" |
| UserUtil.OwnerByNameOnly | src/main/java/ru/effectivemobile/taskmanagementsystem/util/UserUtil.java:29-31 | ownership depends only on the author's username |
| TaskRepository.PassesFilters | src/main/java/ru/effectivemobile/taskmanagementsystem/repository/TaskRepository.java:37-42 | every task passes the all-null filters; a title or author filter never lets through a task whose title or author is null |
| TaskRepository.FindTasksOfCurrentUserWithFilters | src/main/java/ru/effectivemobile/taskmanagementsystem/repository/TaskRepository.java:34-48 | the stored tasks whose author has the username and that pass every non-null filter, and only those |
| TaskRepository.FindTasksAssignedToCurrentUserWithFilters | src/main/java/ru/effectivemobile/taskmanagementsystem/repository/TaskRepository.java:62-76 | the stored tasks whose executor has the username and that pass every non-null filter, and only those |
| TaskRepository.NoFiltersSelectAll | src/main/java/ru/effectivemobile/taskmanagementsystem/repository/TaskRepository.java:34-71 | with all filters null the result is exactly the authored (assigned) tasks |
| TaskRepository.FiltersConjoin | src/main/java/ru/effectivemobile/taskmanagementsystem/repository/TaskRepository.java:37-42 | the result is the intersection of the results of each filter alone |
| TaskRepository.NullStatusIsNoConstraint | src/main/java/ru/effectivemobile/taskmanagementsystem/repository/TaskRepository.java:38-42 | nulling a filter never removes a task; a non-null status keeps exactly the tasks with that status |
| TaskServices.CommentList | src/main/java/ru/effectivemobile/taskmanagementsystem/service/impl/TaskServiceImpl.java:78 | a null comment list is stored as the empty list, any other list as is |
| TaskServices.TaskToTaskDto | src/main/java/ru/effectivemobile/taskmanagementsystem/service/impl/TaskServiceImpl.java:126-137 | every field copied; status and priority as names that parse back to them; author and executor as usernames |
| TaskServices.TaskDtoToTask | src/main/java/ru/effectivemobile/taskmanagementsystem/service/impl/TaskServiceImpl.java:107-117 | succeeds iff status, priority and executor all convert, with the body's fields, no author and the stored executor; status errors first, then priority |
| TaskServices.ValidDtoConverts | src/main/java/ru/effectivemobile/taskmanagementsystem/service/impl/TaskServiceImpl.java:107-117 | a validated body converts iff its executor exists |
| TaskServices.TaskRoundTrip | src/main/java/ru/effectivemobile/taskmanagementsystem/service/impl/TaskServiceImpl.java:107-137 | task -> body -> task gives the task back without its author |
| TaskServices.DtoRoundTrip | src/main/java/ru/effectivemobile/taskmanagementsystem/service/impl/TaskServiceImpl.java:107-137 | body -> task -> body gives the body back, with the author set and a null comment list made empty |
| TaskServices.TasksToDtos | src/main/java/ru/effectivemobile/taskmanagementsystem/service/impl/TaskServiceImpl.java:150-152 | same length, element i converted from task i |
| TaskServices.TaskListToDtoList | src/main/java/ru/effectivemobile/taskmanagementsystem/service/impl/TaskServiceImpl.java:146-153 | null gives the empty list; otherwise same length and order with element i = taskToTaskDto(list[i]) |
| TaskServices.TasksToDtosAppend | src/main/java/ru/effectivemobile/taskmanagementsystem/service/impl/TaskServiceImpl.java:150-152 | converting a concatenation is concatenating the conversions |
| TaskServices.CheckAndGetStatus | src/main/java/ru/effectivemobile/taskmanagementsystem/service/impl/TaskServiceImpl.java:232-234 | null stays null; a name converts iff it is a Status name |
| TaskServices.CheckAndGetPriority | src/main/java/ru/effectivemobile/taskmanagementsystem/service/impl/TaskServiceImpl.java:242-244 | null stays null; a name converts iff it is a Priority name |
| TaskServices.CheckAndGetUser | src/main/java/ru/effectivemobile/taskmanagementsystem/service/impl/TaskServiceImpl.java:252-264 | null stays null; a name gives the stored user or UsernameNotFoundException |
| TaskServices.Filters | src/main/java/ru/effectivemobile/taskmanagementsystem/service/impl/TaskServiceImpl.java:181-189 | the query parameters are the converted request parameters, converted in argument order |
| TaskServices.ApplyUpdate | src/main/java/ru/effectivemobile/taskmanagementsystem/service/impl/TaskServiceImpl.java:74-85 | an administrator replaces status, priority, executor and comments; the non-admin author only status and comments; anyone else changes nothing without error; id, title, description and author never change |
| TaskServices.AdminOwnerSameAsAdmin | src/main/java/ru/effectivemobile/taskmanagementsystem/service/impl/TaskServiceImpl.java:74-85 | an administrator who is the author ends in the same state as one who is not |
| TaskServices.OutsiderUpdateIsNoOp | src/main/java/ru/effectivemobile/taskmanagementsystem/service/impl/TaskServiceImpl.java:72-86 | an update by a non-admin non-author succeeds and leaves the task as it was, whatever the body |
| TaskServices.TaskService.CreateTask | src/main/java/ru/effectivemobile/taskmanagementsystem/service/impl/TaskServiceImpl.java:44-47 | the current user becomes the author, replacing any author given, and the task is stored under its id |
| TaskServices.TaskService.GetTaskById | src/main/java/ru/effectivemobile/taskmanagementsystem/service/impl/TaskServiceImpl.java:57-60 | the stored task, or TaskNotFoundException "Task with id … not found" |
| TaskServices.TaskService.UpdateTask | src/main/java/ru/effectivemobile/taskmanagementsystem/service/impl/TaskServiceImpl.java:71-86 | current user, then task, then the permitted updates are stored; any exception leaves the store as it was |
| TaskServices.TaskService.DeleteTask | src/main/java/ru/effectivemobile/taskmanagementsystem/service/impl/TaskServiceImpl.java:95-98 | removes the task, or throws TaskNotFoundException and removes nothing |
| TaskServices.TaskService.UpdateTaskComments | src/main/java/ru/effectivemobile/taskmanagementsystem/service/impl/TaskServiceImpl.java:162-164 | the task is saved under its id, nothing else changes |
| TaskServices.TaskService.GetMyTasksWithFilters | src/main/java/ru/effectivemobile/taskmanagementsystem/service/impl/TaskServiceImpl.java:179-194 | the bodies of the current user's filtered tasks; every one has the current user as author |
| TaskServices.TaskService.GetAssignedTasksWithFilters | src/main/java/ru/effectivemobile/taskmanagementsystem/service/impl/TaskServiceImpl.java:209-224 | the bodies of the filtered tasks assigned to the current user; every one has the current user as executor |
| TaskControllers.MaySee | src/main/java/ru/effectivemobile/taskmanagementsystem/controller/TaskController.java:106 | an administrator sees every task; anyone else sees exactly the tasks the repository lists as theirs |
| TaskControllers.TaskController.CreateTask | src/main/java/ru/effectivemobile/taskmanagementsystem/controller/TaskController.java:70-81 | an administrator's task is stored with the administrator as author and returned with 201; anyone else gets 403 and the store is unchanged |
| TaskControllers.TaskController.GetTask | src/main/java/ru/effectivemobile/taskmanagementsystem/controller/TaskController.java:103-112 | 200 with the task for its author or an administrator, otherwise 403; an unknown id throws TaskNotFoundException before any permission check |
| TaskControllers.TaskController.UpdateTask | src/main/java/ru/effectivemobile/taskmanagementsystem/controller/TaskController.java:132-136 | always 201 with the task as now stored, even when nothing changed |
| TaskControllers.TaskController.DeleteTask | src/main/java/ru/effectivemobile/taskmanagementsystem/controller/TaskController.java:158-167 | an administrator removes the task and gets 200 with body code 204; anyone else gets 403 and the task remains |
| TaskControllers.TaskController.GetTaskComments | src/main/java/ru/effectivemobile/taskmanagementsystem/controller/TaskController.java:247-256 | 200 with the id and comments for the author or an administrator, otherwise 403; an unknown id throws first |
| TaskControllers.TaskController.AddCommentToTask | src/main/java/ru/effectivemobile/taskmanagementsystem/controller/TaskController.java:279-290 | the comment is appended and stored even when the answer is 403; the allowed caller gets the id and the whole updated list |
| AuthServices.AuthService.constructor | src/main/java/ru/effectivemobile/taskmanagementsystem/service/impl/AuthServiceImpl.java:38 | a new service starts with an empty refresh-token store |
| AuthServices.AuthService.CheckAndRegister | src/main/java/ru/effectivemobile/taskmanagementsystem/service/impl/AuthServiceImpl.java:53-59 | differing passwords give 400 "Passwords do not matches" and no user; otherwise 200 with exactly the created user's id and username |
| AuthServices.AuthService.CheckCredentials | src/main/java/ru/effectivemobile/taskmanagementsystem/service/impl/AuthServiceImpl.java:71-74 | passes iff the user exists and the password matches the stored hash; a wrong password throws AuthException "Incorrect password" |
| AuthServices.AuthService.AuthAndGetToken | src/main/java/ru/effectivemobile/taskmanagementsystem/service/impl/AuthServiceImpl.java:70-100 | bad credentials leave refreshStorage unchanged; good ones set refreshStorage[username] to the new refresh token, keep other entries, and return exactly the two tokens issued |
| AuthServices.AuthService.RefreshAndGetToken | src/main/java/ru/effectivemobile/taskmanagementsystem/service/impl/AuthServiceImpl.java:109-121 | an invalid token throws JwtException; a valid token equal to the stored one gets a new pair for the stored user; any other valid token gets (null, null); the store is only read |
| AuthServices.AuthService.LoginTokenRefreshes | src/main/java/ru/effectivemobile/taskmanagementsystem/service/impl/AuthServiceImpl.java:109-121 | the login refresh token is accepted, as often as presented, until it expires |
| AuthServices.AuthService.MintedRefreshTokenNotRecorded | src/main/java/ru/effectivemobile/taskmanagementsystem/service/impl/AuthServiceImpl.java:116-117 | the refresh token handed out by a refresh is not recorded and is answered with (null, null) |
| AuthServices.AuthService.UnknownSubjectGetsNullPair | src/main/java/ru/effectivemobile/taskmanagementsystem/service/impl/AuthServiceImpl.java:113-120 | a valid refresh token with no stored entry gets (null, null) |
| AuthServices.AuthService.EmptyRefreshTokenThrows | src/main/java/ru/effectivemobile/taskmanagementsystem/service/impl/AuthServiceImpl.java:110 | a null or empty refresh token throws "Incorrect refresh token" instead of getting (null, null) |
| AuthServices.AuthService.RegisteredUserCanLogIn | src/main/java/ru/effectivemobile/taskmanagementsystem/service/impl/AuthServiceImpl.java:71-74 | a registered user passes the credential check with the password given at registration |
| ExceptionHandler.JoinMessages | src/main/java/ru/effectivemobile/taskmanagementsystem/handler/ControllerExceptionHandler.java:23-25 | no messages give "", one message gives itself |
| ExceptionHandler.JoinAppend | src/main/java/ru/effectivemobile/taskmanagementsystem/handler/ControllerExceptionHandler.java:23-25 | joining a concatenation joins the two parts with one "; " |
| ExceptionHandler.JoinLength | src/main/java/ru/effectivemobile/taskmanagementsystem/handler/ControllerExceptionHandler.java:23-25 | n messages are joined with exactly n - 1 separators |
| ExceptionHandler.JoinContainsEach | src/main/java/ru/effectivemobile/taskmanagementsystem/handler/ControllerExceptionHandler.java:23-25 | message i appears in order, after the earlier messages and i separators |
| ExceptionHandler.ErrorResponse | src/main/java/ru/effectivemobile/taskmanagementsystem/handler/ControllerExceptionHandler.java:26-51 | the body's errorCode equals the HTTP status |
| ExceptionHandler.Handle | src/main/java/ru/effectivemobile/taskmanagementsystem/handler/ControllerExceptionHandler.java:21-52 | validation errors 400 with the joined messages, AuthException 400, the two not-found user exceptions and TaskNotFoundException 404, UserAlreadyExistsException 409, errorCode = status; nothing else is handled |
| ExceptionHandler.UnhandledExceptions | src/main/java/ru/effectivemobile/taskmanagementsystem/handler/ControllerExceptionHandler.java:18-53 | JwtException, NotAuthorizedUserException and runtime exceptions have no handler here |
## Left out

- Cryptography is left out: HMAC signing, the jjwt parser and BCrypt hashing. The model has a token `Codec` and a `PasswordEncoder` as parameters with stated properties. A failure of the token library other than the four caught ones is the `OtherFailure` parse outcome.
- HTTP plumbing is left out: cookies, `Set-Cookie` headers, servlet and Jackson serialisation, and the timestamp of `ErrorMessage`.
- Pagination and sorting are left out, along with the order of query results. Queries return sets of tasks, and the lists built from them are in some order.
- The order of field errors in a validation failure is not modelled: Spring does not fix it. Database collation is not modelled either; usernames and titles compare exactly.
- Saving a task with a client-supplied id is modelled as an overwrite under that id. JPA `merge` semantics are not modelled.
- A `null` comment list is stored as the empty list (`CommentList`).
- The concurrency of `ConcurrentHashMap` and of the request threads is not modelled. Every operation is atomic.
- The clock is read once per request, as an integer number of seconds.
- JwtService.Expired: compares whole seconds, so a token counts as expired only once `now > exp`. The token library compares milliseconds against `exp` seconds, so it already rejects a token during its expiry second. The model still accepts a token when `now == exp`.
- `JwtFilter.DoFilter` models the filter's own decision; the rest of the filter chain is not part of this model. `fc.doFilter` runs inside the same `try`, but an exception from a controller reaches it wrapped in a `ServletException`, so the refresh endpoint's `JwtException` is not answered by this block.
- Several parts of the application are not part of this model:
  - `AuthController`, `UserController` and the pass-through list handlers of `TaskController`, which only forward to the modelled service methods;
  - the public paths of `SecurityConfig`;
  - the older `effective_mobile` package;
  - the unused `AuthService` interface.
- UserServices.UserService.CreateNewUser: requires a non-null username and password, because its only caller passes a validated registration body.
- UserUtil.IsCurrentUserOwner: requires the task to have an author. The Java code throws `NullPointerException` for a task without one, and every stored task has an author.
- TaskServices.TaskToTaskDto: requires the task to have an author, for the same reason.
- Validation.SizeWithin: counts characters as sequence elements. Java counts UTF-16 code units, and surrogate pairs are not modelled.
- UserServices.UserService.LoadUserByUsername: stored passwords are never null in the model, so the `UserDetails` check for a null password is not modelled.
