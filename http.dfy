/**
 * The HTTP answers of the endpoints: a status code and a JSON body. Headers
 * (the login cookies among them) are not part of the model.
 */
module Http {
  import opened Errors
  import opened Dto

  /** The bodies the modelled endpoints write. */
  datatype Body =
    | ErrorBody(error: ErrorMessage)
    | TaskBody(task: TaskDto)
    | CommentsBody(comments: TaskCommentsDto)
    | UserBody(user: UserDto)
    | JwtBody(tokens: JwtResponse)

  datatype Response = Response(status: int, body: Body)

  /** The answer of the task endpoints to a caller without the needed role or authorship. */
  const Forbidden: Response :=
    Response(403, ErrorBody(ErrorMessage(403, "You do not have permission to access this resource")))
}
