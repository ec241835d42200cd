/**
 * The entities of the task tracker: roles, task status and priority (Java
 * enums, with their `name()` and `valueOf`), users and tasks.
 */
module Domain {
  import opened Errors

  /** Entity ids are UUIDs, handled here by their text form. */
  type Uuid = string

  /** security.Role; `getAuthority()` returns `name()`. */
  datatype Role = RoleAdmin | RoleUser {
    function Name(): string {
      match this
      case RoleAdmin => "ROLE_ADMIN"
      case RoleUser => "ROLE_USER"
    }
  }

  /** entity.Status in declaration order. */
  datatype Status = Done | InProgress | Pending {
    function Name(): string {
      match this
      case Done => "DONE"
      case InProgress => "IN_PROGRESS"
      case Pending => "PENDING"
    }
  }

  /** entity.Priority in declaration order. */
  datatype Priority = Low | Normal | High {
    function Name(): string {
      match this
      case Low => "LOW"
      case Normal => "NORMAL"
      case High => "HIGH"
    }
  }

  /** `values()` of each enum, mapped to `name()`. */
  const RoleNames: seq<string> := ["ROLE_ADMIN", "ROLE_USER"]
  const StatusNames: seq<string> := ["DONE", "IN_PROGRESS", "PENDING"]
  const PriorityNames: seq<string> := ["LOW", "NORMAL", "HIGH"]

  /** The message of the IllegalArgumentException that `Enum.valueOf` throws. */
  function NoEnumConstant(enumClass: string, name: string): string {
    "No enum constant " + enumClass + "." + name
  }

  /** Role.valueOf: the constant with exactly this name, or IllegalArgumentException. */
  function RoleValueOf(name: string): (r: Result<Role>)
    ensures r.Ok? <==> name in RoleNames
    ensures r.Ok? ==> r.value.Name() == name
    ensures r.Throw? ==> r.error == IllegalArgument(NoEnumConstant("ru.effectivemobile.taskmanagementsystem.security.Role", name))
  {
    if name == "ROLE_ADMIN" then Ok(RoleAdmin)
    else if name == "ROLE_USER" then Ok(RoleUser)
    else Throw(IllegalArgument(NoEnumConstant("ru.effectivemobile.taskmanagementsystem.security.Role", name)))
  }

  /** Status.valueOf on a nullable string: null gives NullPointerException. */
  function StatusValueOf(name: Option<string>): (r: Result<Status>)
    ensures r.Ok? <==> name.Some? && name.value in StatusNames
    ensures r.Ok? ==> r.value.Name() == name.value
    ensures name.None? ==> r == Throw(NullPointer)
  {
    match name
    case None => Throw(NullPointer)
    case Some(n) =>
      if n == "DONE" then Ok(Done)
      else if n == "IN_PROGRESS" then Ok(InProgress)
      else if n == "PENDING" then Ok(Pending)
      else Throw(IllegalArgument(NoEnumConstant("ru.effectivemobile.taskmanagementsystem.domain.entity.Status", n)))
  }

  /** Priority.valueOf on a nullable string: null gives NullPointerException. */
  function PriorityValueOf(name: Option<string>): (r: Result<Priority>)
    ensures r.Ok? <==> name.Some? && name.value in PriorityNames
    ensures r.Ok? ==> r.value.Name() == name.value
    ensures name.None? ==> r == Throw(NullPointer)
  {
    match name
    case None => Throw(NullPointer)
    case Some(n) =>
      if n == "LOW" then Ok(Low)
      else if n == "NORMAL" then Ok(Normal)
      else if n == "HIGH" then Ok(High)
      else Throw(IllegalArgument(NoEnumConstant("ru.effectivemobile.taskmanagementsystem.domain.entity.Priority", n)))
  }

  /** Role.valueOf(r.name()) is r. */
  lemma RoleValueOfName(r: Role)
    ensures RoleValueOf(r.Name()) == Ok(r)
  {
  }

  /** Status.valueOf(s.name()) is s. */
  lemma StatusValueOfName(s: Status)
    ensures StatusValueOf(Some(s.Name())) == Ok(s)
  {
  }

  /** Priority.valueOf(p.name()) is p. */
  lemma PriorityValueOfName(p: Priority)
    ensures PriorityValueOf(Some(p.Name())) == Ok(p)
  {
  }

  /** entity.User; the lazily loaded task lists are not modelled. */
  datatype User = User(id: Uuid, username: string, password: string, roles: set<Role>)

  /**
   * entity.Task. The author is null between the conversion of a request body
   * and `createTask`; every stored task has one.
   */
  datatype Task = Task(
    id: Option<Uuid>,
    title: Option<string>,
    description: Option<string>,
    status: Status,
    priority: Priority,
    comments: seq<string>,
    author: Option<User>,
    executor: User)
}
