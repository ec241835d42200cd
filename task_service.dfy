/**
 * service.impl.TaskServiceImpl: the task store and its operations, the
 * conversions between Task and TaskDto, and the filtered task lists.
 *
 * The task table is the map `tasks` from id to stored task. A stored task
 * is filed under its own id and always has an author. Every operation runs in
 * one transaction: when it throws, the store is as before.
 */
module TaskServices {
  import opened Errors
  import opened Domain
  import opened Dto
  import opened Authentication
  import opened UserServices
  import opened UserUtil
  import opened TaskRepository

  /** A null comment list becomes the empty element collection of the stored task. */
  function CommentList(comments: Option<seq<string>>): (r: seq<string>)
    ensures comments.Some? ==> r == comments.value
    ensures comments.None? ==> r == []
  {
    if comments.Some? then comments.value else []
  }

  /**
   * taskToTaskDto: every field copied, status and priority by name, author
   * and executor by username. A task without an author makes the Java code
   * throw, so callers pass authored tasks.
   */
  function TaskToTaskDto(t: Task): (d: TaskDto)
    requires t.author.Some?
    ensures d.id == t.id && d.title == t.title && d.description == t.description
    ensures StatusValueOf(d.status) == Ok(t.status) && PriorityValueOf(d.priority) == Ok(t.priority)
    ensures d.comments == Some(t.comments)
    ensures d.author == Some(t.author.value.username) && d.executor == Some(t.executor.username)
  {
    StatusValueOfName(t.status);
    PriorityValueOfName(t.priority);
    TaskDto(t.id, t.title, t.description, Some(t.status.Name()), Some(t.priority.Name()),
      Some(t.comments), Some(t.author.value.username), Some(t.executor.username))
  }

  /**
   * taskDtoToTask: the task the body describes, without an author. The
   * builder converts status, then priority, then looks up the executor; the
   * first of these to fail decides the exception.
   */
  function TaskDtoToTask(users: UserService, dto: TaskDto): (r: Result<Task>)
    reads users
    ensures r.Ok? <==>
      StatusValueOf(dto.status).Ok? && PriorityValueOf(dto.priority).Ok? && users.GetUserByUsername(dto.executor).Ok?
    ensures r.Ok? ==>
      && r.value.id == dto.id && r.value.title == dto.title && r.value.description == dto.description
      && r.value.status.Name() == dto.status.value && r.value.priority.Name() == dto.priority.value
      && r.value.comments == CommentList(dto.comments)
      && r.value.author.None?
      && r.value.executor == users.users[dto.executor.value]
    ensures StatusValueOf(dto.status).Throw? ==> r == Throw(StatusValueOf(dto.status).error)
    ensures StatusValueOf(dto.status).Ok? && PriorityValueOf(dto.priority).Throw? ==>
      r == Throw(PriorityValueOf(dto.priority).error)
  {
    match StatusValueOf(dto.status)
    case Throw(e) => Throw(e)
    case Ok(status) =>
      match PriorityValueOf(dto.priority)
      case Throw(e) => Throw(e)
      case Ok(priority) =>
        match users.GetUserByUsername(dto.executor)
        case Throw(e) => Throw(e)
        case Ok(executor) =>
          Ok(Task(dto.id, dto.title, dto.description, status, priority, CommentList(dto.comments), None, executor))
  }

  /** A body that passed validation converts as long as its executor exists. */
  lemma ValidDtoConverts(users: UserService, dto: TaskDto)
    requires TaskDtoValid(dto)
    ensures TaskDtoToTask(users, dto).Ok? <==> dto.executor.value in users.users
  {
    ValidTaskDtoConverts(dto);
  }

  /**
   * Round trip from the entity: converting a task to its body and back gives
   * the same task without its author, when the executor is the stored user
   * of that name.
   */
  lemma TaskRoundTrip(users: UserService, t: Task)
    requires t.author.Some?
    requires t.executor.username in users.users && users.users[t.executor.username] == t.executor
    ensures TaskDtoToTask(users, TaskToTaskDto(t)) == Ok(t.(author := None))
  {
    StatusValueOfName(t.status);
    PriorityValueOfName(t.priority);
  }

  /**
   * Round trip from the body: a body that converts, given an author, converts
   * back to itself, except that a null comment list comes back empty and the
   * author is the given one.
   */
  lemma DtoRoundTrip(users: UserService, dto: TaskDto, author: User)
    requires users.Valid() && TaskDtoToTask(users, dto).Ok?
    ensures TaskToTaskDto(TaskDtoToTask(users, dto).value.(author := Some(author)))
      == dto.(comments := Some(CommentList(dto.comments)), author := Some(author.username))
  {
    var t := TaskDtoToTask(users, dto).value;
    assert Some(t.status.Name()) == dto.status;
    assert Some(t.priority.Name()) == dto.priority;
  }

  /** The stream map of taskListToDtoList: element by element, in order. */
  function TasksToDtos(ts: seq<Task>): (r: seq<TaskDto>)
    requires forall i :: 0 <= i < |ts| ==> ts[i].author.Some?
    ensures |r| == |ts|
    ensures forall i :: 0 <= i < |ts| ==> r[i] == TaskToTaskDto(ts[i])
  {
    if ts == [] then [] else [TaskToTaskDto(ts[0])] + TasksToDtos(ts[1..])
  }

  /** taskListToDtoList: null or empty gives the empty list, otherwise the converted list. */
  function TaskListToDtoList(taskList: Option<seq<Task>>): (r: seq<TaskDto>)
    requires taskList.Some? ==> forall i :: 0 <= i < |taskList.value| ==> taskList.value[i].author.Some?
    ensures taskList.None? ==> r == []
    ensures taskList.Some? ==> |r| == |taskList.value|
    ensures taskList.Some? ==> forall i :: 0 <= i < |r| ==> r[i] == TaskToTaskDto(taskList.value[i])
  {
    if taskList.None? || taskList.value == [] then [] else TasksToDtos(taskList.value)
  }

  /** Converting a concatenation converts each part. */
  lemma {:induction false} TasksToDtosAppend(a: seq<Task>, b: seq<Task>)
    requires forall i :: 0 <= i < |a| ==> a[i].author.Some?
    requires forall i :: 0 <= i < |b| ==> b[i].author.Some?
    ensures TasksToDtos(a + b) == TasksToDtos(a) + TasksToDtos(b)
  {
    if a == [] {
      assert a + b == b;
    } else {
      assert (a + b)[1..] == a[1..] + b;
      TasksToDtosAppend(a[1..], b);
    }
  }

  /** checkAndGetStatus: null stays null, anything else goes through Status.valueOf. */
  function CheckAndGetStatus(status: Option<string>): (r: Result<Option<Status>>)
    ensures status.None? ==> r == Ok(None)
    ensures status.Some? ==> (r.Ok? <==> status.value in StatusNames)
    ensures status.Some? && r.Ok? ==> r.value.Some? && r.value.value.Name() == status.value
    ensures r.Throw? ==> r.error.IllegalArgument?
  {
    match status
    case None => Ok(None)
    case Some(_) =>
      match StatusValueOf(status)
      case Throw(e) => Throw(e)
      case Ok(s) => Ok(Some(s))
  }

  /** checkAndGetPriority: null stays null, anything else goes through Priority.valueOf. */
  function CheckAndGetPriority(priority: Option<string>): (r: Result<Option<Priority>>)
    ensures priority.None? ==> r == Ok(None)
    ensures priority.Some? ==> (r.Ok? <==> priority.value in PriorityNames)
    ensures priority.Some? && r.Ok? ==> r.value.Some? && r.value.value.Name() == priority.value
    ensures r.Throw? ==> r.error.IllegalArgument?
  {
    match priority
    case None => Ok(None)
    case Some(_) =>
      match PriorityValueOf(priority)
      case Throw(e) => Throw(e)
      case Ok(p) => Ok(Some(p))
  }

  /**
   * checkAndGetAuthor and checkAndGetExecutor, which are the same code: null
   * stays null, a name is looked up with getUserByUsername.
   */
  function CheckAndGetUser(users: UserService, name: Option<string>): (r: Result<Option<User>>)
    reads users
    ensures name.None? ==> r == Ok(None)
    ensures name.Some? ==> (r.Ok? <==> name.value in users.users)
    ensures name.Some? && r.Ok? ==> r.value == Some(users.users[name.value])
    ensures r.Throw? ==> r.error == UsernameNotFound("User with username '" + name.value + "' not found")
  {
    match name
    case None => Ok(None)
    case Some(_) =>
      match users.GetUserByUsername(name)
      case Throw(e) => Throw(e)
      case Ok(u) => Ok(Some(u))
  }

  /**
   * The query parameters from the request parameters, converted in argument
   * order: status, priority, author, executor. The title is passed as is.
   */
  function Filters(users: UserService, title: Option<string>, status: Option<string>, priority: Option<string>,
                   author: Option<string>, executor: Option<string>): (r: Result<TaskFilters>)
    reads users
    ensures r.Ok? <==>
      && CheckAndGetStatus(status).Ok? && CheckAndGetPriority(priority).Ok?
      && CheckAndGetUser(users, author).Ok? && CheckAndGetUser(users, executor).Ok?
    ensures r.Ok? ==> r.value == TaskFilters(title, CheckAndGetStatus(status).value, CheckAndGetPriority(priority).value,
      CheckAndGetUser(users, author).value, CheckAndGetUser(users, executor).value)
    ensures CheckAndGetStatus(status).Throw? ==> r == Throw(CheckAndGetStatus(status).error)
  {
    match CheckAndGetStatus(status)
    case Throw(e) => Throw(e)
    case Ok(s) =>
      match CheckAndGetPriority(priority)
      case Throw(e) => Throw(e)
      case Ok(p) =>
        match CheckAndGetUser(users, author)
        case Throw(e) => Throw(e)
        case Ok(a) =>
          match CheckAndGetUser(users, executor)
          case Throw(e) => Throw(e)
          case Ok(x) => Ok(TaskFilters(title, s, p, a, x))
  }

  /**
   * The field updates of updateTask for a given current user and stored
   * task: an administrator sets status, priority, executor and comments; then
   * the author sets status and comments; anybody else changes nothing.
   */
  function ApplyUpdate(users: UserService, current: User, task: Task, dto: TaskDto): (r: Result<Task>)
    reads users
    requires task.author.Some?
    ensures IsCurrentUserAdmin(current) ==>
      && (r.Ok? <==> StatusValueOf(dto.status).Ok? && PriorityValueOf(dto.priority).Ok? && users.GetUserByUsername(dto.executor).Ok?)
      && (r.Ok? ==> r.value == task.(status := StatusValueOf(dto.status).value, priority := PriorityValueOf(dto.priority).value,
                                     executor := users.users[dto.executor.value], comments := CommentList(dto.comments)))
    ensures !IsCurrentUserAdmin(current) && IsCurrentUserOwner(current, task) ==>
      && (r.Ok? <==> StatusValueOf(dto.status).Ok?)
      && (r.Ok? ==> r.value == task.(status := StatusValueOf(dto.status).value, comments := CommentList(dto.comments)))
    ensures !IsCurrentUserAdmin(current) && !IsCurrentUserOwner(current, task) ==> r == Ok(task)
    ensures r.Ok? ==>
      && r.value.id == task.id && r.value.title == task.title
      && r.value.description == task.description && r.value.author == task.author
    ensures StatusValueOf(dto.status).Throw? && (IsCurrentUserAdmin(current) || IsCurrentUserOwner(current, task)) ==>
      r == Throw(StatusValueOf(dto.status).error)
  {
    var afterAdmin :=
      if IsCurrentUserAdmin(current) then
        match StatusValueOf(dto.status)
        case Throw(e) => Throw(e)
        case Ok(status) =>
          match PriorityValueOf(dto.priority)
          case Throw(e) => Throw(e)
          case Ok(priority) =>
            match users.GetUserByUsername(dto.executor)
            case Throw(e) => Throw(e)
            case Ok(executor) =>
              Ok(task.(status := status, priority := priority, executor := executor, comments := CommentList(dto.comments)))
      else Ok(task);
    match afterAdmin
    case Throw(e) => Throw(e)
    case Ok(t) =>
      if IsCurrentUserOwner(current, t) then
        match StatusValueOf(dto.status)
        case Throw(e) => Throw(e)
        case Ok(status) => Ok(t.(status := status, comments := CommentList(dto.comments)))
      else Ok(t)
  }

  /**
   * An administrator who is also the author ends in the same state as an
   * administrator who is not: the author's step repeats values already set.
   */
  lemma AdminOwnerSameAsAdmin(users: UserService, admin: User, task: Task, other: User, dto: TaskDto)
    requires task.author.Some? && IsCurrentUserAdmin(admin) && IsCurrentUserOwner(admin, task)
    requires other.username != admin.username
    ensures ApplyUpdate(users, admin, task, dto).Throw? ==>
      ApplyUpdate(users, admin, task.(author := Some(other)), dto) == ApplyUpdate(users, admin, task, dto)
    ensures ApplyUpdate(users, admin, task, dto).Ok? ==>
      ApplyUpdate(users, admin, task.(author := Some(other)), dto).Ok?
      && ApplyUpdate(users, admin, task.(author := Some(other)), dto).value
         == ApplyUpdate(users, admin, task, dto).value.(author := Some(other))
  {
  }

  /** An outsider's update succeeds and changes nothing, whatever the body holds. */
  lemma OutsiderUpdateIsNoOp(users: UserService, current: User, task: Task, dto: TaskDto)
    requires task.author.Some? && !IsCurrentUserAdmin(current) && current.username != task.author.value.username
    ensures ApplyUpdate(users, current, task, dto) == Ok(task)
  {
  }

  class TaskService {
    /** The task table, by id. */
    var tasks: map<Uuid, Task>
    /** The user service the current user and executors are resolved with. */
    const userService: UserService

    /** Every stored task is filed under its own id and has an author. */
    predicate Valid()
      reads this
    {
      forall id :: id in tasks ==> tasks[id].id == Some(id) && tasks[id].author.Some?
    }

    /** An empty task table. */
    constructor (userService: UserService)
      ensures tasks == map[] && this.userService == userService
      ensures Valid()
    {
      tasks := map[];
      this.userService := userService;
    }

    /** The stored tasks, as the queries see the table. */
    function Rows(): (r: set<Task>)
      reads this
      ensures forall t :: t in r <==> exists id :: id in tasks && tasks[id] == t
      ensures Valid() ==> forall t :: t in r ==> t.author.Some?
    {
      tasks.Values
    }

    /**
     * createTask: the current user becomes the author, replacing any author
     * the task had, and the task is saved under its own id or, without one,
     * under a newly generated id.
     */
    method CreateTask(task: Task, context: Option<Authentication>, freshId: Uuid) returns (r: Result<Task>)
      requires Valid() && freshId !in tasks
      modifies this
      ensures Valid()
      ensures userService.GetCurrentUser(context).Throw? ==>
        r == Throw(userService.GetCurrentUser(context).error) && tasks == old(tasks)
      ensures userService.GetCurrentUser(context).Ok? ==>
        var key := if task.id.Some? then task.id.value else freshId;
        && r == Ok(task.(id := Some(key), author := Some(userService.GetCurrentUser(context).value)))
        && tasks == old(tasks)[key := r.value]
    {
      var current := userService.GetCurrentUser(context);
      if current.Throw? {
        return Throw(current.error);
      }
      var key := if task.id.Some? then task.id.value else freshId;
      var saved := task.(id := Some(key), author := Some(current.value));
      tasks := tasks[key := saved];
      r := Ok(saved);
    }

    /** getTaskById: the stored task, or TaskNotFoundException naming the id. */
    function GetTaskById(id: Uuid): (r: Result<Task>)
      reads this
      ensures r.Ok? <==> id in tasks
      ensures r.Ok? ==> r.value == tasks[id]
      ensures r.Ok? && Valid() ==> r.value.id == Some(id) && r.value.author.Some?
      ensures r.Throw? ==> r.error == TaskNotFound("Task with id " + id + " not found")
    {
      if id in tasks then Ok(tasks[id]) else Throw(TaskNotFound("Task with id " + id + " not found"))
    }

    /**
     * updateTask: resolve the current user, then the task, then apply the
     * permitted field updates. Any exception rolls the transaction back.
     */
    method UpdateTask(id: Uuid, dto: TaskDto, context: Option<Authentication>) returns (r: Result<()>)
      requires Valid()
      modifies this
      ensures Valid()
      ensures userService.GetCurrentUser(context).Throw? ==>
        r == Throw(userService.GetCurrentUser(context).error) && tasks == old(tasks)
      ensures userService.GetCurrentUser(context).Ok? && id !in old(tasks) ==>
        r == Throw(TaskNotFound("Task with id " + id + " not found")) && tasks == old(tasks)
      ensures userService.GetCurrentUser(context).Ok? && id in old(tasks) ==>
        var u := ApplyUpdate(userService, userService.GetCurrentUser(context).value, old(tasks)[id], dto);
        && (u.Throw? ==> r == Throw(u.error) && tasks == old(tasks))
        && (u.Ok? ==> r == Ok(()) && tasks == old(tasks)[id := u.value])
    {
      var current := userService.GetCurrentUser(context);
      if current.Throw? {
        return Throw(current.error);
      }
      var task := GetTaskById(id);
      if task.Throw? {
        return Throw(task.error);
      }
      var updated := ApplyUpdate(userService, current.value, task.value, dto);
      if updated.Throw? {
        return Throw(updated.error);
      }
      tasks := tasks[id := updated.value];
      r := Ok(());
    }

    /** deleteTask: removes the stored task, or throws TaskNotFoundException. */
    method DeleteTask(id: Uuid) returns (r: Result<()>)
      requires Valid()
      modifies this
      ensures Valid()
      ensures id in old(tasks) ==> r == Ok(()) && tasks == old(tasks) - {id}
      ensures id !in old(tasks) ==> r == Throw(TaskNotFound("Task with id " + id + " not found")) && tasks == old(tasks)
    {
      var task := GetTaskById(id);
      if task.Throw? {
        return Throw(task.error);
      }
      tasks := tasks - {id};
      r := Ok(());
    }

    /**
     * updateTaskComments: saves the task as it is. The controller passes a
     * stored task, so it is saved back under its own id.
     */
    method UpdateTaskComments(task: Task)
      requires Valid() && task.id.Some? && task.author.Some?
      modifies this
      ensures Valid()
      ensures tasks == old(tasks)[task.id.value := task]
    {
      tasks := tasks[task.id.value := task];
    }

    /**
     * getMyTasksWithFilters: the tasks the current user wrote that pass the
     * filters, as bodies; the current user is resolved before the parameters
     * are converted.
     */
    function GetMyTasksWithFilters(context: Option<Authentication>, title: Option<string>, status: Option<string>,
                                   priority: Option<string>, author: Option<string>, executor: Option<string>): (r: Result<set<TaskDto>>)
      reads this, userService, ContextObjects(context)
      ensures GetUsernameOfCurrentUser(context).Throw? ==> r == Throw(GetUsernameOfCurrentUser(context).error)
      ensures r.Ok? <==> GetUsernameOfCurrentUser(context).Ok? && Filters(userService, title, status, priority, author, executor).Ok?
      ensures r.Ok? ==> forall d :: d in r.value ==> d.author == Some(GetUsernameOfCurrentUser(context).value)
      ensures r.Ok? ==> r.value == set t | t in FindTasksOfCurrentUserWithFilters(Rows(), GetUsernameOfCurrentUser(context).value,
        Filters(userService, title, status, priority, author, executor).value) :: TaskToTaskDto(t)
    {
      match GetUsernameOfCurrentUser(context)
      case Throw(e) => Throw(e)
      case Ok(username) =>
        match Filters(userService, title, status, priority, author, executor)
        case Throw(e) => Throw(e)
        case Ok(f) => Ok(set t | t in FindTasksOfCurrentUserWithFilters(Rows(), username, f) :: TaskToTaskDto(t))
    }

    /**
     * getAssignedTasksWithFilters: the tasks assigned to the current user
     * that pass the filters, as bodies. Unlike the author join of
     * getMyTasksWithFilters, the executor join does not imply that a task has
     * an author, which taskToTaskDto reads; `Valid()` supplies it for every
     * stored task.
     */
    function GetAssignedTasksWithFilters(context: Option<Authentication>, title: Option<string>, status: Option<string>,
                                         priority: Option<string>, author: Option<string>, executor: Option<string>): (r: Result<set<TaskDto>>)
      requires Valid()
      reads this, userService, ContextObjects(context)
      ensures GetUsernameOfCurrentUser(context).Throw? ==> r == Throw(GetUsernameOfCurrentUser(context).error)
      ensures r.Ok? <==> GetUsernameOfCurrentUser(context).Ok? && Filters(userService, title, status, priority, author, executor).Ok?
      ensures r.Ok? ==> forall d :: d in r.value ==> d.executor == Some(GetUsernameOfCurrentUser(context).value)
      ensures r.Ok? ==> r.value == set t | t in FindTasksAssignedToCurrentUserWithFilters(Rows(), GetUsernameOfCurrentUser(context).value,
        Filters(userService, title, status, priority, author, executor).value) :: TaskToTaskDto(t)
    {
      match GetUsernameOfCurrentUser(context)
      case Throw(e) => Throw(e)
      case Ok(username) =>
        match Filters(userService, title, status, priority, author, executor)
        case Throw(e) => Throw(e)
        case Ok(f) => Ok(set t | t in FindTasksAssignedToCurrentUserWithFilters(Rows(), username, f) :: TaskToTaskDto(t))
    }
  }
}
