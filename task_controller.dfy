/**
 * controller.TaskController: the task endpoints and their permission
 * checks. Request bodies have passed bean validation before a handler runs;
 * exceptions leave the handler and are answered by the exception handler.
 */
module TaskControllers {
  import opened Errors
  import opened Domain
  import opened Dto
  import opened Authentication
  import opened UserServices
  import opened UserUtil
  import opened TaskServices
  import opened Http
  import opened TaskRepository

  /** May this user see the task: its author, or an administrator. */
  predicate MaySee(user: User, task: Task)
    requires task.author.Some?
    ensures IsCurrentUserAdmin(user) ==> MaySee(user, task)
    ensures !IsCurrentUserAdmin(user) ==> (MaySee(user, task) <==> AuthoredBy(task, user.username))
  {
    IsCurrentUserOwner(user, task) || IsCurrentUserAdmin(user)
  }

  class TaskController {
    const taskService: TaskService
    const userService: UserService

    /** The controller and the task service resolve users with the same user service. */
    predicate Valid()
      reads taskService
    {
      taskService.Valid() && taskService.userService == userService
    }

    constructor (taskService: TaskService, userService: UserService)
      requires taskService.Valid() && taskService.userService == userService
      ensures this.taskService == taskService && this.userService == userService
      ensures Valid()
    {
      this.taskService := taskService;
      this.userService := userService;
    }

    /**
     * createTask: only an administrator may create. The body is converted,
     * saved with the administrator as author, read back and returned with
     * 201; anyone else gets 403 and nothing is saved.
     */
    method CreateTask(dto: TaskDto, context: Option<Authentication>, freshId: Uuid) returns (r: Result<Response>)
      requires TaskDtoValid(dto) && Valid() && freshId !in taskService.tasks
      modifies taskService
      ensures Valid()
      ensures userService.GetCurrentUser(context).Throw? ==>
        r == Throw(userService.GetCurrentUser(context).error) && taskService.tasks == old(taskService.tasks)
      ensures userService.GetCurrentUser(context).Ok? && !IsCurrentUserAdmin(userService.GetCurrentUser(context).value) ==>
        r == Ok(Forbidden) && taskService.tasks == old(taskService.tasks)
      ensures userService.GetCurrentUser(context).Ok? && IsCurrentUserAdmin(userService.GetCurrentUser(context).value) ==>
        var converted := TaskDtoToTask(userService, dto);
        && (converted.Throw? ==> r == Throw(converted.error) && taskService.tasks == old(taskService.tasks))
        && (converted.Ok? ==>
              var key := if dto.id.Some? then dto.id.value else freshId;
              var saved := converted.value.(id := Some(key), author := Some(userService.GetCurrentUser(context).value));
              && taskService.tasks == old(taskService.tasks)[key := saved]
              && r == Ok(Response(201, TaskBody(TaskToTaskDto(saved)))))
    {
      var current := userService.GetCurrentUser(context);
      if current.Throw? {
        return Throw(current.error);
      }
      if !IsCurrentUserAdmin(current.value) {
        return Ok(Forbidden);
      }
      var task := TaskDtoToTask(userService, dto);
      if task.Throw? {
        return Throw(task.error);
      }
      var created := taskService.CreateTask(task.value, context, freshId);
      var stored := taskService.GetTaskById(created.value.id.value);
      r := Ok(Response(201, TaskBody(TaskToTaskDto(stored.value))));
    }

    /**
     * getTask: the task as a body for its author or an administrator, 403 for
     * anyone else; an unknown id throws before permission is considered.
     */
    function GetTask(id: Uuid, context: Option<Authentication>): (r: Result<Response>)
      requires Valid()
      reads this, taskService, userService, ContextObjects(context)
      ensures userService.GetCurrentUser(context).Throw? ==> r == Throw(userService.GetCurrentUser(context).error)
      ensures userService.GetCurrentUser(context).Ok? && id !in taskService.tasks ==>
        r == Throw(TaskNotFound("Task with id " + id + " not found"))
      ensures r.Ok? <==> userService.GetCurrentUser(context).Ok? && id in taskService.tasks
      ensures r.Ok? ==>
        && (MaySee(userService.GetCurrentUser(context).value, taskService.tasks[id]) ==>
              r.value == Response(200, TaskBody(TaskToTaskDto(taskService.tasks[id]))))
        && (!MaySee(userService.GetCurrentUser(context).value, taskService.tasks[id]) ==> r.value == Forbidden)
    {
      match userService.GetCurrentUser(context)
      case Throw(e) => Throw(e)
      case Ok(current) =>
        match taskService.GetTaskById(id)
        case Throw(e) => Throw(e)
        case Ok(task) =>
          if MaySee(current, task) then Ok(Response(200, TaskBody(TaskToTaskDto(task)))) else Ok(Forbidden)
    }

    /**
     * updateTask: no permission check of its own. Whatever the service did,
     * including nothing for an outsider, the answer is 201 with the task as
     * it is now stored.
     */
    method UpdateTask(id: Uuid, dto: TaskDto, context: Option<Authentication>) returns (r: Result<Response>)
      requires TaskDtoValid(dto) && Valid()
      modifies taskService
      ensures Valid()
      ensures r.Throw? ==> taskService.tasks == old(taskService.tasks)
      ensures r.Ok? ==> id in taskService.tasks && r.value == Response(201, TaskBody(TaskToTaskDto(taskService.tasks[id])))
      ensures userService.GetCurrentUser(context).Throw? ==> r == Throw(userService.GetCurrentUser(context).error)
      ensures userService.GetCurrentUser(context).Ok? && id !in old(taskService.tasks) ==>
        r == Throw(TaskNotFound("Task with id " + id + " not found"))
      ensures userService.GetCurrentUser(context).Ok? && id in old(taskService.tasks) ==>
        var u := ApplyUpdate(userService, userService.GetCurrentUser(context).value, old(taskService.tasks)[id], dto);
        && (u.Throw? ==> r == Throw(u.error))
        && (u.Ok? ==> r.Ok? && taskService.tasks == old(taskService.tasks)[id := u.value])
    {
      var updated := taskService.UpdateTask(id, dto, context);
      if updated.Throw? {
        return Throw(updated.error);
      }
      var stored := taskService.GetTaskById(id);
      r := Ok(Response(201, TaskBody(TaskToTaskDto(stored.value))));
    }

    /**
     * deleteTask: only an administrator may delete; the answer is 200 with
     * an error body whose code is 204. For anyone else it is 403 and the task
     * stays, whether or not the id exists.
     */
    method DeleteTask(id: Uuid, context: Option<Authentication>) returns (r: Result<Response>)
      requires Valid()
      modifies taskService
      ensures Valid()
      ensures userService.GetCurrentUser(context).Throw? ==>
        r == Throw(userService.GetCurrentUser(context).error) && taskService.tasks == old(taskService.tasks)
      ensures userService.GetCurrentUser(context).Ok? && !IsCurrentUserAdmin(userService.GetCurrentUser(context).value) ==>
        r == Ok(Forbidden) && taskService.tasks == old(taskService.tasks)
      ensures userService.GetCurrentUser(context).Ok? && IsCurrentUserAdmin(userService.GetCurrentUser(context).value) ==>
        && (id in old(taskService.tasks) ==>
              && r == Ok(Response(200, ErrorBody(ErrorMessage(204, "Task successfully deleted"))))
              && taskService.tasks == old(taskService.tasks) - {id})
        && (id !in old(taskService.tasks) ==>
              r == Throw(TaskNotFound("Task with id " + id + " not found")) && taskService.tasks == old(taskService.tasks))
    {
      var current := userService.GetCurrentUser(context);
      if current.Throw? {
        return Throw(current.error);
      }
      if !IsCurrentUserAdmin(current.value) {
        return Ok(Forbidden);
      }
      var deleted := taskService.DeleteTask(id);
      if deleted.Throw? {
        return Throw(deleted.error);
      }
      r := Ok(Response(200, ErrorBody(ErrorMessage(204, "Task successfully deleted"))));
    }

    /**
     * getTaskComments: the task's id and comments for its author or an
     * administrator, 403 for anyone else; an unknown id throws first.
     */
    function GetTaskComments(id: Uuid, context: Option<Authentication>): (r: Result<Response>)
      requires Valid()
      reads this, taskService, userService, ContextObjects(context)
      ensures userService.GetCurrentUser(context).Throw? ==> r == Throw(userService.GetCurrentUser(context).error)
      ensures userService.GetCurrentUser(context).Ok? && id !in taskService.tasks ==>
        r == Throw(TaskNotFound("Task with id " + id + " not found"))
      ensures r.Ok? <==> userService.GetCurrentUser(context).Ok? && id in taskService.tasks
      ensures r.Ok? ==>
        && (MaySee(userService.GetCurrentUser(context).value, taskService.tasks[id]) ==>
              r.value == Response(200, CommentsBody(TaskCommentsDto(Some(id), taskService.tasks[id].comments))))
        && (!MaySee(userService.GetCurrentUser(context).value, taskService.tasks[id]) ==> r.value == Forbidden)
    {
      match userService.GetCurrentUser(context)
      case Throw(e) => Throw(e)
      case Ok(current) =>
        match taskService.GetTaskById(id)
        case Throw(e) => Throw(e)
        case Ok(task) =>
          if MaySee(current, task) then Ok(Response(200, CommentsBody(TaskCommentsDto(task.id, task.comments))))
          else Ok(Forbidden)
    }

    /**
     * addCommentToTask: the comment is appended and the task saved before
     * permission is checked, so a caller who gets 403 has still added the
     * comment. The allowed caller gets the id and the whole updated list.
     */
    method AddCommentToTask(id: Uuid, comment: CommentDto, context: Option<Authentication>) returns (r: Result<Response>)
      requires CommentValid(comment) && Valid()
      modifies taskService
      ensures Valid()
      ensures userService.GetCurrentUser(context).Throw? ==>
        r == Throw(userService.GetCurrentUser(context).error) && taskService.tasks == old(taskService.tasks)
      ensures userService.GetCurrentUser(context).Ok? && id !in old(taskService.tasks) ==>
        r == Throw(TaskNotFound("Task with id " + id + " not found")) && taskService.tasks == old(taskService.tasks)
      ensures userService.GetCurrentUser(context).Ok? && id in old(taskService.tasks) ==>
        var task := old(taskService.tasks)[id];
        var commented := task.(comments := task.comments + [comment.comment.value]);
        && taskService.tasks == old(taskService.tasks)[id := commented]
        && (MaySee(userService.GetCurrentUser(context).value, task) ==>
              r == Ok(Response(200, CommentsBody(TaskCommentsDto(Some(id), commented.comments)))))
        && (!MaySee(userService.GetCurrentUser(context).value, task) ==> r == Ok(Forbidden))
    {
      var current := userService.GetCurrentUser(context);
      if current.Throw? {
        return Throw(current.error);
      }
      var task := taskService.GetTaskById(id);
      if task.Throw? {
        return Throw(task.error);
      }
      var commented := task.value.(comments := task.value.comments + [comment.comment.value]);
      taskService.UpdateTaskComments(commented);
      if MaySee(current.value, commented) {
        r := Ok(Response(200, CommentsBody(TaskCommentsDto(commented.id, commented.comments))));
      } else {
        r := Ok(Forbidden);
      }
    }
  }
}
