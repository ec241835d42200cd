/**
 * repository.TaskRepository: the two JPQL queries behind the task lists. Each
 * selects the tasks joined to the user with the given username (as author or
 * as executor) and keeps those that pass every non-null filter.
 *
 * The task table is a set of stored tasks; ordering and pagination are not
 * part of the model.
 */
module TaskRepository {
  import opened Errors
  import opened Domain

  /** The optional query parameters; null (None) means no constraint. */
  datatype TaskFilters = TaskFilters(
    title: Option<string>,
    status: Option<Status>,
    priority: Option<Priority>,
    author: Option<User>,
    executor: Option<User>)

  /** The filters with every parameter null. */
  const NoFilters: TaskFilters := TaskFilters(None, None, None, None, None)

  /**
   * The five `(:p IS NULL OR t.f = :p)` conditions, joined with AND. A title
   * comparison with a null title is not true in SQL, so it fails; entities
   * compare by their primary key.
   */
  predicate PassesFilters(t: Task, f: TaskFilters)
    ensures f == NoFilters ==> PassesFilters(t, f)
    ensures PassesFilters(t, f) && f.title.Some? ==> t.title.Some?
    ensures PassesFilters(t, f) && f.author.Some? ==> t.author.Some?
  {
    && (f.title.None? || t.title == f.title)
    && (f.status.None? || t.status == f.status.value)
    && (f.priority.None? || t.priority == f.priority.value)
    && (f.author.None? || (t.author.Some? && t.author.value.id == f.author.value.id))
    && (f.executor.None? || t.executor.id == f.executor.value.id)
  }

  /** The inner join `JOIN User u ON t.author = u WHERE u.username = :username`. */
  predicate AuthoredBy(t: Task, username: string) {
    t.author.Some? && t.author.value.username == username
  }

  /** The inner join `JOIN User u ON t.executor = u WHERE u.username = :username`. */
  predicate AssignedTo(t: Task, username: string) {
    t.executor.username == username
  }

  /** findTasksOfCurrentUserWithFilters */
  function FindTasksOfCurrentUserWithFilters(tasks: set<Task>, username: string, f: TaskFilters): (r: set<Task>)
    ensures r <= tasks
    ensures forall t :: t in r ==> AuthoredBy(t, username) && PassesFilters(t, f)
    ensures forall t :: t in tasks && AuthoredBy(t, username) && PassesFilters(t, f) ==> t in r
  {
    set t | t in tasks && AuthoredBy(t, username) && PassesFilters(t, f)
  }

  /** findTasksAssignedToCurrentUserWithFilters */
  function FindTasksAssignedToCurrentUserWithFilters(tasks: set<Task>, username: string, f: TaskFilters): (r: set<Task>)
    ensures r <= tasks
    ensures forall t :: t in r ==> AssignedTo(t, username) && PassesFilters(t, f)
    ensures forall t :: t in tasks && AssignedTo(t, username) && PassesFilters(t, f) ==> t in r
  {
    set t | t in tasks && AssignedTo(t, username) && PassesFilters(t, f)
  }

  /** Each filter on its own, the others null. */
  function OnlyTitle(f: TaskFilters): TaskFilters { NoFilters.(title := f.title) }
  function OnlyStatus(f: TaskFilters): TaskFilters { NoFilters.(status := f.status) }
  function OnlyPriority(f: TaskFilters): TaskFilters { NoFilters.(priority := f.priority) }
  function OnlyAuthor(f: TaskFilters): TaskFilters { NoFilters.(author := f.author) }
  function OnlyExecutor(f: TaskFilters): TaskFilters { NoFilters.(executor := f.executor) }

  /** With every filter null the queries return exactly the authored, or the assigned, tasks. */
  lemma NoFiltersSelectAll(tasks: set<Task>, username: string)
    ensures FindTasksOfCurrentUserWithFilters(tasks, username, NoFilters) == set t | t in tasks && AuthoredBy(t, username)
    ensures FindTasksAssignedToCurrentUserWithFilters(tasks, username, NoFilters) == set t | t in tasks && AssignedTo(t, username)
  {
  }

  /** The filters combine with AND: the result is the intersection of the one-filter results. */
  lemma FiltersConjoin(tasks: set<Task>, username: string, f: TaskFilters)
    ensures FindTasksOfCurrentUserWithFilters(tasks, username, f)
      == FindTasksOfCurrentUserWithFilters(tasks, username, OnlyTitle(f))
       * FindTasksOfCurrentUserWithFilters(tasks, username, OnlyStatus(f))
       * FindTasksOfCurrentUserWithFilters(tasks, username, OnlyPriority(f))
       * FindTasksOfCurrentUserWithFilters(tasks, username, OnlyAuthor(f))
       * FindTasksOfCurrentUserWithFilters(tasks, username, OnlyExecutor(f))
    ensures FindTasksAssignedToCurrentUserWithFilters(tasks, username, f)
      == FindTasksAssignedToCurrentUserWithFilters(tasks, username, OnlyTitle(f))
       * FindTasksAssignedToCurrentUserWithFilters(tasks, username, OnlyStatus(f))
       * FindTasksAssignedToCurrentUserWithFilters(tasks, username, OnlyPriority(f))
       * FindTasksAssignedToCurrentUserWithFilters(tasks, username, OnlyAuthor(f))
       * FindTasksAssignedToCurrentUserWithFilters(tasks, username, OnlyExecutor(f))
  {
  }

  /**
   * A null parameter imposes nothing: nulling the status filter never removes
   * a task, and a non-null one keeps exactly the tasks with that status.
   */
  lemma NullStatusIsNoConstraint(tasks: set<Task>, username: string, f: TaskFilters, s: Status)
    ensures FindTasksOfCurrentUserWithFilters(tasks, username, f)
      <= FindTasksOfCurrentUserWithFilters(tasks, username, f.(status := None))
    ensures FindTasksOfCurrentUserWithFilters(tasks, username, f.(status := Some(s)))
      == set t | t in FindTasksOfCurrentUserWithFilters(tasks, username, f.(status := None)) && t.status == s
  {
  }
}
