/**
 * util.UserUtil: the two access tests the task endpoints are built on.
 * Both are side-effect free, hence functions.
 */
module UserUtil {
  import opened Errors
  import opened Domain
  import opened TaskRepository

  /** isCurrentUserAdmin: the user holds ROLE_ADMIN. */
  predicate IsCurrentUserAdmin(user: User)
    ensures IsCurrentUserAdmin(user) <==> exists role :: role in user.roles && role.Name() == "ROLE_ADMIN"
  {
    RoleAdmin in user.roles
  }

  /**
   * isCurrentUserOwner: the user's name equals the name of the task's author,
   * character for character. A task without an author makes the Java code
   * throw, so callers pass authored tasks.
   */
  predicate IsCurrentUserOwner(user: User, task: Task)
    requires task.author.Some?
    ensures IsCurrentUserOwner(user, task) <==> AuthoredBy(task, user.username)
  {
    user.username == task.author.value.username
  }

  /** A user whose only role is ROLE_USER is not an administrator; adding ROLE_ADMIN makes one. */
  lemma PlainUserIsNotAdmin(user: User)
    requires user.roles == {RoleUser}
    ensures !IsCurrentUserAdmin(user)
    ensures IsCurrentUserAdmin(user.(roles := user.roles + {RoleAdmin}))
  {
  }

  /**
   * Ownership is authorship only: being the executor does not make a user the
   * owner, and names that differ only in letter case are different owners.
   */
  lemma ExecutorIsNotOwner(user: User, task: Task)
    requires task.author.Some? && task.executor == user && task.author.value.username != user.username
    ensures !IsCurrentUserOwner(user, task)
    ensures !IsCurrentUserOwner(user.(username := "Alice"), task.(author := Some(task.author.value.(username := "alice"))))
  {
  }

  /** Ownership depends on the author's name only, not on the author's other fields. */
  lemma OwnerByNameOnly(user: User, task: Task, author: User)
    requires task.author.Some? && author.username == task.author.value.username
    ensures IsCurrentUserOwner(user, task) == IsCurrentUserOwner(user, task.(author := Some(author)))
  {
  }
}
