/**
 * The three persisted records. A Java reference field that may be `null` is an `Option`.
 * Identifiers are the database's generated `Long` keys; a `LocalDate` is its day number.
 */
module Entities {
  import opened Wrappers

  type TaskId = int
  type ProjectId = int
  type UserId = int

  /** A `LocalDate`, as the number of days since an epoch; only its order matters here. */
  type Date = int

  /**
   * TaskEntity. `isImportant` and `owner` are the flag and the user reference that the services
   * set and read; `owner` is the id of the referenced user.
   */
  datatype Task = Task(
    id: Option<TaskId>,
    title: string,
    description: string,
    status: string,
    dueDate: Option<Date>,
    priority: Option<int>,
    projectId: Option<ProjectId>,
    position: Option<int>,
    isImportant: Option<bool>,
    owner: Option<UserId>)

  /** A task as `new TaskEntity()` makes it: `priority` starts at 1, everything else is null. */
  function NewTask(title: string, description: string, status: string, dueDate: Option<Date>): (t: Task)
    ensures t.id == None && t.priority == Some(1)
    ensures t.title == title && t.description == description && t.status == status && t.dueDate == dueDate
    ensures t.projectId == None && t.position == None && t.isImportant == None && t.owner == None
  {
    Task(None, title, description, status, dueDate, Some(1), None, None, None, None)
  }

  /** ProjectEntity, with the owning user that the services set and compare. */
  datatype Project = Project(id: Option<ProjectId>, name: string, owner: Option<UserId>)

  /** UserEntity. A `None` password hash marks an account created through Google sign-in. */
  datatype User = User(
    id: Option<UserId>,
    fullName: string,
    email: string,
    passwordHash: Option<string>,
    googleId: Option<string>,
    avatarUrl: Option<string>)

  /** Every stored record carries its own key as its id. */
  ghost predicate TasksKeyed(m: map<TaskId, Task>) {
    forall k :: k in m ==> m[k].id == Some(k)
  }

  ghost predicate ProjectsKeyed(m: map<ProjectId, Project>) {
    forall k :: k in m ==> m[k].id == Some(k)
  }

  ghost predicate UsersKeyed(m: map<UserId, User>) {
    forall k :: k in m ==> m[k].id == Some(k)
  }
}
