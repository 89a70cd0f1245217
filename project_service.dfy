/**
 * ProjectService: per-user project CRUD and the tasks inside a project. A caller is the
 * authenticated user, of whom the service reads only the id (`uid`).
 */
module ProjectService {
  import opened Wrappers
  import opened Entities
  import opened Errors
  import opened Tables
  import opened TaskRepository
  import opened ProjectRepository

  /**
   * `createProject`: a name the user already uses is refused and nothing is saved; otherwise the
   * project is saved with the user as its owner.
   */
  method CreateProject(store: ProjectStore, project: Project, uid: UserId) returns (r: Result<Project, Error>)
    requires store.Valid()
    modifies store
    ensures store.Valid()
    ensures var found := FindByNameAndUserId(old(store.projects), project.name, uid);
      match found
      case Err(e) => r == Err(e)
      case Ok(Some(_)) => r == Err(ProjectNotFound(AlreadyExists(project.name)))
      case Ok(None) =>
        r == Ok(project.(owner := Some(uid), id := Some(SaveKey(old(store.projects), project.id, old(store.nextId)))))
    ensures r.Err? ==> store.projects == old(store.projects) && store.nextId == old(store.nextId)
    ensures r.Ok? ==> store.projects == old(store.projects)[r.value.id.value := r.value]
    ensures NamesUniquePerOwner(old(store.projects)) ==> NamesUniquePerOwner(store.projects)
  {
    var found := FindByNameAndUserId(store.projects, project.name, uid);
    if found.Err? {
      return Err(found.error);
    }
    if found.value.Some? {
      return Err(ProjectNotFound(AlreadyExists(project.name)));
    }
    ghost var before := store.projects;
    var saved := store.Save(project.(owner := Some(uid)));
    if NamesUniquePerOwner(before) {
      CreateKeepsNamesUnique(before, saved.id.value, project, uid);
    }
    return Ok(saved);
  }

  /** Writing a project under a name its new owner does not use keeps names unique per owner. */
  lemma CreateKeepsNamesUnique(projects: map<ProjectId, Project>, k: ProjectId, project: Project, uid: UserId)
    requires NamesUniquePerOwner(projects) && Matching(projects, project.name, uid) == {}
    ensures NamesUniquePerOwner(projects[k := project.(owner := Some(uid), id := Some(k))])
  {
    var after := projects[k := project.(owner := Some(uid), id := Some(k))];
    forall a, b | a in after && b in after && after[a].owner.Some?
                  && after[a].owner == after[b].owner && after[a].name == after[b].name
      ensures a == b
    {
    }
  }

  /** `getAllProjectsForUser`: the user's projects, each once. */
  function GetAllProjectsForUser(projects: map<ProjectId, Project>, uid: UserId): (r: seq<Project>)
    requires ProjectsKeyed(projects)
    ensures forall p :: p in r <==> p in projects.Values && p.owner == Some(uid)
    ensures forall i, j :: 0 <= i < j < |r| ==> r[i] != r[j]
  {
    FindAllByUserId(projects, uid)
  }

  /**
   * `getProjectByIdForUser`: a missing project and another owner's project fail alike. A
   * project without an owner would throw on `getUser().getId()`; it is taken as another owner's.
   */
  function GetProjectByIdForUser(projects: map<ProjectId, Project>, id: ProjectId, uid: UserId)
    : (r: Result<Project, Error>)
    ensures r.Ok? <==> id in projects && projects[id].owner == Some(uid)
    ensures r.Ok? ==> r.value == projects[id]
    ensures r.Err? ==> r.error == ProjectNotFound(NoProjectWithId(id))
  {
    if id in projects && projects[id].owner == Some(uid) then Ok(projects[id])
    else Err(ProjectNotFound(NoProjectWithId(id)))
  }

  /** `getProjectByNameForUser`: the user's one project of that name. */
  function GetProjectByNameForUser(projects: map<ProjectId, Project>, name: string, uid: UserId)
    : (r: Result<Project, Error>)
    ensures r.Ok? <==> |Matching(projects, name, uid)| == 1
    ensures r.Ok? ==> r.value.name == name && r.value.owner == Some(uid) && r.value in projects.Values
    ensures r.Ok? && ProjectsKeyed(projects) ==> r.value.id.Some? && Matching(projects, name, uid) == {r.value.id.value}
    ensures Matching(projects, name, uid) == {} ==> r == Err(ProjectNotFound(NoProjectNamed(name)))
    ensures |Matching(projects, name, uid)| >= 2 ==> r == Err(NonUniqueResult)
  {
    match FindByNameAndUserId(projects, name, uid)
    case Err(e) => Err(e)
    case Ok(None) => Err(ProjectNotFound(NoProjectNamed(name)))
    case Ok(Some(p)) => Ok(p)
  }

  /**
   * `updateProjectForUser`: after the ownership check only the name is replaced. There is no
   * check that the new name is free (see `RenameCanDuplicateName`).
   */
  method UpdateProjectForUser(store: ProjectStore, id: ProjectId, project: Project, uid: UserId)
    returns (r: Outcome<Error>)
    requires store.Valid()
    modifies store
    ensures store.Valid()
    ensures var existing := GetProjectByIdForUser(old(store.projects), id, uid);
      if existing.Err? then r == Fail(existing.error) && store.projects == old(store.projects)
      else r == Pass && store.projects == old(store.projects)[id := existing.value.(name := project.name)]
    ensures store.nextId == old(store.nextId)
  {
    var existing := GetProjectByIdForUser(store.projects, id, uid);
    if existing.Err? {
      return Fail(existing.error);
    }
    var _ := store.Save(existing.value.(name := project.name));
    return Pass;
  }

  /**
   * Renaming can give one owner two projects of the same name, after which looking that name
   * up throws.
   */
  lemma RenameCanDuplicateName()
    ensures var before := map[1 := Project(Some(1), "Home", Some(7)), 2 := Project(Some(2), "Work", Some(7))];
      var after := before[2 := before[2].(name := "Home")];
      && NamesUniquePerOwner(before) && GetProjectByIdForUser(before, 2, 7).Ok?
      && !NamesUniquePerOwner(after)
      && GetProjectByNameForUser(after, "Home", 7) == Err(NonUniqueResult)
  {
    var before := map[1 := Project(Some(1), "Home", Some(7)), 2 := Project(Some(2), "Work", Some(7))];
    var after := before[2 := before[2].(name := "Home")];
    assert Matching(after, "Home", 7) == {1, 2};
    assert |{1, 2}| == 2;
    assert 1 in after && 2 in after && after[1].name == after[2].name;
  }

  /** `deleteProjectForUser`: after the ownership check, the project's tasks go, then the project. */
  method DeleteProjectForUser(projects: ProjectStore, tasks: TaskStore, id: ProjectId, uid: UserId)
    returns (r: Outcome<Error>)
    requires projects.Valid() && tasks.Valid()
    modifies projects, tasks
    ensures projects.Valid() && tasks.Valid()
    ensures var existing := GetProjectByIdForUser(old(projects.projects), id, uid);
      if existing.Err? then
        r == Fail(existing.error) && projects.projects == old(projects.projects) && tasks.tasks == old(tasks.tasks)
      else
        r == Pass && projects.projects == old(projects.projects) - {id}
        && tasks.tasks == WithoutProject(old(tasks.tasks), id)
    ensures projects.nextId == old(projects.nextId) && tasks.nextId == old(tasks.nextId)
  {
    var existing := GetProjectByIdForUser(projects.projects, id, uid);
    if existing.Err? {
      return Fail(existing.error);
    }
    tasks.DeleteByProjectId(existing.value.id.value);
    projects.DeleteById(existing.value.id.value);
    return Pass;
  }

  /** `createTaskForProjectForUser`: the task joins the named project, owned by the user, unflagged. */
  method CreateTaskForProjectForUser(projects: ProjectStore, tasks: TaskStore, projectName: string, task: Task, uid: UserId)
    returns (r: Result<Task, Error>)
    requires projects.Valid() && tasks.Valid()
    modifies tasks
    ensures tasks.Valid()
    ensures var project := GetProjectByNameForUser(projects.projects, projectName, uid);
      if project.Err? then
        r == Err(project.error) && tasks.tasks == old(tasks.tasks) && tasks.nextId == old(tasks.nextId)
      else
        && r == Ok(task.(projectId := project.value.id, owner := Some(uid), isImportant := Some(false),
                         id := Some(SaveKey(old(tasks.tasks), task.id, old(tasks.nextId)))))
        && tasks.tasks == old(tasks.tasks)[r.value.id.value := r.value]
        && tasks.nextId == if r.value.id.value in old(tasks.tasks) then old(tasks.nextId) else old(tasks.nextId) + 1
  {
    var project := GetProjectByNameForUser(projects.projects, projectName, uid);
    if project.Err? {
      return Err(project.error);
    }
    var saved := tasks.Save(task.(projectId := project.value.id, owner := Some(uid), isImportant := Some(false)));
    return Ok(saved);
  }

  /** `getTasksForProjectForUser`: the named project's tasks in listing order. */
  function GetTasksForProjectForUser(projects: map<ProjectId, Project>, tasks: map<TaskId, Task>, projectName: string, uid: UserId)
    : (r: Result<seq<Task>, Error>)
    requires ProjectsKeyed(projects) && TasksKeyed(tasks)
    ensures var project := GetProjectByNameForUser(projects, projectName, uid);
      && (project.Err? ==> r == Err(project.error))
      && (project.Ok? ==> r.Ok? && forall t :: t in r.value <==> t in tasks.Values && t.projectId == project.value.id)
    ensures r.Ok? ==> NaturallyOrdered(r.value) && forall i, j :: 0 <= i < j < |r.value| ==> r.value[i] != r.value[j]
  {
    var project :- GetProjectByNameForUser(projects, projectName, uid);
    Ok(FindAllByProject(tasks, project.id.value))
  }

  /**
   * `getTaskInProjectForUser`: the task must exist, belong to the named project and to the
   * user. A task without a project or an owner would throw on `equals`; it is taken as outside.
   */
  function GetTaskInProjectForUser(projects: map<ProjectId, Project>, tasks: map<TaskId, Task>, projectName: string, taskId: TaskId, uid: UserId)
    : (r: Result<Task, Error>)
    ensures var project := GetProjectByNameForUser(projects, projectName, uid);
      && (project.Err? ==> r == Err(project.error))
      && (project.Ok? && taskId !in tasks ==> r == Err(TaskNotFound(NoTask(taskId))))
      && (project.Ok? && taskId in tasks ==>
            (r.Ok? <==> (tasks[taskId].projectId.Some? && tasks[taskId].projectId == project.value.id
                         && tasks[taskId].owner == Some(uid))))
      && (project.Ok? && taskId in tasks && r.Err? ==> r.error == TaskNotFound(NotInProject(taskId, projectName)))
    ensures r.Ok? ==> taskId in tasks && r.value == tasks[taskId]
  {
    var project :- GetProjectByNameForUser(projects, projectName, uid);
    if taskId !in tasks then Err(TaskNotFound(NoTask(taskId)))
    else
      var task := tasks[taskId];
      if task.projectId.None? || task.projectId != project.id || task.owner != Some(uid) then
        Err(TaskNotFound(NotInProject(taskId, projectName)))
      else Ok(task)
  }

  /**
   * `deleteTaskInProjectForUser`: validation first; on success only that task is removed, and
   * the ids of the project's remaining tasks, in listing order, are the reorder request's
   * `orderedIds` (the request is not dispatched).
   */
  method DeleteTaskInProjectForUser(projects: ProjectStore, tasks: TaskStore, projectName: string, taskId: TaskId, uid: UserId)
    returns (r: Result<seq<Option<TaskId>>, Error>)
    requires projects.Valid() && tasks.Valid()
    modifies tasks
    ensures tasks.Valid() && tasks.nextId == old(tasks.nextId)
    ensures var found := GetTaskInProjectForUser(projects.projects, old(tasks.tasks), projectName, taskId, uid);
      if found.Err? then r == Err(found.error) && tasks.tasks == old(tasks.tasks)
      else
        && tasks.tasks == old(tasks.tasks) - {taskId}
        && r == Ok(Ids(FindAllByProject(tasks.tasks, found.value.projectId.value)))
  {
    var found := GetTaskInProjectForUser(projects.projects, tasks.tasks, projectName, taskId, uid);
    if found.Err? {
      return Err(found.error);
    }
    tasks.DeleteById(found.value.id.value);
    var projectId := found.value.projectId.value;
    var remaining := FindAllByProject(tasks.tasks, projectId);
    return Ok(Ids(remaining));
  }

  /** The `orderedIds` after deleting `taskId` from project `p`: the project's other tasks, once each. */
  lemma DeleteProjectTaskRelist(tasks: map<TaskId, Task>, taskId: TaskId, p: ProjectId)
    requires TasksKeyed(tasks)
    ensures var ids := Ids(FindAllByProject(tasks - {taskId}, p));
      && Some(taskId) !in ids && None !in ids
      && (forall k :: Some(k) in ids <==> k in tasks && k != taskId && tasks[k].projectId == Some(p))
      && forall i, j :: 0 <= i < j < |ids| ==> ids[i] != ids[j]
  {
    ListingIds(tasks - {taskId}, Some(p));
  }
}
