# Task manager core, modelled in Dafny

This project models the core of a Spring Boot task manager:

- the task table and its two natural-order listings (`TaskRepository`);
- task CRUD and the importance filter with its due-date sort (`TaskService`);
- per-user projects and the tasks inside them (`ProjectService`);
- profile updates of the signed-in user (`UserService`);
- email sign-up and sign-in (`EmailAuthService`).

Each database table is a class holding a `map` from generated key to record, plus a `nextId`
counter standing for the identity column. `save`, `deleteById` and `deleteByProjectId` are
methods with `modifies` clauses. Read-only queries and service reads are functions of a
snapshot of the map. Service writes are methods whose postconditions give the whole new state
and tie each result to those functions. A Java `null` is `None`. Thrown exceptions are `Err` /
`Fail` values, one constructor per message (`Errors`). The password encoder (`encode`,
`matches`) and the token generator are function-typed parameters.

Modules, one per file:

| module | models |
|---|---|
| `Wrappers` | `Option`, `Result`, `Outcome` |
| `Entities` | `TaskEntity`, `ProjectEntity`, `UserEntity` |
| `Errors` | the exceptions of the services and their messages |
| `Tables` | key choice of `save`; the rows of a table as a list |
| `TaskOrder` | the two comparators and a stable insertion sort by each |
| `TaskRepository` | the task table and its JPQL listings |
| `TaskService`, `ProjectRepository`, `ProjectService`, `UserRepository`, `UserService`, `EmailAuthService` | the classes of the same name |

Decisions the model makes where the code leaves a choice:

- **Listing order.** Both JPQL listings order important tasks first, then by ascending due
  date. This includes `findAllByProjectIdOrderByIsImportantDescDueDateDesc`, whatever its name
  says. The model follows the query text.
- **Sorting undated tasks.** `getTasksWithFilters` sorts with
  `Comparator.comparing(TaskEntity::getDueDate)`, which throws on a missing date. A sort of two
  or more tasks compares every one of them, so the call fails (`NullDueDate`) exactly when at
  least two tasks pass the filter and one of them is undated. Zero or one task is returned
  without a comparison.
- **Duplicate project names.** `findByNameAndUserId` returns an `Optional`. If one owner has
  several projects with one name, the query throws (`NonUniqueResult`). `createProject` keeps
  names unique per owner. `updateProjectForUser` does not check the new name, so a rename can
  create duplicates (`ProjectService.RenameCanDuplicateName`).
- **Null references that would throw.** A task or project whose owner or project reference is
  `null` would throw a `NullPointerException` in an ownership comparison. The model treats it
  as "not the user's" / "not in the project", which is the same not-found error.
- **Fields the services use but the entities do not declare.** `TaskEntity.java` declares no
  `isImportant` and no user, and `ProjectEntity.java` declares no user. The services read and
  set all three (`setIsImportant`, `setUser`, `getUser`). The model follows the services: a task
  has `isImportant` and `owner`, and a project has `owner`. The same goes for
  `findByNameAndUserId` and `findAllByUserId`. `ProjectRepository.java` does not declare them,
  so the model gives them the meaning of Spring Data derived queries.
- **Defaults.** `priority = 1` is the no-argument constructor's default, the one request
  deserialisation uses. `Entities.NewTask` is that constructor. Lombok's builder would leave the
  field `null`, but no modelled code builds tasks with it.
- **The signed-in user.** The services receive it as a `UserEntity` and read only its id. That
  id is the parameter `uid`.

## Model

| member | source | states |
|---|---|---|
| Entities.NewTask | src/main/java/com/taskmanager/taskmanager/entity/TaskEntity.java:18-38 | a new task has priority 1 and every other field null except the given ones |
| TaskService.CreateNewTaskDefaults | src/main/java/com/taskmanager/taskmanager/service/TaskService.java:29-31 | a task from the no-argument constructor is inserted by `createTask` under the next key with priority 1, importance false, and no project, position or owner |
| TaskOrder.Sort | src/main/java/com/taskmanager/taskmanager/service/TaskService.java:92-99 | the sort's output is ordered by the comparator and is a permutation of its input |
| TaskOrder.Le | src/main/java/com/taskmanager/taskmanager/service/TaskService.java:92-95 | defines the two comparators: ascending due date, the reversed one for DESC, and the listings' ORDER BY (rank, then due date) |
| TaskOrder.Rank | src/main/java/com/taskmanager/taskmanager/repository/TaskRepository.java:18 | defines the CASE expression: an important task ranks 0, any other task 1, a `null` flag included |
| TaskOrder.LeTotal | src/main/java/com/taskmanager/taskmanager/service/TaskService.java:92-95 | any two tasks are comparable, as a `Comparator` requires |
| TaskOrder.LeTrans | src/main/java/com/taskmanager/taskmanager/service/TaskService.java:92-95 | the comparators are transitive, as a `Comparator` requires |
| TaskOrder.SortStable | src/main/java/com/taskmanager/taskmanager/service/TaskService.java:97-99 | tasks that compare equal keep their input order |
| TaskOrder.SortedStableUnique | src/main/java/com/taskmanager/taskmanager/service/TaskService.java:97-99 | two lists sorted by one comparator that agree on each class of equal tasks are the same list |
| TaskOrder.SortIsTheStableSort | src/main/java/com/taskmanager/taskmanager/service/TaskService.java:97-99 | any sorted, stable permutation of the input equals the model's sort, so the model yields what Java's stable sort yields |
| TaskOrder.SortedUnique | src/main/java/com/taskmanager/taskmanager/service/TaskService.java:92-99 | when the comparator separates all tasks, only one ordering is sorted |
| TaskOrder.DescIsReverseOfAsc | src/main/java/com/taskmanager/taskmanager/service/TaskService.java:92-95 | with distinct due dates, the reversed comparator yields the ascending result backwards |
| TaskOrder.ClassIsDueDate | src/main/java/com/taskmanager/taskmanager/service/TaskService.java:92 | for dated tasks, "compares equal" means "due the same day" |
| TaskRepository.Listing | src/main/java/com/taskmanager/taskmanager/repository/TaskRepository.java:15-29 | a listing holds exactly the tasks of its scope, each once, important first and then by ascending due date |
| TaskRepository.NaturalIsOrdered | src/main/java/com/taskmanager/taskmanager/repository/TaskRepository.java:18-19 | the listings' comparator puts important tasks first and dated tasks of one class by ascending date |
| TaskRepository.FindAllGlobal | src/main/java/com/taskmanager/taskmanager/repository/TaskRepository.java:15-21 | the tasks with no project, each once, in natural order |
| TaskRepository.FindAllByProject | src/main/java/com/taskmanager/taskmanager/repository/TaskRepository.java:23-29 | the tasks of project p, each once, in the same ascending natural order |
| TaskRepository.WithoutProject | src/main/java/com/taskmanager/taskmanager/repository/TaskRepository.java:31 | the table minus exactly the tasks of project p; every other row unchanged |
| TaskRepository.WithoutProjectListings | src/main/java/com/taskmanager/taskmanager/repository/TaskRepository.java:31 | after the bulk delete, project p lists nothing and every other scope lists what it did before |
| TaskRepository.Ids | src/main/java/com/taskmanager/taskmanager/service/TaskService.java:68 | the id list has the listing's length, with position i holding task i's id |
| TaskRepository.ListingIds | src/main/java/com/taskmanager/taskmanager/service/TaskService.java:64-68 | a listing's ids are exactly the keys of the scope's tasks, once each, with no null |
| TaskRepository.TaskStore.Save | src/main/java/com/taskmanager/taskmanager/service/TaskService.java:31 | a stored id is overwritten; any other task is inserted under the next key |
| TaskRepository.TaskStore.DeleteById | src/main/java/com/taskmanager/taskmanager/service/TaskService.java:61 | removes that key only; a missing key removes nothing |
| TaskRepository.TaskStore.DeleteByProjectId | src/main/java/com/taskmanager/taskmanager/repository/TaskRepository.java:31 | the table becomes `WithoutProject` of the old table |
| TaskService.CreateTask | src/main/java/com/taskmanager/taskmanager/service/TaskService.java:29-32 | saves the given task with `isImportant` false, whatever it had |
| TaskService.GetAllTasks | src/main/java/com/taskmanager/taskmanager/service/TaskService.java:35-37 | returns the tasks of no project, each once, in natural order |
| TaskService.GetTaskById | src/main/java/com/taskmanager/taskmanager/service/TaskService.java:40-43 | a stored id yields its task; a missing one fails with "Task not found with id" |
| TaskService.ApplyUpdate | src/main/java/com/taskmanager/taskmanager/service/TaskService.java:50-54 | title, description, dueDate, status and isImportant come from the patch; id, priority, projectId, position and owner are kept |
| TaskService.ApplyUpdateIdempotent | src/main/java/com/taskmanager/taskmanager/service/TaskService.java:50-54 | applying one patch twice equals applying it once |
| TaskService.ApplyUpdateOwnValues | src/main/java/com/taskmanager/taskmanager/service/TaskService.java:50-54 | a patch carrying the task's own values changes nothing |
| TaskService.UpdateTaskById | src/main/java/com/taskmanager/taskmanager/service/TaskService.java:46-57 | a missing id fails and writes nothing; otherwise only that row is replaced, by the patched task |
| TaskService.DeleteTaskById | src/main/java/com/taskmanager/taskmanager/service/TaskService.java:59-70 | removes only that id and returns the ids of the remaining no-project tasks in natural order |
| TaskService.DeleteTaskRelist | src/main/java/com/taskmanager/taskmanager/service/TaskService.java:61-68 | those ids exclude the deleted id and list every remaining no-project task once |
| TaskService.Keeps | src/main/java/com/taskmanager/taskmanager/service/TaskService.java:81-87 | defines the filter's lambda: only a flag that is `Boolean.TRUE` is important, so a `null` flag counts as normal |
| TaskService.FilterBy | src/main/java/com/taskmanager/taskmanager/service/TaskService.java:80-89 | keeps each task the filter accepts, as often as in the input, and drops the rest; order is stated by `FilterConcat` |
| TaskService.FilterConcat | src/main/java/com/taskmanager/taskmanager/service/TaskService.java:80-89 | filtering a concatenation filters each part in turn, so kept tasks stay in input order |
| TaskService.FilterDueOn | src/main/java/com/taskmanager/taskmanager/service/TaskService.java:80-89 | the tasks of one due date among the kept ones are the kept tasks among those of that date, in the same order |
| TaskService.GetTasksWithFilters | src/main/java/com/taskmanager/taskmanager/service/TaskService.java:72-100 | fails exactly when two or more tasks pass and one is undated; otherwise returns the filtered tasks in due-date order; the tasks of each date are the kept tasks of that date in their input order |
| TaskService.SortShort | src/main/java/com/taskmanager/taskmanager/service/TaskService.java:97-99 | zero or one task is returned as given |
| TaskService.SortByDueOrdered | src/main/java/com/taskmanager/taskmanager/service/TaskService.java:92-99 | sorting dated tasks orders them ascending, or descending for DESC |
| TaskService.SortByDueStable | src/main/java/com/taskmanager/taskmanager/service/TaskService.java:92-99 | sorting dated tasks keeps the tasks of each due date in input order |
| TaskService.FiltersPartition | src/main/java/com/taskmanager/taskmanager/service/TaskService.java:82-87 | IMPORTANT_ONLY and NORMAL_ONLY together keep what ALL keeps, which is the whole input, and share nothing |
| TaskService.SubFilterOk | src/main/java/com/taskmanager/taskmanager/service/TaskService.java:80-99 | if ALL succeeds, every other filter succeeds |
| TaskService.FilteredResultsPartition | src/main/java/com/taskmanager/taskmanager/service/TaskService.java:76-99 | when ALL succeeds, the important and normal results together are the ALL result, with nothing in common |
| TaskService.DescIsReverseOfAscResult | src/main/java/com/taskmanager/taskmanager/service/TaskService.java:91-99 | with distinct due dates, the DESC result is the ASC result reversed |
| ProjectRepository.FindByNameAndUserId | src/main/java/com/taskmanager/taskmanager/service/ProjectService.java:31-33 | no match gives empty, one match gives that project, several make the query throw |
| ProjectRepository.UniqueNamesLookUpCleanly | src/main/java/com/taskmanager/taskmanager/service/ProjectService.java:59 | while names are unique per owner, the name lookup never throws |
| ProjectRepository.FindAllByUserId | src/main/java/com/taskmanager/taskmanager/service/ProjectService.java:45 | exactly the owner's projects, each once |
| ProjectRepository.ProjectStore.Save | src/main/java/com/taskmanager/taskmanager/service/ProjectService.java:41 | a stored id is overwritten; any other project is inserted under the next key |
| ProjectRepository.ProjectStore.DeleteById | src/main/java/com/taskmanager/taskmanager/service/ProjectService.java:77 | removes that key only |
| ProjectService.CreateProject | src/main/java/com/taskmanager/taskmanager/service/ProjectService.java:30-42 | a name the user already has fails with "already exists" and saves nothing; otherwise saves the project owned by the user; keeps names unique per owner |
| ProjectService.CreateKeepsNamesUnique | src/main/java/com/taskmanager/taskmanager/service/ProjectService.java:31-41 | writing a project under a name its owner does not use keeps names unique per owner |
| ProjectService.GetAllProjectsForUser | src/main/java/com/taskmanager/taskmanager/service/ProjectService.java:44-46 | exactly the user's projects, each once |
| ProjectService.GetProjectByIdForUser | src/main/java/com/taskmanager/taskmanager/service/ProjectService.java:48-56 | succeeds exactly for a stored project the user owns; a missing project and another owner's fail with the same message |
| ProjectService.GetProjectByNameForUser | src/main/java/com/taskmanager/taskmanager/service/ProjectService.java:58-63 | returns the user's one project of that name; none fails with "Project not found with name" |
| ProjectService.UpdateProjectForUser | src/main/java/com/taskmanager/taskmanager/service/ProjectService.java:65-69 | the ownership check runs first; on success only the project's name changes |
| ProjectService.RenameCanDuplicateName | src/main/java/com/taskmanager/taskmanager/service/ProjectService.java:65-69 | a permitted rename can give one owner two projects of one name, after which the name lookup throws |
| ProjectService.DeleteProjectForUser | src/main/java/com/taskmanager/taskmanager/service/ProjectService.java:71-78 | the ownership check runs first; on success the project's tasks and then the project are removed, and nothing else changes |
| ProjectService.CreateTaskForProjectForUser | src/main/java/com/taskmanager/taskmanager/service/ProjectService.java:82-92 | an unresolved project fails and writes no task; otherwise saves the task with the project's id, the user as owner, and isImportant false |
| ProjectService.GetTasksForProjectForUser | src/main/java/com/taskmanager/taskmanager/service/ProjectService.java:94-99 | the named project's tasks, each once, in natural order |
| ProjectService.GetTaskInProjectForUser | src/main/java/com/taskmanager/taskmanager/service/ProjectService.java:101-113 | a missing task fails with "Task not found"; a task in another project or of another owner fails with "is not inside project"; otherwise returns the stored task |
| ProjectService.DeleteTaskInProjectForUser | src/main/java/com/taskmanager/taskmanager/service/ProjectService.java:115-134 | validation runs first, so a failure changes nothing; on success only that task is removed, and the project's remaining ids are returned in natural order |
| ProjectService.DeleteProjectTaskRelist | src/main/java/com/taskmanager/taskmanager/service/ProjectService.java:121-132 | those ids exclude the deleted task and list each remaining project task once |
| UserRepository.FindByEmail | src/main/java/com/taskmanager/taskmanager/repository/UserRepository.java:10 | returns the one user with that email, or empty when there is none |
| UserRepository.UserStore.Save | src/main/java/com/taskmanager/taskmanager/service/UserService.java:51 | a stored id is overwritten; any other user is inserted under the next key; emails stay unique |
| UserService.IsWhitespace | src/main/java/com/taskmanager/taskmanager/service/UserService.java:22 | defines `Character.isWhitespace`: the Unicode space separators without the no-break spaces, the line and paragraph separators, and ASCII TAB, LF, VT, FF, CR and FS to US |
| UserService.IsBlank | src/main/java/com/taskmanager/taskmanager/service/UserService.java:22 | defines `String.isBlank`: empty or whitespace only |
| UserService.Present | src/main/java/com/taskmanager/taskmanager/service/UserService.java:30 | defines the guard `s != null && !s.isBlank()` used for the name, the new password and the current password |
| UserService.ProfileUpdate | src/main/java/com/taskmanager/taskmanager/service/UserService.java:22-49 | fullName changes only to a non-blank value and avatarUrl to any non-null one. Without a new password the hash is kept. With one, the checks run in order (Google account, current password missing, wrong, confirmation mismatch) and the first failure decides; on success the hash is encode(newPassword). id, email and googleId are never changed |
| UserService.NoPasswordChangeIgnoresEncoder | src/main/java/com/taskmanager/taskmanager/service/UserService.java:30-49 | without a new password, the result is the same for every encoder and matcher |
| UserService.EmptyRequestChangesNothing | src/main/java/com/taskmanager/taskmanager/service/UserService.java:22-30 | a request of nulls leaves the user as stored |
| UserService.UpdateCurrentUser | src/main/java/com/taskmanager/taskmanager/service/UserService.java:17-52 | an unknown user fails with "User not found". Every failure leaves the table unwritten. Success replaces only that user, with the `ProfileUpdate` result |
| EmailAuthService.NewUser | src/main/java/com/taskmanager/taskmanager/service/EmailAuthService.java:29-33 | the new user carries the request's name and email and encode(password), with no id, Google link or avatar |
| EmailAuthService.Register | src/main/java/com/taskmanager/taskmanager/service/EmailAuthService.java:20-39 | mismatched passwords fail before the table is read; a registered email fails; matching passwords and an unused email always succeed; every failure leaves the table unchanged; success inserts exactly one user and returns its token, name and email |
| EmailAuthService.RegisterKeepsEmailsUnique | src/main/java/com/taskmanager/taskmanager/service/EmailAuthService.java:25-35 | inserting a user under an unused email keeps emails unique |
| EmailAuthService.Login | src/main/java/com/taskmanager/taskmanager/service/EmailAuthService.java:41-55 | an unknown email fails with "Invalid email or password"; an account with no hash fails with "Google login only" before any comparison; a wrong password fails as for an unknown email; success returns the stored user's token, name and email |
| EmailAuthService.UnknownEmailLooksLikeWrongPassword | src/main/java/com/taskmanager/taskmanager/service/EmailAuthService.java:42-51 | an unknown email and a wrong password give identical results |
| EmailAuthService.RegisterThenLogin | src/main/java/com/taskmanager/taskmanager/service/EmailAuthService.java:20-55 | right after registering, signing in with the same email and password succeeds, given `matches(p, encode(p))` |
| EmailAuthService.PasswordChangeThenLogin | src/main/java/com/taskmanager/taskmanager/service/UserService.java:48-51 | after a successful password change, the new password signs in, given `matches(p, encode(p))` |
| Errors.AccountMessage | src/main/java/com/taskmanager/taskmanager/service/UserService.java:19 | defines the fixed text of each `RuntimeException` of the account services, as thrown at UserService.java:19-45 and EmailAuthService.java:22-50 |
| Errors.AccountMessagesDistinct | src/main/java/com/taskmanager/taskmanager/service/EmailAuthService.java:42-50 | different account errors have different texts, so an unknown email and a wrong password look alike only because both are `InvalidCredentials` |

## Left out

- JwtService: left out. Its HMAC/JWT library code is foreign; `generateToken` is an uninterpreted function parameter.
- GoogleAuthService: left out. It verifies Google ID tokens over the network and reads the clock.
- PasswordEncoder: left out. BCrypt's internals are not modelled; `encode` and `matches` are uninterpreted parameters.
- Controllers and GlobalExceptionHandler: left out. They are HTTP routing, security context, JSON and response timestamps.
- Ranking and reordering of tasks (positions 1..N, a rank limit): left out. The services build a reorder request but never dispatch it, and the source holds no implementation. The model returns only the request's `orderedIds`; `setSortByDueDate` is dropped.
- `@CreationTimestamp`, `@UpdateTimestamp` and `lastLoggedInAt`: left out. They are clock reads.
- `@Transactional`, concurrency and rollback: left out. Each operation runs alone against the tables; a failure part-way through a method (a database error) is not modelled.
- The case-insensitive `findByName` native query (ProjectRepository.java:14-15) and `findByGoogleId` of users: left out. The modelled services do not use them. `findById`, which the task, project and user services use, is the map lookup `k in m` / `m[k]`.
- Null strings: only nullable references the services test are `Option`s. These are due date, priority, project, position, importance flag, owner, password hash, Google id, avatar, and the fields of the profile-update request. Titles, names, emails and the register/login request fields are plain strings. A `null` there, and the `NullPointerException` of `equals` on it, is not modelled.
- String matching in queries: `UserRepository.FindByEmail`, `ProjectRepository.FindByNameAndUserId` and the unique email column compare strings exactly, case-sensitively. In the running system the database does these comparisons, and its collation may ignore case.
- Failed inserts: a save that the unique email column would reject is not modelled. `UserRepository.UserStore.Save` requires the email to be free. Both callers guarantee it: `register` checks first, and a profile update never changes the email.
- Key generation: a save whose id is set but not stored inserts under the next generated key, as Hibernate before 6.6 does. Later Hibernate versions throw instead.
- TaskRepository.Listing: states only the database-independent part of the ORDER BY. Both of these are left unstated: where `NULL` due dates go, and the order of tasks with equal importance and due date. The model fixes them (missing dates last, then ascending key).
- TaskService.GetTasksWithFilters: takes the list `findAll` returned as its input. `findAll` has no ORDER BY, so the model promises nothing about that list's order; stability is stated relative to it.
- UserService.IsWhitespace: covers Java's `Character.isWhitespace` on UTF-16 code units as Dafny characters. Supplementary-plane characters are not special-cased; Java has no whitespace there.
