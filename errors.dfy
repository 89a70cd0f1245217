/**
 * The exceptions the core throws. `TaskNotFound` and `ProjectNotFound` are the two exception
 * classes that the HTTP layer maps to 404; the `RuntimeException`s of the account services are
 * one constructor per message. Each constructor carries what its message is built from.
 */
module Errors {
  import opened Entities

  /** What a `TaskNotFoundException` says. */
  datatype TaskMessage =
    | NoTaskWithId(id: TaskId)                  // "Task not found with id: <id>"
    | NoTask(id: TaskId)                        // "Task not found: <id>"
    | NotInProject(id: TaskId, project: string) // "Task <id> is not inside project <name>"

  /** What a `ProjectNotFoundException` says; it is also thrown for a duplicate name. */
  datatype ProjectMessage =
    | NoProjectWithId(id: ProjectId)            // "Project not found with ID <id>"
    | NoProjectNamed(name: string)              // "Project not found with name <name> for current user"
    | AlreadyExists(name: string)               // "Project with name '<name>' already exists for this user"

  datatype Error =
    | TaskNotFound(task: TaskMessage)
    | ProjectNotFound(project: ProjectMessage)
    // a derived repository query that declares an Optional result found several rows
    | NonUniqueResult
    // `Comparator.comparing(TaskEntity::getDueDate)` met a task without a due date
    | NullDueDate
    // UserService.updateCurrentUser
    | UserNotFound
    | GoogleAccount
    | CurrentPasswordRequired
    | CurrentPasswordIncorrect
    | NewPasswordsMismatch
    // EmailAuthService.register / login
    | PasswordsMismatch
    | EmailAlreadyRegistered
    | InvalidCredentials
    | GoogleLoginOnly

  /** The errors the account services throw as a `RuntimeException` with a fixed text. */
  predicate IsAccountError(e: Error) {
    e.UserNotFound? || e.GoogleAccount? || e.CurrentPasswordRequired?
    || e.CurrentPasswordIncorrect? || e.NewPasswordsMismatch? || e.PasswordsMismatch?
    || e.EmailAlreadyRegistered? || e.InvalidCredentials? || e.GoogleLoginOnly?
  }

  /** The message of each fixed-text `RuntimeException` of the account services. */
  function AccountMessage(e: Error): (m: string)
    requires IsAccountError(e)
  {
    match e
    case UserNotFound => "User not found"
    case GoogleAccount => "This account was created with Google."
    case CurrentPasswordRequired => "Current password is required to change password."
    case CurrentPasswordIncorrect => "Current password is incorrect."
    case NewPasswordsMismatch => "New passwords do not match."
    case PasswordsMismatch => "Passwords do not match"
    case EmailAlreadyRegistered => "Email already registered"
    case InvalidCredentials => "Invalid email or password"
    case GoogleLoginOnly => "Account uses Google login only"
  }

  /**
   * The length of each account message. A proof aid for `AccountMessagesDistinct`, not a part
   * of the model: comparing lengths is far cheaper for the solver than comparing the texts.
   */
  function MessageLength(e: Error): nat
    requires IsAccountError(e)
  {
    match e
    case UserNotFound => 14
    case GoogleAccount => 37
    case CurrentPasswordRequired => 48
    case CurrentPasswordIncorrect => 30
    case NewPasswordsMismatch => 27
    case PasswordsMismatch => 22
    case EmailAlreadyRegistered => 24
    case InvalidCredentials => 25
    case GoogleLoginOnly => 30
  }

  lemma MessageLengths(e: Error)
    requires IsAccountError(e)
    ensures |AccountMessage(e)| == MessageLength(e)
  {
    match e
    case UserNotFound =>
    case GoogleAccount =>
    case CurrentPasswordRequired =>
    case CurrentPasswordIncorrect =>
    case NewPasswordsMismatch =>
    case PasswordsMismatch =>
    case EmailAlreadyRegistered =>
    case InvalidCredentials =>
    case GoogleLoginOnly =>
  }

  /**
   * Only the message tells two `RuntimeException`s apart, and no two of these errors share
   * one: a failed sign-in says "Invalid email or password" for both of its causes because both
   * are the one error `InvalidCredentials`.
   */
  lemma AccountMessagesDistinct(e1: Error, e2: Error)
    requires IsAccountError(e1) && IsAccountError(e2) && e1 != e2
    ensures AccountMessage(e1) != AccountMessage(e2)
  {
    MessageLengths(e1);
    MessageLengths(e2);
    if MessageLength(e1) == MessageLength(e2) {
      // the two texts of 30 characters differ in the first
      assert AccountMessage(CurrentPasswordIncorrect)[0] != AccountMessage(GoogleLoginOnly)[0];
    }
  }
}
