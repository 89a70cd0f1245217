/**
 * UserService: the profile update of the signed-in user. The password encoder's `encode` and
 * `matches` are parameters; nothing about them is assumed.
 */
module UserService {
  import opened Wrappers
  import opened Entities
  import opened Errors
  import opened Tables
  import opened UserRepository

  /** UpdateUserRequest; each field may be `null`. */
  datatype UpdateUserRequest = UpdateUserRequest(
    fullName: Option<string>,
    avatarUrl: Option<string>,
    currentPassword: Option<string>,
    newPassword: Option<string>,
    confirmNewPassword: Option<string>)

  /**
   * `Character.isWhitespace`: the Unicode space, line and paragraph separators other than the
   * no-break spaces, and the ASCII controls TAB, LF, VT, FF, CR and FS..US.
   */
  predicate IsWhitespace(c: char) {
    var n := c as int;
    n == 0x20 || n == 0x1680 || 0x2000 <= n <= 0x2006 || 0x2008 <= n <= 0x200A
    || n == 0x2028 || n == 0x2029 || n == 0x205F || n == 0x3000
    || 0x09 <= n <= 0x0D || 0x1C <= n <= 0x1F
  }

  /** `String.isBlank`: empty or whitespace only. */
  predicate IsBlank(s: string) {
    forall i :: 0 <= i < |s| ==> IsWhitespace(s[i])
  }

  /** `s != null && !s.isBlank()`. */
  predicate Present(s: Option<string>) {
    s.Some? && !IsBlank(s.value)
  }

  /**
   * What `updateCurrentUser` makes of the stored `user`: the profile fields, then, when a new
   * password is given, four checks in order and the new hash.
   */
  function ProfileUpdate(user: User, req: UpdateUserRequest, encode: string -> string, matches: (string, string) -> bool)
    : (r: Result<User, Error>)
    ensures !Present(req.newPassword) ==> r.Ok? && r.value.passwordHash == user.passwordHash
    ensures Present(req.newPassword) ==>
      if user.passwordHash.None? then r == Err(GoogleAccount)
      else if !Present(req.currentPassword) then r == Err(CurrentPasswordRequired)
      else if !matches(req.currentPassword.value, user.passwordHash.value) then r == Err(CurrentPasswordIncorrect)
      else if req.newPassword != req.confirmNewPassword then r == Err(NewPasswordsMismatch)
      else r.Ok? && r.value.passwordHash == Some(encode(req.newPassword.value))
    ensures r.Ok? ==> r.value.fullName == if Present(req.fullName) then req.fullName.value else user.fullName
    ensures r.Ok? ==> r.value.avatarUrl == if req.avatarUrl.Some? then req.avatarUrl else user.avatarUrl
    ensures r.Ok? ==> r.value.id == user.id && r.value.email == user.email && r.value.googleId == user.googleId
  {
    var named := if Present(req.fullName) then user.(fullName := req.fullName.value) else user;
    var pictured := if req.avatarUrl.Some? then named.(avatarUrl := req.avatarUrl) else named;
    if !Present(req.newPassword) then Ok(pictured)
    else if pictured.passwordHash.None? then Err(GoogleAccount)
    else if !Present(req.currentPassword) then Err(CurrentPasswordRequired)
    else if !matches(req.currentPassword.value, pictured.passwordHash.value) then Err(CurrentPasswordIncorrect)
    else if req.newPassword != req.confirmNewPassword then Err(NewPasswordsMismatch)
    else Ok(pictured.(passwordHash := Some(encode(req.newPassword.value))))
  }

  /** Without a new password the encoder and the matcher play no part. */
  lemma NoPasswordChangeIgnoresEncoder(user: User, req: UpdateUserRequest,
                                       encode1: string -> string, matches1: (string, string) -> bool,
                                       encode2: string -> string, matches2: (string, string) -> bool)
    requires !Present(req.newPassword)
    ensures ProfileUpdate(user, req, encode1, matches1) == ProfileUpdate(user, req, encode2, matches2)
  {
  }

  /** A request that names nothing leaves the user as stored. */
  lemma EmptyRequestChangesNothing(user: User, encode: string -> string, matches: (string, string) -> bool)
    ensures ProfileUpdate(user, UpdateUserRequest(None, None, None, None, None), encode, matches) == Ok(user)
  {
  }

  /** `updateCurrentUser`: an unknown user fails, every failure saves nothing, success saves once. */
  method UpdateCurrentUser(store: UserStore, userId: UserId, req: UpdateUserRequest,
                           encode: string -> string, matches: (string, string) -> bool)
    returns (r: Result<User, Error>)
    requires store.Valid()
    modifies store
    ensures store.Valid()
    ensures userId !in old(store.users) ==> r == Err(UserNotFound)
    ensures userId in old(store.users) ==> r == ProfileUpdate(old(store.users)[userId], req, encode, matches)
    ensures r.Err? ==> store.users == old(store.users)
    ensures r.Ok? ==> store.users == old(store.users)[userId := r.value]
    ensures store.nextId == old(store.nextId)
  {
    if userId !in store.users {
      return Err(UserNotFound);
    }
    var user := store.users[userId];
    if Present(req.fullName) {
      user := user.(fullName := req.fullName.value);
    }
    if req.avatarUrl.Some? {
      user := user.(avatarUrl := req.avatarUrl);
    }
    if Present(req.newPassword) {
      if user.passwordHash.None? {
        return Err(GoogleAccount);
      }
      if !Present(req.currentPassword) {
        return Err(CurrentPasswordRequired);
      }
      if !matches(req.currentPassword.value, user.passwordHash.value) {
        return Err(CurrentPasswordIncorrect);
      }
      if req.newPassword != req.confirmNewPassword {
        return Err(NewPasswordsMismatch);
      }
      user := user.(passwordHash := Some(encode(req.newPassword.value)));
    }
    var saved := store.Save(user);
    return Ok(saved);
  }
}
