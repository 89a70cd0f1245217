/**
 * EmailAuthService: sign-up and sign-in with email and password. The password encoder and the
 * token generator are parameters.
 */
module EmailAuthService {
  import opened Wrappers
  import opened Entities
  import opened Errors
  import opened Tables
  import opened UserRepository
  import opened UserService

  datatype RegisterRequest = RegisterRequest(fullName: string, email: string, password: string, confirmPassword: string)

  datatype LoginRequest = LoginRequest(email: string, password: string)

  datatype AuthResponse = AuthResponse(accessToken: string, fullName: string, email: string)

  /** The user `register` builds: no id, no Google link, no avatar. */
  function NewUser(req: RegisterRequest, encode: string -> string): (u: User)
    ensures u.id == None && u.fullName == req.fullName && u.email == req.email
    ensures u.passwordHash == Some(encode(req.password)) && u.googleId == None && u.avatarUrl == None
  {
    User(None, req.fullName, req.email, Some(encode(req.password)), None, None)
  }

  /**
   * `register`: mismatched passwords fail before the table is read; a taken email fails; only
   * then is exactly one new user saved, and the response carries its token, name and email.
   */
  method Register(store: UserStore, req: RegisterRequest, encode: string -> string, generateToken: User -> string)
    returns (r: Result<AuthResponse, Error>)
    requires store.Valid()
    modifies store
    ensures store.Valid()
    ensures req.password != req.confirmPassword ==> r == Err(PasswordsMismatch)
    ensures (req.password == req.confirmPassword && FindByEmail(old(store.users), req.email).Some?)
            ==> r == Err(EmailAlreadyRegistered)
    ensures (req.password == req.confirmPassword && FindByEmail(old(store.users), req.email).None?) ==> r.Ok?
    ensures r.Err? ==> store.users == old(store.users) && store.nextId == old(store.nextId)
    ensures r.Ok? ==>
      var saved := NewUser(req, encode).(id := Some(old(store.nextId)));
      && old(store.nextId) !in old(store.users)
      && store.users == old(store.users)[old(store.nextId) := saved]
      && store.nextId == old(store.nextId) + 1
      && r.value == AuthResponse(generateToken(saved), req.fullName, req.email)
  {
    if req.password != req.confirmPassword {
      return Err(PasswordsMismatch);
    }
    if FindByEmail(store.users, req.email).Some? {
      return Err(EmailAlreadyRegistered);
    }
    var user := NewUser(req, encode);
    user := store.Save(user);
    var accessToken := generateToken(user);
    return Ok(AuthResponse(accessToken, user.fullName, user.email));
  }

  /** Adding a user under a free key with an unused email keeps emails unique. */
  lemma RegisterKeepsEmailsUnique(users: map<UserId, User>, k: UserId, u: User)
    requires EmailsUnique(users) && k !in users && FindByEmail(users, u.email).None?
    ensures EmailsUnique(users[k := u])
  {
    var after := users[k := u];
    forall a, b | a in after && b in after && after[a].email == after[b].email
      ensures a == b
    {
    }
  }

  /**
   * `login`: an unknown email and a wrong password fail alike; an account without a password
   * hash is refused before any comparison. It only reads the table.
   */
  function Login(users: map<UserId, User>, req: LoginRequest, matches: (string, string) -> bool, generateToken: User -> string)
    : (r: Result<AuthResponse, Error>)
    requires EmailsUnique(users)
    ensures FindByEmail(users, req.email).None? ==> r == Err(InvalidCredentials)
    ensures var found := FindByEmail(users, req.email);
      found.Some? ==>
        if found.value.passwordHash.None? then r == Err(GoogleLoginOnly)
        else if !matches(req.password, found.value.passwordHash.value) then r == Err(InvalidCredentials)
        else r == Ok(AuthResponse(generateToken(found.value), found.value.fullName, found.value.email))
    ensures r.Ok? ==> exists k :: k in users && users[k].email == req.email
                                && r.value.fullName == users[k].fullName && r.value.email == users[k].email
  {
    match FindByEmail(users, req.email)
    case None => Err(InvalidCredentials)
    case Some(user) =>
      if user.passwordHash.None? then Err(GoogleLoginOnly)
      else if !matches(req.password, user.passwordHash.value) then Err(InvalidCredentials)
      else Ok(AuthResponse(generateToken(user), user.fullName, user.email))
  }

  /** A caller cannot tell an unknown email from a known one with a wrong password. */
  lemma UnknownEmailLooksLikeWrongPassword(users: map<UserId, User>, unknown: LoginRequest, wrong: LoginRequest,
                                           matches: (string, string) -> bool, generateToken: User -> string)
    requires EmailsUnique(users)
    requires forall k :: k in users ==> users[k].email != unknown.email
    requires exists k :: k in users && users[k].email == wrong.email && users[k].passwordHash.Some?
                      && !matches(wrong.password, users[k].passwordHash.value)
    ensures Login(users, unknown, matches, generateToken) == Login(users, wrong, matches, generateToken)
  {
    var k :| k in users && users[k].email == wrong.email && users[k].passwordHash.Some?
             && !matches(wrong.password, users[k].passwordHash.value);
    var found := FindByEmail(users, wrong.email);
    assert found == Some(users[k]) by {
      assert k in WithEmail(users, wrong.email);
    }
  }

  /**
   * Signing in right after signing up succeeds, for any encoder whose `matches` accepts a
   * password against its own encoding.
   */
  lemma RegisterThenLogin(users: map<UserId, User>, k: UserId, req: RegisterRequest,
                          encode: string -> string, matches: (string, string) -> bool, generateToken: User -> string)
    requires EmailsUnique(users) && k !in users && FindByEmail(users, req.email).None?
    requires matches(req.password, encode(req.password))
    ensures var saved := NewUser(req, encode).(id := Some(k));
      var after := users[k := saved];
      && EmailsUnique(after)
      && Login(after, LoginRequest(req.email, req.password), matches, generateToken)
         == Ok(AuthResponse(generateToken(saved), req.fullName, req.email))
  {
    var saved := NewUser(req, encode).(id := Some(k));
    var after := users[k := saved];
    RegisterKeepsEmailsUnique(users, k, saved);
    assert WithEmail(after, req.email) == {k} by {
      forall j | j in WithEmail(after, req.email) ensures j == k {
      }
    }
    assert FindByEmail(after, req.email) == Some(saved);
  }

  /** After a successful password change the new password signs in, under the same conditions. */
  lemma PasswordChangeThenLogin(users: map<UserId, User>, userId: UserId, req: UpdateUserRequest,
                                encode: string -> string, matches: (string, string) -> bool, generateToken: User -> string)
    requires EmailsUnique(users) && userId in users
    requires Present(req.newPassword) && ProfileUpdate(users[userId], req, encode, matches).Ok?
    requires matches(req.newPassword.value, encode(req.newPassword.value))
    ensures var u := ProfileUpdate(users[userId], req, encode, matches).value;
      var after := users[userId := u];
      && EmailsUnique(after)
      && Login(after, LoginRequest(u.email, req.newPassword.value), matches, generateToken)
         == Ok(AuthResponse(generateToken(u), u.fullName, u.email))
  {
    var u := ProfileUpdate(users[userId], req, encode, matches).value;
    var after := users[userId := u];
    assert EmailsUnique(after) by {
      forall a, b | a in after && b in after && after[a].email == after[b].email
        ensures a == b
      {
        assert users[a].email == after[a].email && users[b].email == after[b].email;
      }
    }
    assert WithEmail(after, u.email) == {userId} by {
      forall j | j in WithEmail(after, u.email) ensures j == userId {
        assert users[j].email == users[userId].email;
      }
    }
    assert FindByEmail(after, u.email) == Some(u);
  }
}
