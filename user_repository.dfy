/**
 * UserRepository: the user table as a store object, and `findByEmail` as a function of a
 * snapshot. The email column is unique, so the table never holds two users with one email.
 */
module UserRepository {
  import opened Wrappers
  import opened Entities
  import opened Tables

  /** The email column's unique constraint. */
  ghost predicate EmailsUnique(users: map<UserId, User>) {
    forall a, b :: a in users && b in users && users[a].email == users[b].email ==> a == b
  }

  /** The keys of the users registered under `email`. */
  function WithEmail(users: map<UserId, User>, email: string): (ks: set<UserId>)
    ensures forall k :: k in ks <==> k in users && users[k].email == email
  {
    set k | k in users && users[k].email == email
  }

  /** `findByEmail`: the one user with that email, if any. */
  function FindByEmail(users: map<UserId, User>, email: string): (r: Option<User>)
    requires EmailsUnique(users)
    ensures r.None? <==> forall k :: k in users ==> users[k].email != email
    ensures r.Some? ==> exists k :: k in users && users[k] == r.value && WithEmail(users, email) == {k}
    ensures r.Some? ==> r.value.email == email
  {
    var ks := WithEmail(users, email);
    if ks == {} then None
    else
      var k := Min(ks);
      assert ks == {k} by {
        forall j | j in ks ensures j == k {
        }
      }
      Some(users[k])
  }

  /** The user table. */
  class UserStore {
    var users: map<UserId, User>
    var nextId: UserId

    ghost predicate Valid()
      reads this
    {
      UsersKeyed(users) && (forall k :: k in users ==> k < nextId) && EmailsUnique(users)
    }

    constructor ()
      ensures Valid() && users == map[]
    {
      users := map[];
      nextId := 1;
    }

    /**
     * `save`: a user whose id is stored is overwritten; any other is inserted under a new key.
     * The save is only asked of a user whose email no other stored user has.
     */
    method Save(u: User) returns (saved: User)
      requires Valid()
      requires forall k :: k in users && k != SaveKey(users, u.id, nextId) ==> users[k].email != u.email
      modifies this
      ensures Valid()
      ensures saved == u.(id := Some(SaveKey(old(users), u.id, old(nextId))))
      ensures users == old(users)[saved.id.value := saved]
      ensures nextId == if saved.id.value in old(users) then old(nextId) else old(nextId) + 1
    {
      var k := SaveKey(users, u.id, nextId);
      saved := u.(id := Some(k));
      users := users[k := saved];
      if k == nextId {
        nextId := nextId + 1;
      }
    }
  }
}
