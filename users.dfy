/**
 * The users repository the auth service talks to (UsersService and the
 * users table), reduced to the four calls the service makes: lookup by
 * email, lookup by id, creation with an already-hashed password, and
 * overwriting the stored refresh token. Its own code is not part of this
 * model; the table's unique email column is the invariant Valid keeps.
 */
module Users {
  import opened Outcomes
  import opened Identity

  /** A row of the users table (timestamps left out). */
  datatype User = User(id: UserId, email: string, password: Digest, role: Role, refreshToken: Option<Jwt>)

  /**
   * byId holds the rows, emails is the unique index on the email column,
   * and nextId is where id generation continues.
   */
  datatype UserStore = UserStore(byId: map<UserId, User>, emails: map<string, UserId>, nextId: nat) {

    ghost predicate Valid()
    {
      && (forall id | id in byId :: byId[id].id == id && id < nextId)
      && (forall id | id in byId :: byId[id].email in emails && emails[byId[id].email] == id)
      && (forall e | e in emails :: emails[e] in byId && byId[emails[e]].email == e)
    }

    /** findByEmail: the user holding `email`, if any. */
    function FindByEmail(email: string): (r: Option<User>)
      requires Valid()
      ensures r.Some? <==> exists id :: id in byId && byId[id].email == email
      ensures r.Some? ==> r.value.email == email && r.value.id in byId && byId[r.value.id] == r.value
    {
      if email in emails then Some(byId[emails[email]]) else None
    }

    /** findById. */
    function FindById(id: UserId): (r: Option<User>)
      ensures r.Some? <==> id in byId
      ensures r.Some? ==> r.value == byId[id]
    {
      if id in byId then Some(byId[id]) else None
    }

    /**
     * createWithHashedPassword: a new USER row with the given digest stored
     * as is and no refresh token. The unique email column means the email
     * must be free.
     */
    function CreateWithHashedPassword(email: string, password: Digest): (r: (UserStore, User))
      requires Valid() && email !in emails
      ensures r.0.Valid()
      ensures r.1 == User(r.1.id, email, password, USER, None)
      ensures r.1.id !in byId && r.0.byId == byId[r.1.id := r.1]
      ensures r.0.emails == emails[email := r.1.id]
    {
      var user := User(nextId, email, password, USER, None);
      (UserStore(byId[nextId := user], emails[email := nextId], nextId + 1), user)
    }

    /**
     * updateRefreshToken(id, token): overwrites the stored token of that row;
     * an id with no row is left alone (the update affects no row).
     */
    function UpdateRefreshToken(id: UserId, token: Option<Jwt>): (r: UserStore)
      requires Valid()
      ensures r.Valid() && r.emails == emails && r.byId.Keys == byId.Keys
      ensures id in byId ==> r.byId[id] == byId[id].(refreshToken := token)
      ensures forall other | other in byId && other != id :: r.byId[other] == byId[other]
    {
      if id in byId then this.(byId := byId[id := byId[id].(refreshToken := token)]) else this
    }
  }
}
