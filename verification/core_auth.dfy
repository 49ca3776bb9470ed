/**
 * The authentication backend of the `core` crate: looks a user up by
 * username and checks the password against the stored hash, or looks a user
 * up by id. Both are reads of the users table.
 */
module CoreAuth {
  import opened Wrappers
  import opened Accounts

  /**
   * The `password_auth` crate, abstract. `generateHash` stands for one call of
   * `generate_hash` (the salt it draws is part of the abstraction);
   * `verifyPassword(password, hash)` is true when `verify_password` returns `Ok`.
   */
  datatype PasswordScheme = PasswordScheme(generateHash: string -> string, verifyPassword: (string, string) -> bool)

  datatype Credentials = Credentials(username: string, password: string)

  datatype Backend = Backend(pool: UserTable)
  {
    /** The user whose username and password match, or `None`. */
    function Authenticate(creds: Credentials, scheme: PasswordScheme): (r: Option<User>)
      reads pool
      ensures r.Some? ==> && r == FindByName(pool.rows, creds.username)
                          && scheme.verifyPassword(creds.password, r.value.password)
      ensures r.None? <==> || FindByName(pool.rows, creds.username).None?
                           || !scheme.verifyPassword(creds.password, FindByName(pool.rows, creds.username).value.password)
    {
      match FindByName(pool.rows, creds.username)
      case None => None
      case Some(user) => if scheme.verifyPassword(creds.password, user.password) then Some(user) else None
    }

    /** The row whose id is `id`, or `None`. */
    function GetUser(id: int): (r: Option<User>)
      reads pool
      ensures r.Some? ==> r.value in pool.rows && r.value.id == id
      ensures r.None? <==> forall u :: u in pool.rows ==> u.id != id
    {
      FindById(pool.rows, id)
    }
  }

  /** An unknown username is refused whatever the password and whatever the verifier. */
  lemma UnknownUserNotVerified(b: Backend, creds: Credentials, s1: PasswordScheme, s2: PasswordScheme)
    requires forall u :: u in b.pool.rows ==> u.username != creds.username
    ensures b.Authenticate(creds, s1) == None && b.Authenticate(creds, s2) == None
  {
  }

  /** For a stored user, authentication succeeds with that row exactly when its hash verifies. */
  lemma AuthenticateStoredUser(b: Backend, creds: Credentials, scheme: PasswordScheme, i: nat)
    requires b.pool.Valid() && i < |b.pool.rows| && b.pool.rows[i].username == creds.username
    ensures b.Authenticate(creds, scheme) ==
            if scheme.verifyPassword(creds.password, b.pool.rows[i].password) then Some(b.pool.rows[i]) else None
  {
    FindByNameUnique(b.pool.rows, i);
  }

  /** A stored user is found by its id. */
  lemma GetStoredUser(b: Backend, i: nat)
    requires b.pool.Valid() && i < |b.pool.rows|
    ensures b.GetUser(b.pool.rows[i].id) == Some(b.pool.rows[i])
  {
    FindByIdUnique(b.pool.rows, i);
  }
}
