/**
 * `Database` of the `api` crate: sign-up and login over the users table,
 * with `Auth` for hashing and checking passwords. Every call is one atomic
 * step over the table.
 */
module ApiPersist {
  import opened Wrappers
  import opened Accounts
  import opened ApiAuth

  /** The result of adding a user. */
  datatype SignUpAction = UsernameTaken | InvalidPassword | UserAdded(uuid: Uuid)

  /** The result of logging in a user. */
  datatype LoginAction = UsernameNotFound | IncorrectPassword | LoggedIn(uuid: Uuid)

  datatype SignUpError = HashError | Postgres(db: DbError)

  datatype LoginError = HashError | Postgres(db: DbError)

  class Database {
    const pool: UserTable
    const auth: Auth

    /** A database over a pool whose users table already exists. */
    constructor (pool: UserTable, auth: Auth)
      ensures this.pool == pool && this.auth == auth
    {
      this.pool := pool;
      this.auth := auth;
    }

    /** `username_taken`: some row already has this username. */
    function UsernameTaken(name: string): (taken: bool)
      reads pool
      ensures taken <==> exists u :: u in pool.rows && u.username == name
    {
      FindByName(pool.rows, name).Some?
    }

    /**
     * Hashes first, then refuses a taken username, then inserts a row with
     * the freshly drawn `uuid` and the hash, and answers that uuid.
     */
    method SignUp(username: string, password: string, uuid: Uuid) returns (r: Result<SignUpAction, SignUpError>)
      requires pool.Valid()
      modifies pool
      ensures pool.Valid()
      ensures auth.Hash(password).None? ==>
                r == Ok(SignUpAction.InvalidPassword) && unchanged(pool)
      ensures auth.Hash(password).Some? && old(UsernameTaken(username)) ==>
                r == Ok(SignUpAction.UsernameTaken) && unchanged(pool)
      ensures auth.Hash(password).Some? && !old(UsernameTaken(username)) ==>
                && pool.nextId == old(pool.nextId) + 1
                && (r.Ok? <==> forall u :: u in old(pool.rows) ==> u.uuid != uuid)
                && (r.Ok? ==> && r.value == SignUpAction.UserAdded(uuid)
                              && pool.rows == old(pool.rows) + [User(old(pool.nextId), uuid, username, auth.Hash(password).value)])
                && (r.Err? ==> r.error == SignUpError.Postgres(UniqueViolation) && pool.rows == old(pool.rows))
      ensures r == Ok(SignUpAction.UserAdded(uuid)) ==> UsernameTaken(username)
      ensures r == Ok(SignUpAction.UserAdded(uuid)) && HashesVerify(auth) ==>
                Login(username, password) == Ok(LoginAction.LoggedIn(uuid))
    {
      var pass := auth.Hash(password);
      if pass.None? {
        return Ok(SignUpAction.InvalidPassword);
      }
      if UsernameTaken(username) {
        return Ok(SignUpAction.UsernameTaken);
      }
      var row := pool.Insert(uuid, username, pass.value);
      match row {
        case Ok(user) =>
          r := Ok(SignUpAction.UserAdded(user.uuid));
          FindByNameUnique(pool.rows, |pool.rows| - 1);
          if HashesVerify(auth) {
            HashThenValidate(auth, password);
          }
        case Err(e) => r := Err(SignUpError.Postgres(e));
      }
    }

    /**
     * Looks the username up, then checks the password against the stored
     * hash: a match logs in, a mismatch is refused, an unreadable hash is an error.
     */
    function Login(username: string, password: string): (r: Result<LoginAction, LoginError>)
      reads pool
      ensures r == Ok(LoginAction.UsernameNotFound) <==> !UsernameTaken(username)
      ensures FindByName(pool.rows, username).Some? ==>
                var user := FindByName(pool.rows, username).value;
                && (auth.Validate(user.password, password) == Some(true) ==> r == Ok(LoginAction.LoggedIn(user.uuid)))
                && (auth.Validate(user.password, password) == Some(false) ==> r == Ok(LoginAction.IncorrectPassword))
                && (auth.Validate(user.password, password).None? ==> r == Err(LoginError.HashError))
    {
      match FindByName(pool.rows, username)
      case None => Ok(LoginAction.UsernameNotFound)
      case Some(user) =>
        match auth.Validate(user.password, password)
        case Some(true) => Ok(LoginAction.LoggedIn(user.uuid))
        case Some(false) => Ok(LoginAction.IncorrectPassword)
        case None => Err(LoginError.HashError)
    }
  }

  /** An unknown username is refused before any password is looked at. */
  lemma UnknownUserPasswordIgnored(db: Database, username: string, p1: string, p2: string)
    requires !db.UsernameTaken(username)
    ensures db.Login(username, p1) == db.Login(username, p2) == Ok(LoginAction.UsernameNotFound)
  {
  }

  /**
   * A stored user whose row holds the hash of `password` logs in with it and
   * gets back the uuid of that row.
   */
  lemma LoginWithStoredPassword(db: Database, i: nat, password: string)
    requires db.pool.Valid() && i < |db.pool.rows|
    requires HashesVerify(db.auth) && db.auth.Hash(password) == Some(db.pool.rows[i].password)
    ensures db.Login(db.pool.rows[i].username, password) == Ok(LoginAction.LoggedIn(db.pool.rows[i].uuid))
  {
    FindByNameUnique(db.pool.rows, i);
    HashThenValidate(db.auth, password);
  }

  /** A stored user whose stored hash rejects the password is told the password is wrong. */
  lemma LoginWithWrongPassword(db: Database, i: nat, password: string)
    requires db.pool.Valid() && i < |db.pool.rows|
    requires db.auth.Validate(db.pool.rows[i].password, password) == Some(false)
    ensures db.Login(db.pool.rows[i].username, password) == Ok(LoginAction.IncorrectPassword)
  {
    FindByNameUnique(db.pool.rows, i);
  }
}
