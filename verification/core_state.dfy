/**
 * The central state of the `core` crate: validation rules plus the user
 * database, and the sign-up step built from them.
 */
module CoreState {
  import opened Wrappers
  import opened Accounts
  import Validation
  import opened CoreDatabase
  import opened CoreAuth

  /** The result of adding a user. */
  datatype AddUserAction = Added(user: User) | InvalidPass | InvalidName

  class Context {
    const database: Database
    const rules: Validation.ValidationRules

    /** `Context::new`: wraps a database over the pool; it never fails. */
    constructor (pool: UserTable, rules: Validation.ValidationRules)
      ensures database.pool == pool && this.rules == rules
    {
      database := new Database(pool);
      this.rules := rules;
    }

    /**
     * Validates the shape first, then refuses a taken username (reported as
     * `InvalidName`), then stores the hash of the password under a new row.
     */
    method SignUp(username: string, password: string, scheme: PasswordScheme, uuid: Uuid)
      returns (r: Result<AddUserAction, DbError>)
      requires database.pool.Valid()
      modifies database.pool
      ensures database.pool.Valid()
      ensures !rules.NameInBounds(username) ==>
                r == Ok(AddUserAction.InvalidName) && unchanged(database.pool)
      ensures rules.NameInBounds(username) && !rules.PassInBounds(password) ==>
                r == Ok(AddUserAction.InvalidPass) && unchanged(database.pool)
      ensures rules.IsValid(username, password) && FindByName(old(database.pool.rows), username).Some? ==>
                r == Ok(AddUserAction.InvalidName) && unchanged(database.pool)
      ensures rules.IsValid(username, password) && FindByName(old(database.pool.rows), username).None? ==>
                && database.pool.nextId == old(database.pool.nextId) + 1
                && (r.Ok? <==> forall u :: u in old(database.pool.rows) ==> u.uuid != uuid)
                && (r.Ok? ==> && r.value == Added(User(old(database.pool.nextId), uuid, username, scheme.generateHash(password)))
                              && database.pool.rows == old(database.pool.rows) + [r.value.user])
                && (r.Err? ==> database.pool.rows == old(database.pool.rows))
      ensures r.Ok? && r.value.Added? ==> GetUser(username) == Some(r.value.user)
    {
      match rules.Validate(username, password) {
        case Valid =>
          var existing := database.GetUser(username);
          if existing.Some? {
            return Ok(AddUserAction.InvalidName);
          }
        case InvalidName =>
          return Ok(AddUserAction.InvalidName);
        case InvalidPass =>
          return Ok(AddUserAction.InvalidPass);
      }
      var added := database.AddUser(username, scheme.generateHash(password), uuid);
      match added {
        case Ok(user) =>
          r := Ok(Added(user));
          AddedUserFound(old(database.pool.rows), user);
        case Err(e) => r := Err(e);
      }
    }

    /** `Context::get_user`: the database's lookup by username. */
    function GetUser(username: string): (r: Option<User>)
      reads database, database.pool
      ensures r.Some? ==> r.value in database.pool.rows && r.value.username == username
      ensures r.None? <==> forall u :: u in database.pool.rows ==> u.username != username
    {
      database.GetUser(username)
    }
  }
}
