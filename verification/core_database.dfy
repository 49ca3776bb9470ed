/**
 * `Database` of the `core` crate: a handle on the users table through which
 * users are added and looked up by username.
 */
module CoreDatabase {
  import opened Wrappers
  import opened Accounts

  class Database {
    const pool: UserTable

    /** `Database::new` only wraps the pool; it never fails. */
    constructor (pool: UserTable)
      ensures this.pool == pool
    {
      this.pool := pool;
    }

    /**
     * Inserts one row with the given (already hashed) password and the freshly
     * drawn `uuid`, and returns the row; a clash with a UNIQUE key is an error.
     */
    method AddUser(username: string, password: string, uuid: Uuid) returns (r: Result<User, DbError>)
      requires pool.Valid()
      modifies pool
      ensures pool.Valid() && pool.nextId == old(pool.nextId) + 1
      ensures r.Ok? <==> Insertable(old(pool.rows), uuid, username)
      ensures r.Ok? ==> r.value == User(old(pool.nextId), uuid, username, password)
                        && pool.rows == old(pool.rows) + [r.value]
      ensures r.Err? ==> pool.rows == old(pool.rows)
    {
      r := pool.Insert(uuid, username, password);
    }

    /** The row whose username is `username`, if any. */
    function GetUser(username: string): (r: Option<User>)
      reads pool
      ensures r.Some? ==> r.value in pool.rows && r.value.username == username
      ensures r.None? <==> forall u :: u in pool.rows ==> u.username != username
    {
      FindByName(pool.rows, username)
    }
  }

  /** Once a user is added, looking its username up returns exactly that user. */
  lemma AddedUserFound(rows: seq<User>, user: User)
    requires UniqueKeys(rows + [user])
    ensures FindByName(rows + [user], user.username) == Some(user)
  {
    FindByNameUnique(rows + [user], |rows|);
  }
}
