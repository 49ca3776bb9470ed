/**
 * The `users` table both generations of the credential code read and write:
 * `id` is an identity primary key, `uuid` and `username` are UNIQUE, and
 * `password` holds a password hash. `UserTable` is the table behind a pool.
 */
module Accounts {
  import opened Wrappers

  /** A v4 UUID, as its 128-bit value. */
  type Uuid = nat

  /** A row of the `users` table. */
  datatype User = User(id: int, uuid: Uuid, username: string, password: string)

  /** What Postgres reports when an insert breaks a UNIQUE constraint. */
  datatype DbError = UniqueViolation

  /** The table's keys are unique: `id`, `uuid` and `username`. */
  ghost predicate UniqueKeys(rows: seq<User>)
  {
    forall i, j :: 0 <= i < j < |rows| ==>
      rows[i].id != rows[j].id && rows[i].uuid != rows[j].uuid && rows[i].username != rows[j].username
  }

  /** An insert of this uuid and username breaks no UNIQUE constraint. */
  predicate Insertable(rows: seq<User>, uuid: Uuid, username: string)
  {
    forall i :: 0 <= i < |rows| ==> rows[i].uuid != uuid && rows[i].username != username
  }

  /** `select * from users where username = $1`. */
  function FindByName(rows: seq<User>, name: string): (r: Option<User>)
    ensures r.Some? ==> r.value in rows && r.value.username == name
    ensures r.None? <==> forall u :: u in rows ==> u.username != name
  {
    if rows == [] then None
    else if rows[0].username == name then Some(rows[0])
    else FindByName(rows[1..], name)
  }

  /** `select * from users where id = $1`. */
  function FindById(rows: seq<User>, id: int): (r: Option<User>)
    ensures r.Some? ==> r.value in rows && r.value.id == id
    ensures r.None? <==> forall u :: u in rows ==> u.id != id
  {
    if rows == [] then None
    else if rows[0].id == id then Some(rows[0])
    else FindById(rows[1..], id)
  }

  /** With unique usernames, looking a row's username up finds that very row. */
  lemma FindByNameUnique(rows: seq<User>, i: nat)
    requires UniqueKeys(rows) && i < |rows|
    ensures FindByName(rows, rows[i].username) == Some(rows[i])
  {
    var r := FindByName(rows, rows[i].username);
    assert rows[i] in rows;
    var k :| 0 <= k < |rows| && rows[k] == r.value;
    assert k == i;
  }

  /** With unique ids, looking a row's id up finds that very row. */
  lemma FindByIdUnique(rows: seq<User>, i: nat)
    requires UniqueKeys(rows) && i < |rows|
    ensures FindById(rows, rows[i].id) == Some(rows[i])
  {
    var r := FindById(rows, rows[i].id);
    assert rows[i] in rows;
    var k :| 0 <= k < |rows| && rows[k] == r.value;
    assert k == i;
  }

  /** The Postgres `users` table a pool connects to. */
  class UserTable {
    var rows: seq<User>
    /** The next value of the `id` identity column. */
    var nextId: int

    ghost predicate Valid()
      reads this
    {
      UniqueKeys(rows) && forall u :: u in rows ==> u.id < nextId
    }

    /** An empty table whose identity column starts at 1. */
    constructor ()
      ensures Valid() && rows == [] && nextId == 1
    {
      rows, nextId := [], 1;
    }

    /**
     * `insert into users (uuid, username, password) values (...) returning *`.
     * The identity value is drawn whether or not the insert succeeds.
     */
    method Insert(uuid: Uuid, username: string, password: string) returns (r: Result<User, DbError>)
      requires Valid()
      modifies this
      ensures Valid() && nextId == old(nextId) + 1
      ensures r.Ok? <==> Insertable(old(rows), uuid, username)
      ensures r.Ok? ==> r.value == User(old(nextId), uuid, username, password) && rows == old(rows) + [r.value]
      ensures r.Err? ==> r.error == UniqueViolation && rows == old(rows)
    {
      var id := nextId;
      nextId := nextId + 1;
      if !Insertable(rows, uuid, username) {
        return Err(UniqueViolation);
      }
      var user := User(id, uuid, username, password);
      rows := rows + [user];
      r := Ok(user);
    }
  }
}
