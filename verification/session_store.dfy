/**
 * The Postgres-backed session store (`PostgresStore`): an expiring table of
 * encoded session records keyed by session id.
 *
 * The database behind the connection pool is the class `SessionDatabase`;
 * `PostgresStore` holds it the way the Rust struct holds its pool. The clock
 * is not read: every operation that compares against the current time takes
 * it as the argument `now`. The MessagePack codec is abstract (`Codec`).
 */
module SessionStore {
  import opened Wrappers

  /** A point in time, at the precision of the `expiry_date` column. */
  type Timestamp = int

  /** A session id; rows are keyed by its text form, which is injective. */
  type SessionId = int

  type Bytes = seq<bv8>

  /** A session record as the session layer hands it to the store. */
  datatype Record = Record(id: SessionId, data: map<string, string>, expiryDate: Timestamp)

  /** One row of the session table: the encoded record and its expiry date. */
  datatype Row = Row(data: Bytes, expiryDate: Timestamp)

  const DefaultSchemaName := "tower_sessions"
  const DefaultTableName := "session"

  /** The store's own error type, each variant carrying the wrapped error's text. */
  datatype PostgresStoreError =
    | Pool(detail: string)
    | Postgres(detail: string)
    | RmpSerdeEncode(detail: string)
    | RmpSerdeDecode(detail: string)

  const EncodePrefix := "Rust MsgPack encode error: "
  const DecodePrefix := "Rust MsgPack decode error: "

  /**
   * The `Display` text of a store error: pool and Postgres errors are
   * transparent, the codec errors put their prefix before the wrapped text.
   */
  function Message(e: PostgresStoreError): (m: string)
    ensures |e.detail| <= |m| && m[|m| - |e.detail|..] == e.detail
    ensures e.Pool? || e.Postgres? ==> m == e.detail
    ensures e.RmpSerdeEncode? ==> m == EncodePrefix + e.detail
    ensures e.RmpSerdeDecode? ==> m == DecodePrefix + e.detail
  {
    match e
    case Pool(d) => d
    case Postgres(d) => d
    case RmpSerdeEncode(d) =>
      var m := EncodePrefix + d;
      assert m[|m| - |d|..] == d;
      m
    case RmpSerdeDecode(d) =>
      var m := DecodePrefix + d;
      assert m[|m| - |d|..] == d;
      m
  }

  /** The session layer's error classes. */
  datatype SessionError = Backend(message: string) | Encode(message: string) | Decode(message: string)

  /** `From<PostgresStoreError> for SessionError`: a total classification. */
  function IntoSessionError(e: PostgresStoreError): (r: SessionError)
    ensures r.Backend? <==> e.Pool? || e.Postgres?
    ensures r.Encode? <==> e.RmpSerdeEncode?
    ensures r.Decode? <==> e.RmpSerdeDecode?
    ensures r.message == Message(e)
  {
    match e
    case Pool(_) => Backend(Message(e))
    case Postgres(_) => Backend(Message(e))
    case RmpSerdeEncode(_) => Encode(Message(e))
    case RmpSerdeDecode(_) => Decode(Message(e))
  }

  /** `.map_err(SessionError::from)` on a store result. */
  function IntoSessionResult<T>(r: Result<T, PostgresStoreError>): (s: Result<T, SessionError>)
    ensures s.Ok? <==> r.Ok?
    ensures r.Ok? ==> s.value == r.value
    ensures r.Err? ==> s.error == IntoSessionError(r.error)
  {
    match r
    case Ok(v) => Ok(v)
    case Err(e) => Err(IntoSessionError(e))
  }

  /** The MessagePack encoder and decoder, abstract; errors carry their text. */
  datatype Codec = Codec(encode: Record -> Result<Bytes, string>, decode: Bytes -> Result<Record, string>)

  /** Decoding what the encoder produced gives back the record. */
  ghost predicate RoundTrips(c: Codec)
  {
    forall r: Record :: c.encode(r).Ok? ==> c.decode(c.encode(r).value) == Ok(r)
  }

  /** The `insert ... on conflict (id) do update` statement on the table's rows. */
  function Upsert(rows: map<SessionId, Row>, id: SessionId, row: Row): (r: map<SessionId, Row>)
    ensures r.Keys == rows.Keys + {id}
    ensures r[id] == row
    ensures forall k :: k in rows && k != id ==> k in r && r[k] == rows[k]
  {
    rows[id := row]
  }

  /** The `select data ... where id = $1 and expiry_date > $2` query. */
  function Visible(rows: map<SessionId, Row>, id: SessionId, now: Timestamp): (r: Option<Bytes>)
    ensures r.Some? <==> id in rows && rows[id].expiryDate > now
    ensures r.Some? ==> r.value == rows[id].data
  {
    if id in rows && rows[id].expiryDate > now then Some(rows[id].data) else None
  }

  /** The `delete ... where expiry_date < now()` statement: the rows that survive. */
  function Reap(rows: map<SessionId, Row>, now: Timestamp): (r: map<SessionId, Row>)
    ensures forall k :: k in r <==> k in rows && rows[k].expiryDate >= now
    ensures forall k :: k in r ==> r[k] == rows[k]
  {
    map k | k in rows && !(rows[k].expiryDate < now) :: rows[k]
  }

  /** What `load_inner` returns once the table exists: the decoded record of a visible row. */
  function LoadOutcome(rows: map<SessionId, Row>, id: SessionId, now: Timestamp,
                       decode: Bytes -> Result<Record, string>): (r: Result<Option<Record>, PostgresStoreError>)
    ensures r == Ok(None) <==> !(id in rows && rows[id].expiryDate > now)
    ensures r.Err? ==> id in rows && rows[id].expiryDate > now && decode(rows[id].data).Err?
                       && r.error == RmpSerdeDecode(decode(rows[id].data).error)
    ensures r.Ok? && r.value.Some? ==> id in rows && rows[id].expiryDate > now
                                       && decode(rows[id].data) == Ok(r.value.value)
  {
    match Visible(rows, id, now)
    case None => Ok(None)
    case Some(data) =>
      match decode(data)
      case Ok(record) => Ok(Some(record))
      case Err(m) => Err(RmpSerdeDecode(m))
  }

  /** The Postgres database a pool connects to, as far as the session store sees it. */
  class SessionDatabase {
    var schemas: set<string>
    var tables: set<(string, string)>
    /** The rows of the table `"tower_sessions"."session"`, keyed by id. */
    var sessions: map<SessionId, Row>

    ghost predicate Valid()
      reads this
    {
      && (forall t :: t in tables ==> t.0 in schemas)
      && ((DefaultSchemaName, DefaultTableName) !in tables ==> sessions == map[])
    }

    /** An empty database: no schema, no table. */
    constructor ()
      ensures Valid() && schemas == {} && tables == {} && sessions == map[]
    {
      schemas, tables, sessions := {}, {}, map[];
    }
  }

  class PostgresStore {
    const pool: SessionDatabase
    const schemaName: string
    const tableName: string

    ghost predicate Valid()
      reads this, pool
    {
      schemaName == DefaultSchemaName && tableName == DefaultTableName && pool.Valid()
    }

    /** `PostgresStore::new`: wraps the pool and always names the same schema and table. */
    constructor (pool: SessionDatabase)
      requires pool.Valid()
      ensures this.pool == pool
      ensures schemaName == DefaultSchemaName && tableName == DefaultTableName
      ensures Valid()
    {
      this.pool := pool;
      schemaName := DefaultSchemaName;
      tableName := DefaultTableName;
    }

    predicate HasTable()
      reads this, pool
    {
      (schemaName, tableName) in pool.tables
    }

    /**
     * What a statement on a table that does not exist fails with: the server's
     * error as `tokio_postgres` displays it, severity and message after `db error`.
     */
    function MissingTable(): PostgresStoreError
    {
      Postgres("db error: ERROR: relation \"" + schemaName + "." + tableName + "\" does not exist")
    }

    /** Creates the schema and the table, each only if it does not exist yet. */
    method Migrate() returns (r: Result<(), PostgresStoreError>)
      requires Valid()
      modifies pool
      ensures Valid() && r == Ok(())
      ensures pool.schemas == old(pool.schemas) + {schemaName}
      ensures pool.tables == old(pool.tables) + {(schemaName, tableName)}
      ensures pool.sessions == old(pool.sessions)
      ensures old(HasTable()) ==> unchanged(pool)
    {
      if schemaName !in pool.schemas {
        pool.schemas := pool.schemas + {schemaName};
      }
      if (schemaName, tableName) !in pool.tables {
        pool.tables := pool.tables + {(schemaName, tableName)};
      }
      r := Ok(());
    }

    /** Removes every row whose expiry date is strictly before `now`. */
    method DeleteExpiredInner(now: Timestamp) returns (r: Result<(), PostgresStoreError>)
      requires Valid()
      modifies pool
      ensures Valid() && pool.schemas == old(pool.schemas) && pool.tables == old(pool.tables)
      ensures !HasTable() ==> r == Err(MissingTable()) && pool.sessions == old(pool.sessions)
      ensures HasTable() ==> r == Ok(()) && pool.sessions == Reap(old(pool.sessions), now)
    {
      if !HasTable() {
        return Err(MissingTable());
      }
      pool.sessions := Reap(pool.sessions, now);
      r := Ok(());
    }

    /** Encodes the whole record, then upserts it under its id. */
    method SaveInner(session: Record, codec: Codec) returns (r: Result<(), PostgresStoreError>)
      requires Valid()
      modifies pool
      ensures Valid() && pool.schemas == old(pool.schemas) && pool.tables == old(pool.tables)
      ensures codec.encode(session).Err? ==>
                r == Err(RmpSerdeEncode(codec.encode(session).error)) && pool.sessions == old(pool.sessions)
      ensures codec.encode(session).Ok? && !HasTable() ==>
                r == Err(MissingTable()) && pool.sessions == old(pool.sessions)
      ensures codec.encode(session).Ok? && HasTable() ==>
                && r == Ok(())
                && pool.sessions == Upsert(old(pool.sessions), session.id,
                                           Row(codec.encode(session).value, session.expiryDate))
    {
      var data := codec.encode(session);
      if data.Err? {
        return Err(RmpSerdeEncode(data.error));
      }
      if !HasTable() {
        return Err(MissingTable());
      }
      pool.sessions := Upsert(pool.sessions, session.id, Row(data.value, session.expiryDate));
      r := Ok(());
    }

    /** Reads the row of `sessionId` if it has not expired at `now`, and decodes it. */
    method LoadInner(sessionId: SessionId, now: Timestamp, codec: Codec)
      returns (r: Result<Option<Record>, PostgresStoreError>)
      requires Valid()
      ensures !HasTable() ==> r == Err(MissingTable())
      ensures HasTable() ==> r == LoadOutcome(pool.sessions, sessionId, now, codec.decode)
    {
      if !HasTable() {
        return Err(MissingTable());
      }
      var row := Visible(pool.sessions, sessionId, now);
      if row.None? {
        return Ok(None);
      }
      var decoded := codec.decode(row.value);
      if decoded.Err? {
        return Err(RmpSerdeDecode(decoded.error));
      }
      r := Ok(Some(decoded.value));
    }

    /** Deletes the row of `sessionId`; deleting an absent id succeeds. */
    method DeleteInner(sessionId: SessionId) returns (r: Result<(), PostgresStoreError>)
      requires Valid()
      modifies pool
      ensures Valid() && pool.schemas == old(pool.schemas) && pool.tables == old(pool.tables)
      ensures !HasTable() ==> r == Err(MissingTable()) && pool.sessions == old(pool.sessions)
      ensures HasTable() ==> r == Ok(()) && pool.sessions == old(pool.sessions) - {sessionId}
    {
      if !HasTable() {
        return Err(MissingTable());
      }
      pool.sessions := pool.sessions - {sessionId};
      r := Ok(());
    }

    /** `ExpiredDeletion::delete_expired`. */
    method DeleteExpired(now: Timestamp) returns (r: Result<(), SessionError>)
      requires Valid()
      modifies pool
      ensures Valid() && pool.schemas == old(pool.schemas) && pool.tables == old(pool.tables)
      ensures !HasTable() ==> r == Err(IntoSessionError(MissingTable())) && pool.sessions == old(pool.sessions)
      ensures HasTable() ==> r == Ok(()) && pool.sessions == Reap(old(pool.sessions), now)
    {
      var inner := DeleteExpiredInner(now);
      r := IntoSessionResult(inner);
    }

    /** `SessionStore::save`. */
    method Save(session: Record, codec: Codec) returns (r: Result<(), SessionError>)
      requires Valid()
      modifies pool
      ensures Valid() && pool.schemas == old(pool.schemas) && pool.tables == old(pool.tables)
      ensures codec.encode(session).Err? ==> r.Err? && r.error.Encode? && pool.sessions == old(pool.sessions)
      ensures codec.encode(session).Ok? && !HasTable() ==> r.Err? && r.error.Backend? && pool.sessions == old(pool.sessions)
      ensures codec.encode(session).Ok? && HasTable() ==>
                && r == Ok(())
                && pool.sessions == Upsert(old(pool.sessions), session.id,
                                           Row(codec.encode(session).value, session.expiryDate))
    {
      var inner := SaveInner(session, codec);
      r := IntoSessionResult(inner);
    }

    /** `SessionStore::load`. */
    method Load(sessionId: SessionId, now: Timestamp, codec: Codec) returns (r: Result<Option<Record>, SessionError>)
      requires Valid()
      ensures !HasTable() ==> r.Err? && r.error.Backend?
      ensures HasTable() ==> r == IntoSessionResult(LoadOutcome(pool.sessions, sessionId, now, codec.decode))
    {
      var inner := LoadInner(sessionId, now, codec);
      r := IntoSessionResult(inner);
    }

    /** `SessionStore::delete`. */
    method Delete(sessionId: SessionId) returns (r: Result<(), SessionError>)
      requires Valid()
      modifies pool
      ensures Valid() && pool.schemas == old(pool.schemas) && pool.tables == old(pool.tables)
      ensures !HasTable() ==> r.Err? && r.error.Backend? && pool.sessions == old(pool.sessions)
      ensures HasTable() ==> r == Ok(()) && pool.sessions == old(pool.sessions) - {sessionId}
    {
      var inner := DeleteInner(sessionId);
      r := IntoSessionResult(inner);
    }
  }

  /** A record saved and then loaded before its expiry comes back unchanged. */
  lemma SaveThenLoad(rows: map<SessionId, Row>, rec: Record, now: Timestamp, codec: Codec)
    requires RoundTrips(codec) && codec.encode(rec).Ok? && rec.expiryDate > now
    ensures LoadOutcome(Upsert(rows, rec.id, Row(codec.encode(rec).value, rec.expiryDate)), rec.id, now, codec.decode)
            == Ok(Some(rec))
  {
    var saved := Upsert(rows, rec.id, Row(codec.encode(rec).value, rec.expiryDate));
    assert Visible(saved, rec.id, now) == Some(codec.encode(rec).value);
  }

  /** A row whose expiry date equals `now` survives the reap at `now`, yet no load at `now` returns it. */
  lemma ExpiryBoundary(rows: map<SessionId, Row>, id: SessionId, now: Timestamp, decode: Bytes -> Result<Record, string>)
    requires id in rows && rows[id].expiryDate == now
    ensures id in Reap(rows, now) && Reap(rows, now)[id] == rows[id]
    ensures LoadOutcome(rows, id, now, decode) == Ok(None)
  {
  }

  /** A reap at `now` never changes what a load at `now` or later returns. */
  lemma ReapInvisibleToLoad(rows: map<SessionId, Row>, id: SessionId, now: Timestamp, later: Timestamp,
                            decode: Bytes -> Result<Record, string>)
    requires now <= later
    ensures LoadOutcome(Reap(rows, now), id, later, decode) == LoadOutcome(rows, id, later, decode)
  {
    assert Visible(Reap(rows, now), id, later) == Visible(rows, id, later);
  }

  /** Reaping twice at the same time is the same as reaping once. */
  lemma ReapIdempotent(rows: map<SessionId, Row>, now: Timestamp)
    ensures Reap(Reap(rows, now), now) == Reap(rows, now)
  {
  }

  /** The last save of an id wins. */
  lemma LastSaveWins(rows: map<SessionId, Row>, id: SessionId, first: Row, second: Row)
    ensures Upsert(Upsert(rows, id, first), id, second) == Upsert(rows, id, second)
  {
  }

  /** After a delete, no load finds the id, whatever the time. */
  lemma DeleteThenLoad(rows: map<SessionId, Row>, id: SessionId, now: Timestamp, decode: Bytes -> Result<Record, string>)
    ensures LoadOutcome(rows - {id}, id, now, decode) == Ok(None)
  {
  }
}
