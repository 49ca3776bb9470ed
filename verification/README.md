# patras: credentials, sessions and build glue, modelled in Dafny

This project models the core of patras, a web application with a Rust back end and a React client:

- **Session store.** `PostgresStore` keeps encoded session records in a Postgres table keyed by session id. It supports `migrate`, `save` (an upsert), `load` (filtered on expiry), `delete`, and `delete_expired`, the periodic reap.
- **Credential code, `core` generation.** `ValidationRules` checks the byte lengths of a username and password. `Context::sign_up` validates, refuses a taken name, hashes the password and inserts a row. The axum-login `Backend` authenticates users by username and password and looks them up by id.
- **Credential code, `api` generation.** `Auth` wraps libreauth's hashing and PHC parsing into `Option`s. `Database::sign_up` hashes, checks the name is free and inserts. `Database::login` looks the user up and checks the password.
- **The `topoma!` procedural macro.** It parses `NAME >> "sql"` and `NAME << "path"` units separated by commas. It expands each unit to a string constant holding its parsed statements.
- **The production static-asset fallback.** It serves the embedded client build and falls back to `index.html`.
- **The client's Vite configuration.** In `serve` mode it reads ports from `env.toml` and proxies `/api`; in `build` mode it drops console calls.

Where state changes in place, the model uses classes:

- The Postgres database behind a pool is a class. `SessionDatabase` holds the schemas, the tables and the session rows. `UserTable` holds the `users` rows and the identity counter.
- The store and database structs are classes holding that object as `pool`, the way the Rust structs hold their pools.
- Each statement is one atomic step on that object.

Pure code stays as functions over datatypes.

The model has no clock, no randomness and no foreign libraries. These become parameters:

- the current time (`now`);
- the freshly drawn v4 UUID;
- the MessagePack codec (`Codec`);
- the password-hashing schemes (`PasswordScheme`, `Auth`), whose random salts are part of the abstract function;
- the SQL parser, `CARGO_MANIFEST_DIR` and the file system (`MacroEnv`);
- the MIME guesser;
- the parsed `env.toml`.

Behaviour of the code worth knowing:

- `delete_expired` deletes rows with `expiry_date < now`. A row expiring exactly at `now` survives the reap, yet no load at `now` returns it; see `SessionStore.ExpiryBoundary`.
- The `api` generation's `login` does not validate the shape of its input, and its `sign_up` validates only through the hasher.
- The `core` generation reports a taken username as `InvalidName`; it has no `UsernameTaken` outcome.
- The `api` `User` model in `models.rs` has no `uuid` field, yet `persist.rs` reads `row.uuid`. The model follows `persist.rs` and the `users` table, which has a `uuid` column.
- A statement on the session table before `migrate` fails with the server error as `tokio_postgres` displays it, `db error: ERROR: relation "tower_sessions.session" does not exist`; the session layer sees it as a `Backend` error with that text.

## Model

| member | source | states |
|---|---|---|
| SessionStore.Message | crates/core/src/persist/store.rs:18-33 | the display text ends with the wrapped error's text; pool and Postgres errors are transparent; codec errors carry the `Rust MsgPack encode error: ` or `Rust MsgPack decode error: ` prefix |
| SessionStore.IntoSessionError | crates/core/src/persist/store.rs:38-47 | pool and Postgres errors become `Backend`, encode errors `Encode`, decode errors `Decode`, each class exactly when the variant is; the message is the error's display text, with the MsgPack prefixes |
| SessionStore.IntoSessionResult | crates/core/src/persist/store.rs:169-196 | `map_err(SessionError::from)`: success and its value kept, an error classified as above |
| SessionStore.Upsert | crates/core/src/persist/store.rs:106-127 | the upsert adds or overwrites exactly the saved id; every other row is kept as it was |
| SessionStore.Visible | crates/core/src/persist/store.rs:129-137 | a row is returned iff it exists and its expiry date is strictly after `now`, and then its data |
| SessionStore.Reap | crates/core/src/persist/store.rs:93-105 | the rows that survive are exactly those with `expiry_date >= now`, unchanged |
| SessionStore.LoadOutcome | crates/core/src/persist/store.rs:129-150 | `None` iff no visible row; a decode failure is a decode error; otherwise the decoded record of the visible row |
| SessionStore.SessionDatabase.constructor | crates/core/src/persist/store.rs:12-16 | the database behind the pool starts with no schema, no table and no rows, so every statement before `migrate` fails |
| SessionStore.PostgresStore.constructor | crates/core/src/persist/store.rs:52-58 | the store wraps the pool and names schema `tower_sessions` and table `session` |
| SessionStore.PostgresStore.Migrate | crates/core/src/persist/store.rs:65-92 | succeeds, adds the schema and the table if absent, keeps the rows; with the table already there nothing changes |
| SessionStore.PostgresStore.DeleteExpiredInner | crates/core/src/persist/store.rs:93-105 | with the table, the rows become `Reap(rows, now)`; without it, a Postgres error and no change |
| SessionStore.PostgresStore.SaveInner | crates/core/src/persist/store.rs:106-127 | encode first: an encode failure is an encode error with no change; then a missing table is a Postgres error; otherwise the rows become the upsert of the encoded record and its expiry |
| SessionStore.PostgresStore.LoadInner | crates/core/src/persist/store.rs:129-150 | a missing table is a Postgres error; otherwise the result is `LoadOutcome` of the rows at `now` |
| SessionStore.PostgresStore.DeleteInner | crates/core/src/persist/store.rs:152-161 | with the table, exactly the id's row is removed (an absent id succeeds); without it, an error and no change |
| SessionStore.PostgresStore.DeleteExpired | crates/core/src/persist/store.rs:167-175 | the reap, with a missing table reported as the classified error |
| SessionStore.PostgresStore.Save | crates/core/src/persist/store.rs:179-184 | the save, with an encode failure reported as `Encode` and a missing table as `Backend` |
| SessionStore.PostgresStore.Load | crates/core/src/persist/store.rs:185-190 | the load, with its errors classified |
| SessionStore.PostgresStore.Delete | crates/core/src/persist/store.rs:191-196 | the delete, with a missing table reported as `Backend` |
| SessionStore.SaveThenLoad | crates/core/src/persist/store.rs:106-150 | with a codec that round-trips, a record saved and loaded before its expiry comes back equal |
| SessionStore.ExpiryBoundary | crates/core/src/persist/store.rs:93-137 | a row expiring exactly at `now` survives the reap at `now` but is invisible to a load at `now` |
| SessionStore.ReapInvisibleToLoad | crates/core/src/persist/store.rs:93-150 | a reap at `now` never changes what a load at `now` or later returns |
| SessionStore.ReapIdempotent | crates/core/src/persist/store.rs:93-105 | reaping twice at the same time equals reaping once |
| SessionStore.LastSaveWins | crates/core/src/persist/store.rs:108-114 | saving the same id twice leaves only the second row |
| SessionStore.DeleteThenLoad | crates/core/src/persist/store.rs:152-161 | after a delete no load finds the id, at any time |
| Validation.Utf8Len | crates/core/src/state.rs:90-92 | `str::len`: the UTF-8 byte count lies between the character count and four times it, and is zero only for the empty string |
| Validation.Utf8LenAscii | crates/core/src/state.rs:90-92 | for ASCII text the byte length equals the character count |
| Validation.Utf8LenNonAscii | crates/core/src/state.rs:90-92 | one non-ASCII character makes the byte length exceed the character count |
| Validation.ValidationRules.Validate | crates/core/src/state.rs:89-97 | `InvalidName` iff the name is out of its inclusive bounds; `InvalidPass` iff the name is in bounds and the password is not; `Valid` iff both are in bounds |
| Validation.ValidationRules.IsValid | crates/core/src/state.rs:100-102 | true iff both lengths are within their inclusive bounds |
| Accounts.FindByName | crates/core/src/state/persist.rs:64-68 | a row found has that username; `None` iff no row has it |
| Accounts.FindById | crates/core/src/state/persist/auth.rs:73-79 | a row found has that id; `None` iff no row has it |
| Accounts.FindByNameUnique | crates/api/src/persist/sql.rs:11-17 | with the UNIQUE keys of the table, looking up a row's username finds that row |
| Accounts.FindByIdUnique | crates/api/src/persist/sql.rs:11-17 | with the primary key, looking up a row's id finds that row |
| Accounts.UserTable.constructor | crates/api/src/persist/sql.rs:11-17 | the created table is empty and its identity starts at 1 |
| Accounts.UserTable.Insert | crates/api/src/persist/sql.rs:21-27 | succeeds iff neither uuid nor username is taken, then appends the row with the next identity and returns it; a violation is `UniqueViolation` with the rows unchanged; the identity advances either way; the keys stay unique |
| CoreDatabase.Database.constructor | crates/core/src/state/persist.rs:27-29 | `new` only wraps the pool |
| CoreDatabase.Database.AddUser | crates/core/src/state/persist.rs:41-51 | inserts one row with the fresh uuid and the given hash: the row is appended and returned iff no UNIQUE key clashes |
| CoreDatabase.Database.GetUser | crates/core/src/state/persist.rs:64-68 | the row with that username, `None` iff there is none |
| CoreDatabase.AddedUserFound | crates/core/src/state/persist.rs:41-68 | once a user is appended with unique keys, looking up its username returns exactly it |
| CoreAuth.Backend.Authenticate | crates/core/src/state/persist/auth.rs:54-71 | a user is returned only if it is the row with that username and the password verifies against its hash; `None` iff there is no such row or verification fails |
| CoreAuth.Backend.GetUser | crates/core/src/state/persist/auth.rs:73-79 | the row with that id, `None` iff there is none |
| CoreAuth.UnknownUserNotVerified | crates/core/src/state/persist/auth.rs:58-63 | an unknown username is refused whatever the password and whatever the verifier |
| CoreAuth.AuthenticateStoredUser | crates/core/src/state/persist/auth.rs:54-71 | for a stored user, authentication returns that row exactly when its hash verifies the password |
| CoreAuth.GetStoredUser | crates/core/src/state/persist/auth.rs:73-79 | every stored row is found by its id |
| CoreState.Context.constructor | crates/core/src/state.rs:29-34 | the context holds a database over the pool and the rules |
| CoreState.Context.SignUp | crates/core/src/state.rs:40-59 | the name is checked first, then the password, with no change to the table; a taken name is `InvalidName` with no change; otherwise the hash of the password is inserted as in `AddUser`, and an added user is then found by its username |
| CoreState.Context.GetUser | crates/core/src/state.rs:65-67 | the database's lookup by username |
| ApiAuth.Auth.Hash | crates/api/src/persist/auth.rs:46-53 | `Some` iff the hasher succeeds, and then its hash; every hasher error is `None` |
| ApiAuth.Auth.Validate | crates/api/src/persist/auth.rs:57-65 | a parsed hash answers whether the password matches; a length error while parsing is `Some(false)`; `None` iff the hash is malformed |
| ApiAuth.HashThenValidate | crates/api/src/persist/auth.rs:46-65 | if the library's hashes parse back and accept their password, a password validates against its own hash |
| ApiPersist.Database.constructor | crates/api/src/persist.rs:61-67 | the database holds the pool and the `Auth` |
| ApiPersist.Database.UsernameTaken | crates/api/src/persist.rs:120-126 | true iff some row has the username |
| ApiPersist.Database.SignUp | crates/api/src/persist.rs:74-95 | a refused hash is `InvalidPassword` and a taken name is `UsernameTaken`, both with no change; otherwise the row with the fresh uuid and the hash is inserted and its uuid answered, or a unique violation is a Postgres error; after success the name is taken and, when the hasher's hashes verify (`HashesVerify`), logging in with the same password answers the same uuid |
| ApiPersist.Database.Login | crates/api/src/persist.rs:102-118 | `UsernameNotFound` iff no row has the username; otherwise the stored hash decides `LoggedIn` with the row's uuid, `IncorrectPassword`, or a hash error |
| ApiPersist.UnknownUserPasswordIgnored | crates/api/src/persist.rs:102-111 | for an unknown username, the answer is `UsernameNotFound` whatever the password |
| ApiPersist.LoginWithStoredPassword | crates/api/src/persist.rs:102-118 | when the hasher's hashes verify (`HashesVerify`), a stored user whose hash was made from the password logs in and gets its own uuid |
| ApiPersist.LoginWithWrongPassword | crates/api/src/persist.rs:113-115 | a stored user whose hash rejects the password gets `IncorrectPassword` |
| TopomaParse.SqlFileName | crates/topoma/src/parse.rs:116-120 | the name always ends in `.sql`; a name already ending so is kept; otherwise `.sql` is appended once |
| TopomaParse.SqlFileNameIdempotent | crates/topoma/src/parse.rs:116-120 | normalising twice equals normalising once |
| TopomaParse.PushPath | crates/topoma/src/parse.rs:114-122 | `PathBuf::push`: an absolute path replaces the base; otherwise the result starts with the base and ends with the path |
| TopomaParse.ParseFromPath | crates/topoma/src/parse.rs:110-130 | an empty path is `EmptyString`, exactly; a file missing below the manifest directory is the "Unable to find specified file" error with the full path; for a file that exists, the result is the parser's statements, or `ParserError` carrying the parser's message; success therefore means the `.sql` file exists and its text parsed to the statements |
| TopomaParse.ErrorAt | crates/topoma/src/parse.rs:30 | an error raised at the cursor starts with `unexpected end of input, ` exactly when no input is left, and is the bare message otherwise |
| TopomaParse.PathErrorMessage | crates/topoma/src/parse.rs:167-175 | the display of a path error: the parser, I/O and variable errors show their own text, `EmptyString` shows `Empty path not allowed` |
| TopomaParse.EmptyPathRefused | crates/topoma/src/parse.rs:71-78 | a `<<` unit with an empty path fails with `Empty path not allowed` |
| TopomaParse.ParseIdent | crates/topoma/src/parse.rs:61 | succeeds iff the next token is an identifier, giving its name |
| TopomaParse.ParseArrowTail | crates/topoma/src/parse.rs:64-78 | succeeds exactly on the second arrow character followed by a string literal whose SQL was obtained, giving that SQL and consuming exactly those two tokens; a missing arrow character is the bare "expected `>`" or "expected `<`", without the end-of-input prefix; a missing literal is "expected string literal" at the cursor; a SQL or path failure is that failure's text |
| TopomaParse.HalfArrowAtEnd | crates/topoma/src/parse.rs:63-65 | `NAME >` at the end of the input fails with "expected `>`" |
| TopomaParse.ParseUnit | crates/topoma/src/parse.rs:51-85 | a unit is an identifier, two equal arrow characters and a literal; `>>` parses the literal as SQL, `<<` reads it as a path; no arrow after the name is the "Unexpected token" error |
| TopomaParse.ParseTerminated | crates/topoma/src/parse.rs:27-28 | `parse_terminated`: empty input gives no units; a failing first unit is that unit's error; a successful parse starts with the first unit; every unit takes four tokens and each unit but the last a comma, so `5 * units <= tokens + 1` |
| TopomaParse.InlineUnitParses | crates/topoma/src/parse.rs:61-70 | an inline unit's four tokens parse back to that unit, leaving the rest of the input |
| TopomaParse.PathUnitParses | crates/topoma/src/parse.rs:71-78 | a `<<` unit whose file exists below the manifest directory and parses yields a unit with that SQL, leaving the rest of the input |
| TopomaParse.ParseInlineUnits | crates/topoma/src/parse.rs:26-29 | inline units listed with commas parse back to themselves, in order |
| TopomaParse.TrailingCommaAllowed | crates/topoma/src/parse.rs:26-29 | a trailing comma after the last unit changes nothing |
| TopomaParse.ParseMonolith | crates/topoma/src/parse.rs:25-41 | a parse error is passed on; fewer than two units is the "Expect table create and table drop statements" error at the end of input; otherwise table, drop and queries are the units in order |
| TopomaParse.RenderedConcat | crates/topoma/src/parse.rs:88-98 | rendering a concatenation is concatenating the renderings |
| TopomaParse.RenderedAround | crates/topoma/src/parse.rs:91-94 | each statement's text appears followed by exactly one space, between the renderings of its neighbours |
| TopomaParse.RenderedSingle | crates/topoma/src/parse.rs:91-94 | one statement renders as its text and a space |
| TopomaParse.RenderedLength | crates/topoma/src/parse.rs:91-94 | the rendering is as long as all texts plus one space per statement |
| TopomaParse.Rendered | crates/topoma/src/parse.rs:90-94 | the built string is empty exactly when there are no statements, and otherwise ends with a space |
| TopomaParse.ConstOf | crates/topoma/src/parse.rs:88-98 | the constant is named after the unit, and its value is as long as all statement texts plus one space each |
| TopomaParse.ToTokens | crates/topoma/src/parse.rs:88-98 | the constant is named after the unit and holds the rendering of its statements |
| Topoma.Expansion | crates/topoma/src/lib.rs:15-19 | two constants more than there are queries: the table's first, the drop's second, then each query's in order |
| Topoma.UnitsOf | crates/topoma/src/lib.rs:16-18 | table first, drop second, then every query in order |
| Topoma.ExpansionOfParse | crates/topoma/src/lib.rs:14-21 | the expansion has one constant per parsed unit, in order, each named after the unit and holding its rendering |
| Topoma.Expand | crates/topoma/src/lib.rs:14-21 | a parse error becomes the compile error; otherwise the output is the expansion of the parsed monolith |
| Topoma.ToTokensAll | crates/topoma/src/lib.rs:16-18 | one constant per unit, in the units' order, each the unit's `ConstOf` |
| ProdAssets.TrimLeadingSlashes | crates/prod/src/lib.rs:35 | the result is a suffix of the path, everything removed is `/`, and it does not start with `/` |
| ProdAssets.NotFound | crates/prod/src/lib.rs:56-58 | status 404 with body `Server Error: 404` |
| ProdAssets.IndexResponse | crates/prod/src/lib.rs:49-54 | the embedded index as HTML with status 200 when present; otherwise the 404 |
| ProdAssets.StaticHandler | crates/prod/src/lib.rs:34-47 | a present asset other than the index is served with status 200, its data, and the first guessed MIME type or `application/octet-stream`; the empty path, `index.html` and unknown assets get the index response |
| ProdAssets.NotFoundOnlyWithoutIndex | crates/prod/src/lib.rs:34-58 | the handler answers 404 iff the index is missing and the request names no other asset |
| ProdAssets.IndexPresentAlwaysOk | crates/prod/src/lib.rs:34-54 | with the index embedded, every request gets status 200 |
| ProdAssets.LeadingSlashesIgnored | crates/prod/src/lib.rs:35 | any number of leading slashes yields the same response |
| ProdAssets.TrimAfterSlashes | crates/prod/src/lib.rs:35 | trimming ignores any run of slashes put in front |
| ViteConfig.TypeOf | client/vite.config.ts:76 | `typeof` is `object` exactly for dates, arrays and tables, and `undefined` exactly for a missing property |
| ViteConfig.IsTomlRecord | client/vite.config.ts:73-86 | true iff the value is present and is a table |
| ViteConfig.GetPorts | client/vite.config.ts:54-71 | defined iff `dev` and `dev.ports` are tables and `server` and `client` are numbers, and then exactly those two numbers |
| ViteConfig.PortsOfWellFormedEnv | client/vite.config.ts:54-71 | a well-formed `env.toml` yields its two ports, whatever else it contains |
| ViteConfig.RewriteApi | client/vite.config.ts:29 | one leading `/api` is removed; any other path is unchanged |
| ViteConfig.RewriteStripsOnePrefix | client/vite.config.ts:29 | `/api` followed by anything is forwarded as that thing |
| ViteConfig.RewriteIsNotSegmentAware | client/vite.config.ts:29 | `/apiary` becomes `ary`, `/api/api/users` loses only the first prefix, and `/v1/api` is kept |
| ViteConfig.Serve | client/vite.config.ts:15-36 | succeeds iff the ports are defined; then the `/api` proxy targets the server port, with change-origin, insecure and websocket set, and the dev server uses the client port with the camel-case CSS modules convention |
| ViteConfig.Build | client/vite.config.ts:88-95 | the build configuration drops exactly `console` |
| ViteConfig.DefineConfig | client/vite.config.ts:7-13 | `serve` for the `serve` command, `build` for any other |
| ViteConfig.ConfigFailsOnlyForServe | client/vite.config.ts:7-36 | only `serve` can fail, and only for want of the ports; the serve configuration is chosen iff the command is `serve` |

## Left out

- Pool, connection and transaction faults are not modelled: `PoolError`, a lost connection and a failed commit never occur. The only Postgres error the session store produces is the one for a missing table.
- The `api` credential code meets only one database error, the unique violation (`DbError`). The `core` code's other `sqlx::Error`s and the `TaskJoin` error of `authenticate` are not modelled.
- SessionStore.PostgresStore.Migrate: the schema and table are created in one transaction, and a concurrent migration is not modelled.
- Concurrency is not modelled. Each call is one atomic step on the database, so two racing sign-ups and a reap racing a load are not modelled beyond that.
- Clocks are not read. A load compares against the application's clock, and the reap against the database's `now()`. Both are the `now` argument, at the column's precision. The reap compares the `timestamptz` column with `now() at time zone 'utc'`, a timestamp without time zone that Postgres reads back in the session's TimeZone (crates/core/src/persist/store.rs:97). Under a session whose TimeZone is not UTC, the reap threshold therefore moves by the session's UTC offset. The model assumes a UTC session.
- Session ids are integers. Their text form, which is the row key, is taken to be injective.
- The MessagePack encoding, `password_auth`, libreauth, the salts they draw and `Uuid::new_v4` are abstract functions or parameters. The model fixes the salt of each hash call and lets the caller choose each uuid.
- Accounts.UserTable.Insert: the `i32` identity column's overflow is not modelled, because the counter is an unbounded integer.
- The `api` `SignUpError::HashError` variant is declared but never produced by `sign_up`; the model declares it and never produces it either.
- TopomaParse.ParseIdent: the keyword list of the Rust tokenizer is not modelled. A keyword is a token of its own kind, so the error text for every other non-identifier token is "expected identifier".
- TopomaParse.ParseFromPath: an unset `CARGO_MANIFEST_DIR` panics in the source and is not modelled; the directory is always given. A `read_to_string` failure on a file that exists (permissions, invalid UTF-8) is not modelled. Paths follow Unix rules; Windows prefixes are not modelled.
- The SQL parser and statement printing are abstract: `MacroEnv.parseSql` and `Statement.text`. Token spans and the way `quote!` builds the output tokens are not modelled.
- The `api` crate's `sql.rs` holds four plain string constants: `CREATE_USER_TABLE`, `DROP_USER_TABLE`, `INSERT_USER` and `USERNAME_QUERY`. Its local `topoma!` is a `macro_rules!` that expands to nothing. `Auth::new` prepares two of the constants as statements (crates/api/src/persist/auth.rs:29-30); that preparation and the constants' SQL text are not modelled. The `users` table they describe is `Accounts.UserTable`, and running the insert and the username query is `UserTable.Insert` and `FindByName`.
- The `core` crate's `sql.rs` invokes the real `topoma!` on four units. That invocation is an input to the macro and is not modelled separately.
- The router construction in `crates/prod/src/lib.rs:28-30` is left out, because it is wiring. So is the HTTP encoding of a `Response`, which is modelled as status, content type and body.
- ViteConfig.Serve: the proxy's logging hooks (`configureProxy`), and the React plugin are not modelled. Of the CSS options, only the camel-case locals convention of CSS modules is kept, as `cssCamelCase`. The target URL is kept as the server port number rather than the formatted string.
- ViteConfig.GetPorts: reading and parsing `env.toml` is not modelled, and its parsed value is the argument. Integers that the TOML parser could return as big integers, and NaN or infinite floats, are not modelled.
- ViteConfig.Serve: the `TypeError` thrown when the ports are missing is modelled as the error `PortsMissing`, not by its message.
