# gomessenger request validation and work functions in Dafny

This project models two parts of the gomessenger direct-messaging backend.

- **Request validators** (`src/server/validation.go`): the checks that run before login, registration and send-message. Each one is a chain of guards that either accepts the request or rejects it with a connect code (InvalidArgument or Unauthenticated). The first failing guard decides the code.
- **RPC work functions** (`src/server/procedures.go`): `DoRegisterUserWork`, `DoLoginWork`, `DoSendDirectMessageWork`, `DoGetDMsWork` and `DoGetUserInfoWork`. They are modelled as methods of a `Store` class. The class holds the two SQLite tables these functions touch:
  - `users`: a map from phone number to user row;
  - `messages`: a sequence of message rows in row order.

An `INSERT` becomes an update of those fields, and a `SELECT` becomes a pure query function over them (module `Tables`). Each method is proved to return what that function computes.

Outside collaborators become parameters:
- SQLite's `datetime('now')` is `now`;
- the 24-byte random salt is `salt`;
- PBKDF2-SHA512 is `kdf`, a total function that returns a key or an error, called with the iteration count 210000 and the key length 32;
- JWT encoding is `sign`, a function that maps claims with the phone number as subject to a token string or an error;
- whether the database call itself reports an error is `dbFails`.

Files:
- `messaging.dfy`: the values (requests, rows, error kinds, constants).
- `validation.dfy`: the three validators.
- `tables.dfy`: the queries as functions, with lemmas that link one handler to what a later handler sees.
- `procedures.dfy`: the `Store` class.

The model follows the code as written:
- `DoLoginWork` issues a token for a wrong password, because of the test at `procedures.go:81` (see Findings).
- `DoRegisterUserWork` has no duplicate check of its own and no phone-number format check, so a duplicate phone fails as a database error.
- `validation.go` and `procedures.go` contain no live-subscription registry, conversation key, fan-out or token verification, so none of them is modelled.

## Model

| member | source | states |
|---|---|---|
| Validation.ValidateLoginRequest | src/server/validation.go:9-14 | accepts exactly when both password and phone number are non-empty; every rejection is InvalidArgument |
| Validation.ValidateRegistrationRequest | src/server/validation.go:16-21 | accepts exactly when password, phone number and username are all non-empty; every rejection is InvalidArgument |
| Validation.ValidateSendDirectMessageRequest | src/server/validation.go:23-37 | the three outcomes partition the inputs: InvalidArgument iff a field is empty or sender equals receiver; Unauthenticated iff the request is well-formed but the sender is not the token subject; accepted iff well-formed and sent by the subject |
| Validation.SelfSendRejectedForAnySubject | src/server/validation.go:30-32 | a request whose sender equals its receiver is rejected with InvalidArgument, with the same verdict for every token subject |
| Validation.InvalidArgumentTakesPrecedence | src/server/validation.go:27-35 | when a field is empty or sender equals receiver and the sender is also not the subject, the verdict is InvalidArgument and never Unauthenticated |
| Validation.RegistrationAcceptedImpliesLoginAccepted | src/server/validation.go:9-21 | a registration the validator accepts yields a login request, with the same phone and password, that the login validator accepts |
| Tables.Conversation | src/server/procedures.go:122-125 | the query result holds only stored rows that satisfy the WHERE clause, and it is no longer than the table |
| Tables.ConversationComplete | src/server/procedures.go:122-125 | every stored row that satisfies the WHERE clause is in the result |
| Tables.ConversationCount | src/server/procedures.go:122-151 | each matching row appears in the result as many times as it is stored, and a non-matching row never appears |
| Tables.ConversationSymmetric | src/server/procedures.go:122-125 | swapping the request's sender and receiver gives the same rows, because the query binds both orders |
| Tables.ConversationConcat | src/server/procedures.go:133-151 | the result for a table split in two is the result for the first part followed by the result for the second: under the assumed rowid order of the scan, the copy loop keeps the order in which rows arrive |
| Tables.SentMessageReturnedOnce | src/server/server_test.go:76-90 | a message inserted with the next row id at a time inside the window is returned exactly once by a query for the pair, in either argument order |
| Tables.Registered | src/server/procedures.go:36-43 | the insert adds the phone number to the keys, stores under it exactly the row (phone number, username, hash, salt), leaves every other row unchanged, and keeps every row stored under its own phone number |
| Tables.LoginAsWritten | src/server/procedures.go:64-95 | "User not found" when no row has the phone; a token exactly when a row exists, key derivation succeeds (or fails against an empty stored hash) and signing succeeds; the token is signed for the requested phone |
| Tables.LoginAsWrittenIgnoresPassword | src/server/procedures.go:79-81 | for an existing phone, two passwords that both derive some key give identical login outcomes |
| Tables.LoginAsWrittenAcceptsWrongPassword | src/server/procedures.go:81 | concrete case: after registering 111-111 with "pw1", a login with "wrong" derives a different key and still receives a token |
| Tables.LoginIntended | src/server/procedures.go:81 | corrected test: a token only when the presented password derives exactly the stored key under the stored salt and signing succeeds |
| Tables.RegisterThenLogin | src/server/procedures.go:21-95 | after a registration, the corrected test accepts the registered password and refuses any password that derives a different key, while the test as written accepts both |
| Tables.UserInfoOf | src/server/procedures.go:160-187 | NotFound iff no row has the phone; Unknown iff the row's phone number or username is empty; otherwise exactly the stored phone number and username, both non-empty |
| Tables.RegisterThenUserInfo | src/server/procedures.go:36-55 | a registered user's info reads back as registered, or Unknown if the phone number or username was empty |
| Procedures.Store.RegisterUser | src/server/procedures.go:21-56 | a KDF error leaves both tables unchanged and returns the KDF error; an insert error, or a phone that is already present, leaves them unchanged and returns the database error; otherwise exactly the new row is inserted and the result is the token signed for that phone and username, or the signing error, in which case the row stays; messages never change |
| Procedures.Store.Login | src/server/procedures.go:58-96 | reads only; a query error is returned unchanged, otherwise the outcome is LoginAsWritten; any token is signed for the requested phone and its stored username |
| Procedures.Store.SendDirectMessage | src/server/procedures.go:98-113 | on success exactly one row (next id, sender, receiver, content, now) is appended and the response is empty; an insert error yields InvalidArgument and no change; users never change |
| Procedures.Store.GetDMs | src/server/procedures.go:115-153 | reads only; a query error yields Unknown, otherwise the loop returns exactly Conversation over the whole table, each message copied unchanged |
| Procedures.Store.GetUserInfo | src/server/procedures.go:155-188 | reads only; a query error is returned unchanged, otherwise the outcome is UserInfoOf, and a successful answer carries the requested phone number |

The validators are Dafny functions without a `reads` clause. They depend only on the request and the token subject, and they cannot change the store.

## Findings

| source | as written | input that shows it | evidently intended | confidence | as-written member | corrected member |
|---|---|---|---|---|---|---|
| src/server/procedures.go:81 | the test `err == nil` is or-ed with the hash comparison, so a token is issued whenever key derivation succeeds | register 111-111 with "pw1", then log in as 111-111 with "wrong" | both `err == nil` and the hash comparison must hold | high (not executed) | Tables.LoginAsWrittenAcceptsWrongPassword | Tables.LoginIntended |

`Procedures.Store.Login` keeps the behaviour as written, because that is what the handler does. `Tables.LoginIntended` states the corrected test. `Tables.RegisterThenLogin` proves, after registration, that the corrected test accepts exactly the registered password, while the test as written also accepts other passwords.

## Left out

- `src/server/server.go` is the older revision of the same handlers. It is not modelled: its constants clash with `procedures.go`, and its send passes four arguments to a three-placeholder insert.
- `src/server/routes.go`, `src/main.go`: HTTP routing, static files, middleware, rate limiting and shutdown (I/O plumbing).
- `src/server/auth.go`:
  - `CheckUserExists` is key membership in `users`.
  - `GenJWTString` is the `sign` parameter applied to the claims (subject = phone number, username).
  - The issue and expiry times come from the wall clock and are not modelled.
- Cryptography: PBKDF2-SHA512 and `crypto/rand` are the `kdf` and `salt` parameters. No property of the real KDF (collision resistance, determinism beyond being a function) is assumed.
- Database errors: the model does not say when the database fails. Each handler takes `dbFails`, except for the one failure the table model decides itself: inserting a phone number that is already present.
- Table schema: the schema file `src/data/database.sql` is not part of this model. The model assumes:
  - `phone_number` is unique in `users`;
  - `SELECT *` on `users` yields phone number, username, password and salt, in the order `procedures.go` scans them;
  - message ids are row ids 1, 2, 3, … with no deletions.
- Row order of GetDMs: the query at `procedures.go:122-125` has no `ORDER BY`, so SQLite's row order is unspecified, and an index in the schema could change it. The model assumes the rows arrive in rowid order, which is insertion order. `Tables.ConversationComplete`, `Tables.ConversationCount` and `Tables.ConversationSymmetric` hold in any order; `Tables.ConversationConcat` and the sequence equality in `Procedures.Store.GetDMs` rest on this assumption.
- Procedures.Store.GetDMs: does not model a failing `rows.Scan`, which would return the partial result with Unknown (`procedures.go:138-140`). Rows written through this model never hold NULL values. An iteration error that ends `rows.Next()` early is not modelled either.
- Timestamps are integers. SQLite's textual datetime comparison and the format of `FromDate` are not modelled.
- `context.Context` cancellation and concurrent access to the database are not modelled.
- Nil request messages (a Go panic) are not modelled.
- Live-subscription registry, conversation keys, fan-out and token verification: `validation.go` and `procedures.go` contain none of them.
