# User API request handling, modelled in Dafny

This project models the request-handling layer of a small user-record HTTP
service written in Go: `handler.go`. It covers the field validation
(`validateUser`), the parsing of the `{id}` path segment (`parseID`, that is
`strconv.Atoi`), and the six handlers (create, list, get, update, delete,
health). Each handler is modelled as the mapping from its request pieces and
the store's answer to one status code and body.

The MySQL store is outside the code, so the model treats it as inputs. A decoded
JSON body arrives as an `Option<User>`, and each store call's answer arrives as a
value: an exec result, a row result, the scans of a query, or a ping result. A
second layer, the `UserTable` class, stands in for the `users` table. It holds a
map from id to user, the auto-increment counter, the store's reachability and
whether an update reports the rows it matched or only those it changed.
It runs the same handlers against that table, so whole request sequences can be
stated and proved.

Modules, one file each:

- `wrappers.dfy`, module `Wrappers`: `Option` and `Result`.
- `text.dfy`, module `Text`: `strings.TrimSpace` over the white-space set of
  `unicode.IsSpace`.
- `ints.dfy`, module `Ints`: Go's 64-bit `int` and `uint64`, and the
  `uint64(x)`/`int64(x)` conversions with their modulo-2^64 wrap-around. It also
  has `strconv.Atoi` and, for clients that write ids, `strconv.Itoa`.
- `users.dfy`, module `Users`: the `User` record, the three validation messages
  and `ValidateUser`.
- `handlers.dfy`, module `Handlers`: responses, store commands and outcomes, and
  the handlers.
  - Each handler that takes an id or a body has a `…Step` function. It runs the
    checks in the source's order and either answers at once or names the
    statement it sends to the store. "No store call" means the step is a `Reply`.
  - The listing loop of `getUsers` is a method with a loop.
- `store.dfy`, module `Store`: the map-backed table and its handler methods. It
  also holds the request-sequence properties: create then get, delete twice,
  update then get, update of a missing id, and a listing that is sorted and
  complete.

Details of the code that the model keeps as written:

- The malformed-body message of create ends with a period, and update's does not.
- `getUsers` silently skips rows whose scan fails. It answers 500 only when the
  query fails or when `rows.Err()` reports an error after the loop.
- `uint64(id)` on update takes the path id as a signed `int`. A negative id
  would wrap around if the store ever reported a touched row for it.

## Model

| member | source | states |
|---|---|---|
| `Text.TrimLeft` | handler.go:33-38 | the leading part dropped is all white space, and what is left is a suffix that does not start with a space |
| `Text.TrimRight` | handler.go:33-38 | the trailing part dropped is all white space, and what is left is a prefix that does not end with a space |
| `Text.TrimSpace` | handler.go:33-38 | `TrimSpace(s)` is the piece of `s` that starts where the leading white space ends, with only white space before and after it (`PaddedAt`); it is empty exactly when `s` is all white space, and otherwise starts and ends with a non-space |
| `Text.TrimSpaceIdempotent` | handler.go:33-38 | trimming a trimmed string changes nothing |
| `Text.TrimSpaceIgnoresPadding` | handler.go:33-38 | only surrounding white space is removed: padding with blanks on either side does not change the result |
| `Ints.ToUint64` | handler.go:69-70 | `uint64(x)` is congruent to `x` modulo 2^64 and leaves a non-negative value unchanged |
| `Ints.ToInt64` | handler.go:69-70 | `int64(x)` of an unsigned value is congruent to it modulo 2^64 and leaves values up to 2^63-1 unchanged |
| `Ints.ConversionsRoundTrip` | handler.go:69-70 | an auto-increment id that goes out as `LastInsertId` (int64) and comes back through `uint64(id)` is unchanged, and so is the reverse trip |
| `Ints.Atoi` | handler.go:24 | only an optional sign followed by decimal digits is accepted; a negative result comes from a leading `-` |
| `Ints.AtoiAcceptsEveryLiteral` | handler.go:24-28 | conversely, every optional sign followed by decimal digits whose value fits in an int is accepted with that value |
| `Ints.AtoiItoa` | handler.go:24-28 | every 64-bit int written in decimal is read back as that same int |
| `Ints.AtoiLeadingZeroAndPlus` | handler.go:24 | leading zeros and a leading `+` are accepted and do not change the value |
| `Ints.AtoiRejectsOverflow` | handler.go:24-28 | digit strings beyond the int range are refused instead of wrapping: from 2^63 on when unsigned or after `+`, from 2^63 + 1 on after `-` |
| `Users.ValidateUser` | handler.go:32-43 | returns `""` exactly when the name and email are non-blank and the email contains `@`; otherwise returns the message of the first failing rule, checked in the order name, blank email, missing `@` |
| `Handlers.WriteJSON` | handler.go:14-20 | the response carries exactly the given status and the given value as its body |
| `Handlers.HttpError` | handler.go:26 | an error answer (this and every other `http.Error` call) carries exactly the given status and the given text as a plain message |
| `Handlers.ParseId` | handler.go:22-30 | succeeds exactly when `Atoi` does, with Atoi's value; otherwise 400 "Invalid ID" |
| `Handlers.ParseIdAcceptsEveryInt` | handler.go:22-30 | every int a client writes in decimal reaches the store as that id |
| `Handlers.CreateStep` | handler.go:46-62 | the store is called exactly when the body decodes and validates, and only name, email and age are inserted |
| `Handlers.CreateUser` | handler.go:46-73 | undecodable body: 400 with the fixed message; invalid body: 400 with the validation message; insert error: 500 with a fixed message; 201 exactly when the body is valid and the insert succeeds, with `ID = uint64(LastInsertId)`; no error text comes from the store |
| `Handlers.CreateIgnoresClientId` | handler.go:59-70 | two bodies that differ only in `id` send the same insert and get the same answer |
| `Handlers.ScannedUsersAppend` | handler.go:89-97 | the listing keeps row order: the users of two runs of rows are those of the first run followed by those of the second |
| `Handlers.ScannedUsersExact` | handler.go:89-97 | a user is listed exactly when some row scanned to it, and every row is listed when no scan fails |
| `Handlers.GetUsers` | handler.go:76-106 | query error: 500; error after iteration: 500 and no partial list; otherwise 200 with the users of the rows that scanned, in row order, starting from an empty list |
| `Handlers.GetStep` | handler.go:109-118 | the store is queried exactly when the id parses, and for that id |
| `Handlers.GetUser` | handler.go:109-131 | bad id: 400; with a good id, 404 exactly for `sql.ErrNoRows`, 500 exactly for other errors, 200 with the row exactly when it is found; a missing row is never a 500 |
| `Handlers.UpdateStep` | handler.go:134-155 | the checks run in the order id, body, validation, and the first failure answers; the store write happens exactly when all three pass, with the path id and the body's name, email and age |
| `Handlers.UpdateUser` | handler.go:134-170 | the early answers of `UpdateStep`; then exec error: 500; zero rows affected: 404; otherwise 200 with the body's fields and `ID = uint64(path id)`, overriding any id in the body |
| `Handlers.DeleteStep` | handler.go:173-179 | the store is asked to delete exactly when the id parses, and for that id |
| `Handlers.DeleteUser` | handler.go:173-193 | bad id: 400; with a good id, 500 exactly for an exec error, 404 exactly for zero rows affected, and otherwise 204 with no body |
| `Handlers.HealthCheck` | handler.go:196-208 | 200 `{"status":"OK"}` exactly when the ping succeeds and 503 `{"status":"DB_UNAVAILABLE"}` exactly when it fails; nothing else is consulted |
| `Store.InsertResult` | handler.go:59-70 | an insert succeeds exactly when the store is reachable and ids remain; the reported `LastInsertId` converts back to the new id, and one row is affected |
| `Store.SelectResult` | handler.go:116-118 | a select by id finds the row exactly when the store is reachable and the id is stored, and reports no rows exactly when it is reachable and the id is absent |
| `Store.UpdateResult` | handler.go:151-162 | an update fails exactly when the store is unreachable; otherwise it reports zero rows exactly when the id is absent or, when the table counts changed rows, when the body repeats the stored name, email and age |
| `Store.DeleteResult` | handler.go:179-186 | a delete on a reachable store affects zero rows exactly when the id is absent |
| `Store.UsersInIdOrderExact` | handler.go:77-97 | the table's listing is sorted by id, holds every stored user and holds nothing else |
| `Store.UserTable.AddRow` | handler.go:59-62 | an insert stores the user under the next id and advances the counter, keeping every stored user valid |
| `Store.UserTable.Overwrite` | handler.go:151-154 | an update rewrites name, email and age of the row and keeps its id |
| `Store.UserTable.Create` | handler.go:46-73 | answers as `CreateUser` with the table's insert outcome; a row is added exactly when the answer is 201, under the returned id |
| `Store.UserTable.List` | handler.go:76-106 | answers 200 with the stored users in id order, or 500 when the store is unreachable |
| `Store.UserTable.Get` | handler.go:109-131 | answers as `GetUser` with the table's select outcome |
| `Store.UserTable.Update` | handler.go:134-170 | answers as `UpdateUser` with the table's affected-rows count (changed rows, or matched rows when `foundRows` is set); only a matched row changes and no row is created |
| `Store.UserTable.Delete` | handler.go:173-193 | answers as `DeleteUser` with the table's outcome and removes the row exactly when the store is reachable |
| `Store.UserTable.Health` | handler.go:196-208 | answers from reachability alone, whatever earlier requests did |
| `Store.ListAll` | handler.go:76-106 | a listing holds every stored user once, sorted by id, and is `[]` for an empty table |
| `Store.CreateThenGet` | handler.go:46-131 | a created user gets a positive id, and a GET with that id answers 200 with the same user |
| `Store.DeleteTwice` | handler.go:173-193 | deleting the same stored id twice answers 204 and then 404 |
| `Store.UpdateThenGet` | handler.go:134-170 | after a PUT on a stored id the next GET returns the body under the path id; the PUT answers 200 with that same user when the table counts found rows or the body changes a field, and 404 when it counts changed rows and nothing changes |
| `Store.UpdateMissing` | handler.go:162-166 | a valid PUT on an absent id answers 404 and leaves the table unchanged, whichever rows the table counts |
| `Store.UnchangedUpdateReadsAsMissing` | handler.go:162-166 | if RowsAffected counts changed rows, a PUT that repeats a user's stored values answers 404 |
| `Store.UpdateNotFoundIffMissing` | handler.go:162-166 | if RowsAffected counts matched rows, a valid PUT answers 404 exactly when the id is absent and 200 exactly when it is present |

## Left out

- JSON encoding and decoding are left out. A body is either a decoded `User` or
  a failure, and a response body is the value that would be encoded. The write
  headers of `writeJSON` and `http.Error` are reduced to the shape of the `Body`
  value (plain-text message, JSON, or none). So is the trailing newline that
  `http.Error` adds.
- Logging is left out, including the logged-only failure of `rows.Close` and of
  the final JSON encoding: neither changes the status or the body.
- `LastInsertId` and `RowsAffected` errors are ignored by the source (`_`). The
  model takes their values directly.
- Routing with `mux.Vars` is left out. The id segment arrives as a string. The
  `/healthy` route that registers the health handler is routing glue.
- `main.go` and `db.go` are not part of this model. That covers environment
  variables, pool sizing, the startup ping and the second set of handlers in
  `main.go`. Of the connection string only its effect on the update's
  affected-rows count is kept, as `UserTable.foundRows`.
- Concurrency and the connection pool are left out. The table model is
  sequential.
- Go strings are UTF-8 bytes. Here they are sequences of Unicode scalar values,
  so invalid UTF-8 is not modelled.
- Go's `int` and `uint` are taken as 64-bit, as on the 64-bit platforms the
  service targets.
- The listing query has no `ORDER BY`, so its row order is the store's. The table
  model lists in ascending id order, which is one such order.
- Ids from 2^63 on can be created through the int64/uint64 round trip, but
  `Atoi` refuses them, so the id routes cannot reach them. `Store.CreateThenGet`
  therefore requires the next id to fit in an `int`.
- The store's reachability is fixed per `UserTable`. The store going down
  between two requests is modelled by two tables.
- Request sequences are not replayed with literal values (a user named "Ada"
  under id 1, say). The same sequences are proved for all inputs by
  `Store.CreateThenGet`, `Store.UpdateThenGet` and `Store.DeleteTwice`.
- Store.UserTable.Update: under the changed-rows count it compares the new name,
  email and age with the stored ones as they are. MySQL compares the values
  after conversion to the column types, and the table's schema is not part of
  this model, so a value the column would truncate or convert is not modelled.

## Findings

| source | as written | input that shows it | evidently intended | confidence | as-written member | corrected member |
|---|---|---|---|---|---|---|
| handler.go:162-166 | `rows == 0` is read as "no such user". The connection string (main.go:40-42, db.go:24) sets only `parseTime=true`, so it keeps MySQL's default affected-rows count, which counts only rows whose values change. | `PUT /users/1` with the name, email and age that user 1 already has: the statement matches the row but changes nothing, so the answer is 404 | 404 only when no row has the id, that is, count matched rows (the driver's `clientFoundRows=true`) | medium, not executed; rests on the documented MySQL and driver defaults | `Store.UnchangedUpdateReadsAsMissing` | `Store.UpdateNotFoundIffMissing` |
