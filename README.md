# Shortlink: a verified model of the link store

Shortlink maps long URLs to short codes, redirects visitors from a short code
to its URL, and counts the visits. All of its state is one table, `links`,
with the columns `(id, short_code, original_url, created_at, clicks)`. Four
request handlers in `server.js` read and change that table:

- `POST /api/shorten` checks the URL and the optional custom code. It then
  either checks the custom code for a collision or draws random codes in a
  bounded retry loop. Finally it inserts the row.
- `GET /api/stats/:shortCode` looks one row up by its code.
- `GET /api/links` lists at most 100 rows, newest first.
- `GET /:shortCode` looks the code up, adds one click and redirects.

The project has four modules:

- `Wrappers` (`wrappers.dfy`) defines `Option`.
- `Validation` (`validation.dfy`) holds the pure input checks: JavaScript
  truthiness of a body field, the URL guard, and the custom-code pattern
  `^[a-zA-Z0-9-_]+$`.
- `Links` (`links.dfy`) defines the `Link` row and the table queries as
  functions over a sequence of rows kept in insertion order. `Find` is
  `SELECT ... WHERE short_code = ?` followed by taking the first row.
  `IncrementClicks` is the `UPDATE`. `NewestFirst` is the `ORDER BY
  created_at DESC LIMIT` query.
- `Server` (`link_store.dfy`) defines the class `LinkStore`. Its fields are
  the rows, the next AUTOINCREMENT id and the clock. Its methods and
  functions are the handlers. `Valid()` is the schema as an object
  invariant: codes are unique (`UNIQUE`), ids ascend and stay below the next
  id, and creation times follow the clock. Three client methods at the end
  (`CustomCodeSession`, `BadCodeSession`, `RedirectSession`) state sample
  request sequences against a fresh store; the verifier derives their
  outcomes from the handlers' contracts alone.

Three foreign inputs are abstract in the model:

- The URI check `validUrl.isUri` is the parameter `isUri: string -> bool`.
  Nothing is assumed about it.
- The random source `nanoid(6)` is the parameter `draw: nat -> string`.
  `draw(k)` is the code returned by the k-th call in one request.
- `CURRENT_TIMESTAMP` is the store's `clock`. Only `AdvanceClock` changes
  it, and only forward.

Two facts about the shorten handler that the model keeps:

- The handler puts no length limit on a custom code, so the model has none.
- The generator draws once and retries at most 5 times, 6 draws in all. The
  last draw is not checked against the table, so its insert can fail with
  the 500 error.

## Model

| member | source | states |
|---|---|---|
| Validation.Truthy | server.js:64 | a body field passes the JavaScript truthiness test exactly when it is present and not the empty string; an empty custom code therefore selects generation |
| Validation.UrlAccepted | server.js:57 | the URL guard: the field is truthy and the abstract URI predicate accepts it |
| Validation.MatchesCodePattern | server.js:66 | the anchored pattern `^[a-zA-Z0-9-_]+$`: at least one character, each a letter, digit, `-` or `_` |
| Validation.CodePatternIsCharset | server.js:66 | the custom-code pattern accepts exactly the non-empty strings of letters, digits, `-` and `_` (both directions) |
| Validation.SampleCodes | server.js:66 | `my-link_1` matches the custom-code pattern and `bad code!` does not |
| Links.Find | server.js:112-118 | the lookup by code returns a position exactly when some row has that code; the row there has the code and no earlier row has it |
| Links.FindUnique | server.js:29 | with codes unique, the lookup returns the one row holding the code |
| Links.AppendNewCode | server.js:91 | appending a row with a new code keeps codes unique, and a lookup of that code then finds the new row |
| Links.IncrementClicks | server.js:160 | the UPDATE keeps every row in place and adds one click to each row whose code matches, leaving the others as they were |
| Links.IncrementOneRow | server.js:160 | with codes unique, the UPDATE changes exactly the matching row, and only its clicks, by +1 |
| Links.ClicksCountRedirects | server.js:159-161 | after n redirects to an existing code its row has exactly n more clicks; every other row is unchanged |
| Links.NewestFirst | server.js:129 | the listing has min(limit, row count) rows, the k-th being the k-th newest inserted row |
| Links.NewestFirstOrdered | server.js:129 | on a table in clock order the listing is ordered by created_at descending |
| Links.NewestFirstMembers | server.js:129-133 | the listing holds only table rows, each at most once when codes are unique, and all rows when there are at most `limit`; an empty table yields an empty list |
| Links.NewestFirstSkipsOnlyOlder | server.js:129 | no row left out of the listing is newer than a row in it |
| Server.LinkStore.Valid | server.js:26-34 | the table schema as an invariant: short_code unique, AUTOINCREMENT ids ascending and below the next id, created_at in clock order and not after the clock |
| Server.LinkStore.constructor | server.js:22-34 | a new store has an empty table that satisfies the schema invariant |
| Server.LinkStore.AdvanceClock | server.js:31 | the creation clock only moves forward; the table is unchanged |
| Server.LinkStore.Insert | server.js:91 | the insert succeeds exactly when the code is new, appending one row whose id, created_at and clicks come from the column defaults (the next id, the current clock, 0); a duplicate violates UNIQUE and changes nothing |
| Server.LinkStore.GenerateCode | server.js:77-86 | at most 6 draws: the result is draw(attempts) with attempts at most 5; every earlier draw collided; if attempts < 5 the code is free; after 5 retries it may still collide |
| Server.LinkStore.Shorten | server.js:53-106 | a bad URL, a bad charset or a taken custom code gives its 400 error; a generated code that still collides gives the 500 error; every failure leaves the table unchanged; a success appends exactly one row (chosen code, given URL, 0 clicks), and a stats lookup of the code then returns that URL; codes stay unique |
| Server.LinkStore.Stats | server.js:109-125 | a known code yields that row's code, URL, clicks and creation time; an unknown code yields the not-found error; no other reply is possible |
| Server.LinkStore.RecentLinks | server.js:128-144 | at most 100 table rows, each listed once, created_at non-increasing, all rows when there are at most 100, and no omitted row newer than a listed one |
| Server.LinkStore.Redirect | server.js:147-165 | an existing code yields its stored URL and raises its row's clicks by exactly 1, leaving every other row and field unchanged; an unknown code yields not-found and changes nothing |

## Left out

- Express plumbing and HTTP reply construction (`app.use`, `res.status`, `res.json`, `res.sendFile`, `res.redirect`, `app.listen`). Each reply is a `Response` value instead: `Ok`, `BadRequest`, `NotFound` or `ServerError`, with the source's message. The redirect is an optional location, where `None` is the 404 page.
- The `shortUrl` field of the shorten reply (server.js:95). It is built from `req.protocol` and the request host, which are request metadata the model does not have.
- File persistence. This covers `saveDatabase`, the load-or-create step of `initDatabase`, and the file reads and writes (server.js:15-43). The model starts from a freshly created table. A `saveDatabase` that throws after an INSERT, which keeps the row in memory but replies 500, is not modelled.
- The sql.js engine. The table is a Dafny sequence of rows and each query is a function over it.
- Server.LinkStore.RecentLinks: returns rows with equal `created_at` in reverse insertion order. SQL leaves that order unspecified, so the contract promises only non-increasing `created_at`.
- Links.NewestFirst: relies on rows being inserted in clock order, which holds because the clock never goes back. A table loaded from a file with arbitrary timestamps is not modelled.
- `nanoid` and `valid-url` are foreign code. They are abstract parameters. The 6-character length and the alphabet of the generated codes are therefore not part of the contracts.
- Request-body fields that are present but are not strings (numbers, objects). These change the JavaScript truthiness test and the regular-expression test, and the model types both fields as optional strings.
- The 64-bit limit on `clicks` and `id`. The model's integers are unbounded, and no reachable click count comes near the limit.
- Concurrent requests. The handlers run one at a time, as they do in the single-threaded source.
- `public/script.js`. It is browser UI: DOM updates, `fetch`, the clipboard and date formatting.
