# ic_crypto_index: a model of the request handlers

The service keeps three tables in stable key-value maps: price records
(open/high/low/close observations of a symbol on a date), users and API
keys. Its HTTP routes validate a request, read or write one table (the API
key route also reads the user table) and answer with a status and a JSON
body. This project models that layer in Dafny and proves what each route
does to the tables and what it answers.

- `Wrappers` (`wrappers.dfy`): `Option` and `Result`.
- `StoreOrder` (`store_order.dfy`): the order in which a table's `values()`
  lists its entries. Keys are compared lexicographically by character
  (`Below`). It is proved a strict total order. `SortedKeys` is the unique
  increasing listing of a key set, and `Values` lists the stored values
  in that key order.
- `Util` (`util.dfy`): `validateEmail` as `ValidateEmail`, proved equal to
  "the unanchored pattern `\S+@\S+\.\S+` matches somewhere" (`EmailShape`,
  with JavaScript's `\s` character set). Also `hashPassword`,
  `isValidDate` and `getCurrentDate`.
- `Models` (`models.dfy`): the `Crypto`, `User` and `ApiKey` records. The
  `User` constructor is `NewUser`, which returns its
  'Invalid email format' error as a `Failure` instead of throwing.
- `Handlers` (`handlers.dfy`): class `Storages` with the three tables as
  `map` fields and one method per route. `Valid()` is the invariant every
  route keeps:
  - each record is stored under its own id;
  - stored price records passed the input check;
  - stored users have a username and an e-mail-shaped mail;
  - every API key names a stored user. Users are never removed, so this
    holds.
  The module also holds the pure parts: `ValidOhlcBody`, the input guard
  of `POST /ohlc` and `PUT /ohlc/:id` (src/index.ts:109, 139), whose
  outcome the 400 postconditions of `PostOhlc` and `PutOhlc` state; the
  symbol `filter`; the username `find`; and the lemmas about them.
- `Scenarios` (`scenarios.dfy`): request sequences against any valid
  or a fresh service, proved from the route contracts alone.

Inputs the program takes from its host are parameters:
- the fresh ids and the salt that `uuidv4` would draw;
- the host clock in nanoseconds (`icTime`) and `Date.now()` in
  milliseconds (`nowMs`);
- the result of `Date.parse`, carried in the request as
  `DateText.parsed` (`None` where it gives NaN);
- the result of `isNaN` on a price, carried as `Price.nan`.

A request field that is missing is the empty string. Both fail the
handlers' `!field` test.

Behaviour worth knowing:
- `PUT /ohlc/:id` checks the body before it looks the id up. A bad body
  answers 400 even for an unknown id.
- `PUT` replaces every field but the id, so the stored record equals what
  `POST` would have stored under that id at that time.
- `GET /ohlc/:id` answers only id, symbol, date and creation date.
  `GET /ohlc?symbol=` answers full records.
- An API key's `createdAt` comes from the host clock, but its `expiresAt`
  comes from `Date.now()` plus thirty days. The two differ by exactly
  thirty days only when the two clocks agree (`PostApiKey`'s last
  postcondition).
- Usernames are not unique. `POST /apikeys` only asks whether some user
  has the name.

## Model

| member | source | states |
|---|---|---|
| `StoreOrder.BelowIrreflexive` | src/index.ts:240 | no key sorts before itself |
| `StoreOrder.BelowTransitive` | src/index.ts:240 | the key order is transitive |
| `StoreOrder.BelowTotal` | src/index.ts:240 | of two different keys, one sorts before the other |
| `StoreOrder.LeastExists` | src/index.ts:240 | every non-empty key set has a smallest key |
| `StoreOrder.LeastUnique` | src/index.ts:240 | a key set has at most one smallest key |
| `StoreOrder.Least` | src/index.ts:240 | yields the smallest key of a non-empty key set |
| `StoreOrder.SortedKeys` | src/index.ts:240 | lists each key of the set exactly once, in strictly increasing order |
| `StoreOrder.IncreasingUnique` | src/index.ts:240 | two strictly increasing listings of the same keys are equal, so the order `values()` uses is determined by the keys |
| `StoreOrder.Values` | src/index.ts:214 | `values()` lists as many values as the table has keys; every listed value is stored and every stored value is listed; the list is the values under a strictly increasing listing of exactly the table's keys, which `IncreasingUnique` makes unique |
| `Util.MatchShrinks` | src/index.ts:8 | any match of the e-mail pattern can be cut down to one character before the '@' and one after the '.' |
| `Util.ShortestMatchGrows` | src/index.ts:8 | that shortest form is itself a match of the pattern |
| `Util.ShapeIsShortestMatch` | src/index.ts:8 | the pattern matches somewhere exactly when some '@' has a non-whitespace character before it, a '.' after it with only non-whitespace between, and a non-whitespace character after the '.' |
| `Util.ValidateEmail` | src/index.ts:7-10 | `validateEmail` holds exactly when some substring is non-whitespace, '@', non-whitespace, '.', non-whitespace: the unanchored match of `\S+@\S+\.\S+` |
| `Util.EmailShapeUnanchored` | src/index.ts:8 | the match is unanchored: text before or after a matching mail does not stop it matching |
| `Util.HashPassword` | src/index.ts:21-24 | the placeholder hash has the password as its prefix and the salt as its suffix, so it reveals the password |
| `Util.HashPasswordInjective` | src/index.ts:21-24 | under one salt, two passwords have the same hash exactly when they are equal |
| `Util.CurrentDate` | src/index.ts:16-19 | the date is the host's nanosecond clock in whole milliseconds, the fraction cut off |
| `Models.NewUser` | src/index.ts:35-45 | the constructor fails with 'Invalid email format' exactly when the mail lacks the e-mail shape; otherwise it keeps id, username, mail, date and salt and stores the password hashed under the salt |
| `Handlers.ValidUserBody` | src/index.ts:189-192 | the body is refused exactly when the username or password is missing or empty, or the mail does not match the e-mail pattern |
| `Handlers.FilterBySymbol` | src/index.ts:241 | keeps exactly the records that have the symbol, and no others |
| `Handlers.KeysWithSymbol` | src/index.ts:241 | keeps exactly the listed keys whose records have the symbol, and keeps an increasing listing increasing |
| `Handlers.FilterValuesAt` | src/index.ts:240-241 | filtering the values under a key listing gives the values under the filtered listing |
| `Handlers.ListedInKeyOrder` | src/index.ts:240-243 | the filtered `values()` equals `values()` of the table cut down to the records with that symbol: exactly those records, in key order |
| `Handlers.FindByUsername` | src/index.ts:215 | finds nothing exactly when no user has the username; otherwise finds the first user that has it |
| `Handlers.FindInValues` | src/index.ts:214-215 | searching the user table's values finds a user exactly when some stored user has the username |
| `Handlers.Storages.constructor` | src/index.ts:85-87 | three empty tables that satisfy the invariant |
| `Handlers.Storages.PostOhlc` | src/index.ts:104-130 | a bad symbol, a NaN price or an unparseable date gives 400 and changes no table; otherwise it adds exactly one key, the fresh id, and answers 201 with the stored record, whose id is that key and whose other fields come from the body and the clock |
| `Handlers.Storages.PutOhlc` | src/index.ts:133-165 | a bad body gives 400 even for an unknown id; a good body for an unknown id gives 404 with no change; otherwise it answers 200 and the record under the id keeps that id, takes symbol, prices and date from the body and the current time as creation date, and no other key is added, removed or changed |
| `Handlers.Storages.DeleteOhlc` | src/index.ts:168-182 | an unknown id gives 404 with no change; otherwise it removes exactly that key, leaves every other entry and answers 204 |
| `Handlers.Storages.PostUser` | src/index.ts:185-201 | an empty username or password, or a mail without the e-mail shape, gives 400 and changes no table; otherwise it adds exactly one user under the fresh id, with the password hash equal to password followed by salt, and answers 201 with it |
| `Handlers.Storages.PostApiKey` | src/index.ts:204-229 | an empty username gives 400; a username no stored user has gives 404; neither changes the key table. Otherwise it adds exactly one key for that username, created now and expiring thirty days after `Date.now()`, and answers 201. The user and price tables are never changed |
| `Handlers.Storages.FindUser` | src/index.ts:214-215 | the search of the user table finds a user exactly when some stored user has the username, and what it finds is a stored user with that name |
| `Handlers.Storages.ListBySymbol` | src/index.ts:232-244 | a missing or empty symbol gives 400; otherwise 200 with exactly the stored records that have the symbol, in key order, possibly none; it changes nothing |
| `Handlers.Storages.GetOhlc` | src/index.ts:247-263 | an unknown id gives 404; otherwise 200 with only the id, symbol, date and creation date of the stored record; it changes nothing |
| `Scenarios.NoAtSignNoEmail` | src/index.ts:8 | a mail without '@' never has the e-mail shape |
| `Scenarios.CreateThenGet` | src/index.ts:247-262 | in any valid state, fetching a record just created returns its id, symbol, date and creation date |
| `Scenarios.UpdateThenDelete` | src/index.ts:133-182 | in any valid state, an update of a record just created keeps the id and replaces the symbol; after a delete, fetching and deleting the id again both give 404 |
| `Scenarios.ApiKeyScenario` | src/index.ts:185-229 | after creating "alice", a key for "alice" is issued and expires thirty days after it is created when the clocks agree; a key for "bob" gives 404, and the key table then holds alice's key alone |
| `Scenarios.RejectedMail` | src/index.ts:190-192 | a user with mail "not-an-email" gives 400 and the user table stays empty |

## Left out

- The server wiring is not modelled: `Server`, `app.listen`, JSON body parsing and route dispatch (src/index.ts:92-95, 265).
- The router from `./api` is mounted at '/' (src/index.ts:4, 95). `./api` is not part of this model.
- The error middleware and the 500 path are not modelled (src/index.ts:98-101, `next(error)` in every catch). The handlers call a `next` that is not in scope, and the middleware is registered before the routes.
- A listing of price records by date range is described for this service, but src/index.ts has no such route, so it is not modelled.
- `Handlers.Storages.PostOhlc`: requires that the fresh id is not already a key. A `uuidv4` collision, where the insert would overwrite a record, is not modelled.
- `Handlers.Storages.PostUser`: requires that the fresh id is not already a key, for the same reason.
- `Handlers.Storages.PostApiKey`: requires that the fresh id is not already a key, for the same reason.
- `Util.IsValidDate`: it is the outcome of `Date.parse`, taken as an input (`DateText.parsed`), and has no property beyond that definition.
- `Util.CurrentDate`: converting the nanosecond `bigint` to a floating-point number and dividing it is modelled as exact integer division. Rounding in that conversion is not modelled.
- `Date.parse` and `isNaN` are host and floating-point behaviour. Their outcomes are inputs (`DateText.parsed`, `Price.nan`), and prices are opaque values.
- Request fields are strings. Non-string JSON values are not modelled: numbers, booleans, objects, and a repeated `symbol` query parameter, which arrives as an array. JavaScript truthiness is modelled only as "the empty or missing string is falsy".
- Strings are sequences of Unicode scalar values, not UTF-16 code units. No JavaScript whitespace character lies outside the basic plane, so `\S` classifies text the same way.
- The tables' durability and internal layout are not modelled. `values()` is modelled as the entries in ascending lexicographic key order.
- Every store call is one atomic map update. There is no concurrency to model.
