/**
 * The request handlers of the service, as operations on its three tables.
 *
 * `Storages` holds the price, user and API-key tables; each route is one
 * method that validates its input, reads or writes the tables and returns
 * an HTTP status with a body. Fresh ids, the host clock (nanoseconds) and
 * `Date.now()` (milliseconds) are parameters. A request field that is
 * missing is the empty string here: both fail the handlers' `!field` test.
 */
module Handlers {
  import opened Wrappers
  import opened Util
  import opened Models
  import opened StoreOrder

  /** A reply: a status with a JSON body, or a status with `{ error: ... }`. */
  datatype Response<T> = Ok(status: nat, body: T) | Error(status: nat, error: string)

  /** The lifetime of an API key: thirty days in milliseconds. */
  const ThirtyDaysMs: int := 1000 * 60 * 60 * 24 * 30

  /** The body of `POST /ohlc` and `PUT /ohlc/:id`. */
  datatype OhlcBody = OhlcBody(
    symbol: string,
    open: Price,
    close: Price,
    high: Price,
    low: Price,
    idxDate: DateText)

  /** The body of `POST /users`. */
  datatype UserBody = UserBody(username: string, password: string, mail: string)

  /** What `GET /ohlc/:id` returns: a record without its prices. */
  datatype CryptoDetails = CryptoDetails(id: string, symbol: string, idxDate: int, createdAt: int)

  /** A symbol and four prices none of which is NaN. */
  predicate SymbolAndPrices(symbol: string, open: Price, close: Price, high: Price, low: Price)
  {
    symbol != "" && !open.nan && !close.nan && !high.nan && !low.nan
  }

  /** The input check shared by `POST /ohlc` and `PUT /ohlc/:id`: a symbol,
      four prices that are not NaN and a date that parses. */
  predicate ValidOhlcBody(b: OhlcBody)
  {
    SymbolAndPrices(b.symbol, b.open, b.close, b.high, b.low) && IsValidDate(b.idxDate)
  }

  /** The input check of `POST /users`: a username, a password and a mail
      that the e-mail pattern matches. */
  predicate ValidUserBody(b: UserBody): (ok: bool)
    ensures !ok <==> b.username == "" || b.password == "" || !EmailShape(b.mail)
  {
    b.username != "" && b.password != "" && ValidateEmail(b.mail)
  }

  /** Every field of `c` but its id comes from `b`, and it was stamped at `now`. */
  ghost predicate Carries(c: Crypto, b: OhlcBody, now: int)
  {
    b.idxDate.parsed.Some?
    && c.symbol == b.symbol && c.open == b.open && c.close == b.close
    && c.high == b.high && c.low == b.low
    && c.idxDate == b.idxDate.parsed.value && c.createdAt == now
  }

  /** A stored price record passed the input check when it was written. */
  ghost predicate Admitted(c: Crypto)
  {
    SymbolAndPrices(c.symbol, c.open, c.close, c.high, c.low)
  }

  /** Some stored user has this username. */
  ghost predicate HasUser(users: map<string, User>, username: string)
  {
    exists k | k in users :: users[k].username == username
  }

  // ---------------------------------------------------------------------
  // GET /ohlc?symbol=: the filter over the table's values

  /** The `filter` of `GET /ohlc`: the records whose symbol is `symbol`,
      in their order. */
  function FilterBySymbol(records: seq<Crypto>, symbol: string): (out: seq<Crypto>)
    ensures |out| <= |records|
    ensures forall r | r in out :: r in records && r.symbol == symbol
    ensures forall r | r in records && r.symbol == symbol :: r in out
  {
    if records == [] then []
    else if records[0].symbol == symbol then [records[0]] + FilterBySymbol(records[1..], symbol)
    else FilterBySymbol(records[1..], symbol)
  }

  /** The keys of `ks`, in order, whose records have `symbol`. */
  function KeysWithSymbol(m: map<string, Crypto>, ks: seq<string>, symbol: string): (out: seq<string>)
    requires forall k | k in ks :: k in m
    ensures forall k :: k in out <==> k in ks && m[k].symbol == symbol
    ensures Increasing(ks) ==> Increasing(out)
  {
    if ks == [] then []
    else
      var rest := KeysWithSymbol(m, ks[1..], symbol);
      assert Increasing(ks) ==> forall k | k in rest :: Below(ks[0], k) by {
        if Increasing(ks) {
          forall k | k in rest
            ensures Below(ks[0], k)
          {
            var i :| 0 <= i < |ks| - 1 && ks[1..][i] == k;
            assert ks[i + 1] == k;
          }
        }
      }
      if m[ks[0]].symbol == symbol then [ks[0]] + rest else rest
  }

  /** The records of `m` that have `symbol`, as a table of their own. */
  function WithSymbol(m: map<string, Crypto>, symbol: string): map<string, Crypto>
  {
    map k | k in m && m[k].symbol == symbol :: m[k]
  }

  /** Filtering the values listed under `ks` lists the values under the
      filtered keys. */
  lemma {:induction false} FilterValuesAt(m: map<string, Crypto>, ks: seq<string>, symbol: string)
    requires forall k | k in ks :: k in m
    ensures FilterBySymbol(ValuesAt(m, ks), symbol) == ValuesAt(m, KeysWithSymbol(m, ks, symbol))
  {
    if ks != [] {
      var vs := ValuesAt(m, ks);
      assert vs[1..] == ValuesAt(m, ks[1..]);
      FilterValuesAt(m, ks[1..], symbol);
    }
  }

  /** `GET /ohlc?symbol=S` lists exactly the stored records whose symbol is
      S, in the table's key order: what `values()` gives for the table of
      those records alone. */
  lemma ListedInKeyOrder(m: map<string, Crypto>, symbol: string)
    ensures FilterBySymbol(Values(m), symbol) == Values(WithSymbol(m, symbol))
  {
    var ks := SortedKeys(m.Keys);
    var sub := WithSymbol(m, symbol);
    var picked := KeysWithSymbol(m, ks, symbol);
    FilterValuesAt(m, ks, symbol);
    IncreasingUnique(picked, SortedKeys(sub.Keys));
    ValuesAtAgree(m, sub, picked);
  }

  /** Two tables that agree on the listed keys list the same values. */
  lemma ValuesAtAgree(m: map<string, Crypto>, sub: map<string, Crypto>, ks: seq<string>)
    requires forall k | k in ks :: k in m && k in sub && m[k] == sub[k]
    ensures ValuesAt(m, ks) == ValuesAt(sub, ks)
  {
  }

  // ---------------------------------------------------------------------
  // POST /apikeys: the search for the user

  /** The `find` of `POST /apikeys`: the first user with that username. */
  function FindByUsername(users: seq<User>, username: string): (found: Option<User>)
    ensures found.None? <==> forall u | u in users :: u.username != username
    ensures found.Some? ==>
      exists i | 0 <= i < |users| ::
        users[i] == found.value && users[i].username == username
        && forall j | 0 <= j < i :: users[j].username != username
  {
    if users == [] then None
    else if users[0].username == username then Some(users[0])
    else
      var rest := FindByUsername(users[1..], username);
      assert rest.Some? ==> exists i | 0 <= i < |users| ::
        users[i] == rest.value && users[i].username == username
        && forall j | 0 <= j < i :: users[j].username != username
      by {
        if rest.Some? {
          var i :| 0 <= i < |users| - 1 && users[1..][i] == rest.value && users[1..][i].username == username
            && forall j | 0 <= j < i :: users[1..][j].username != username;
          assert users[i + 1] == rest.value;
          assert forall j | 0 <= j < i + 1 :: users[j].username != username by {
            forall j | 0 <= j < i + 1
              ensures users[j].username != username
            {
              if j > 0 {
                assert users[j] == users[1..][j - 1];
              }
            }
          }
        }
      }
      rest
  }

  /** Searching the user table's values finds a user exactly when some
      stored user has the username. */
  lemma FindInValues(users: map<string, User>, username: string)
    ensures FindByUsername(Values(users), username).Some? <==> HasUser(users, username)
  {
    var vs := Values(users);
    var found := FindByUsername(vs, username);
    if found.Some? {
      var i :| 0 <= i < |vs| && vs[i] == found.value && vs[i].username == username;
      assert found.value in users.Values;
    }
    if HasUser(users, username) {
      var k :| k in users && users[k].username == username;
      assert users[k] in vs;
    }
  }

  /** Each price record is stored under its own id and passed the input check. */
  ghost predicate PriceTableOk(crypto: map<string, Crypto>)
  {
    forall k | k in crypto :: crypto[k].id == k && Admitted(crypto[k])
  }

  /** Each user is stored under its own id, has a username and an e-mail-shaped mail. */
  ghost predicate UserTableOk(users: map<string, User>)
  {
    forall k | k in users :: users[k].id == k && users[k].username != "" && EmailShape(users[k].mail)
  }

  /** Each API key is stored under its own id and names a stored user. */
  ghost predicate KeyTableOk(apiKeys: map<string, ApiKey>, users: map<string, User>)
  {
    forall k | k in apiKeys :: apiKeys[k].id == k && HasUser(users, apiKeys[k].username)
  }

  /** The three tables of the service and its routes. */
  class Storages {
    /** `CryptoStorage`: price records by id. */
    var crypto: map<string, Crypto>
    /** `UserStorage`: users by id. */
    var users: map<string, User>
    /** `ApiKeyStorage`: API keys by id. */
    var apiKeys: map<string, ApiKey>

    /** What every route keeps: each record is stored under its own id; a
        stored price record passed the input check; a stored user has a
        username and an e-mail-shaped mail; every API key names a stored user
        (users are never removed). */
    ghost predicate Valid()
      reads this
    {
      PriceTableOk(crypto) && UserTableOk(users) && KeyTableOk(apiKeys, users)
    }

    /** Three empty tables. */
    constructor ()
      ensures Valid()
      ensures crypto == map[] && users == map[] && apiKeys == map[]
    {
      crypto, users, apiKeys := map[], map[], map[];
    }

    /** `POST /ohlc`: store a new price record under the fresh `id`. */
    method PostOhlc(body: OhlcBody, id: string, icTime: nat) returns (resp: Response<Crypto>)
      requires Valid()
      requires id !in crypto
      modifies this`crypto
      ensures Valid()
      ensures unchanged(this`users, this`apiKeys)
      ensures !ValidOhlcBody(body) ==> resp == Error(400, "Invalid input") && crypto == old(crypto)
      ensures ValidOhlcBody(body) ==>
        && resp.Ok? && resp.status == 201
        && resp.body.id == id && Carries(resp.body, body, CurrentDate(icTime))
        && crypto == old(crypto)[id := resp.body]
        && |crypto| == |old(crypto)| + 1
    {
      if !ValidOhlcBody(body) {
        return Error(400, "Invalid input");
      }
      var record := Crypto(id, body.symbol, body.open, body.close, body.high, body.low,
                           body.idxDate.parsed.value, CurrentDate(icTime));
      crypto := crypto[id := record];
      resp := Ok(201, record);
    }

    /** `PUT /ohlc/:id`: overwrite every field but the id of the record
        stored under `id`. The input is checked before the id is looked up. */
    method PutOhlc(id: string, body: OhlcBody, icTime: nat) returns (resp: Response<Crypto>)
      requires Valid()
      modifies this`crypto
      ensures Valid()
      ensures unchanged(this`users, this`apiKeys)
      ensures !ValidOhlcBody(body) ==> resp == Error(400, "Invalid input") && crypto == old(crypto)
      ensures ValidOhlcBody(body) && id !in old(crypto) ==>
        resp == Error(404, "Record not found") && crypto == old(crypto)
      ensures ValidOhlcBody(body) && id in old(crypto) ==>
        && resp.Ok? && resp.status == 200
        && resp.body.id == old(crypto)[id].id == id
        && Carries(resp.body, body, CurrentDate(icTime))
        && crypto == old(crypto)[id := resp.body]
        && crypto.Keys == old(crypto).Keys
    {
      if !ValidOhlcBody(body) {
        return Error(400, "Invalid input");
      }
      if id !in crypto {
        return Error(404, "Record not found");
      }
      var record := crypto[id];
      var updated := record.(symbol := body.symbol, open := body.open, close := body.close,
                             high := body.high, low := body.low,
                             idxDate := body.idxDate.parsed.value, createdAt := CurrentDate(icTime));
      crypto := crypto[id := updated];
      resp := Ok(200, updated);
    }

    /** `DELETE /ohlc/:id`: remove the record stored under `id`. */
    method DeleteOhlc(id: string) returns (resp: Response<()>)
      requires Valid()
      modifies this`crypto
      ensures Valid()
      ensures unchanged(this`users, this`apiKeys)
      ensures id !in old(crypto) ==> resp == Error(404, "Record not found") && crypto == old(crypto)
      ensures id in old(crypto) ==>
        && resp == Ok(204, ())
        && crypto == old(crypto) - {id}
        && |crypto| == |old(crypto)| - 1
    {
      if id !in crypto {
        return Error(404, "Record not found");
      }
      crypto := crypto - {id};
      resp := Ok(204, ());
    }

    /** `POST /users`: store a new user under the fresh `id`, with the fresh
        `salt` its constructor draws. */
    method PostUser(body: UserBody, id: string, salt: string, icTime: nat) returns (resp: Response<User>)
      requires Valid()
      requires id !in users
      modifies this`users
      ensures Valid()
      ensures unchanged(this`crypto, this`apiKeys)
      ensures !ValidUserBody(body) ==> resp == Error(400, "Invalid input") && users == old(users)
      ensures ValidUserBody(body) ==>
        && resp.Ok? && resp.status == 201
        && resp.body.id == id && resp.body.username == body.username
        && resp.body.mail == body.mail && resp.body.salt == salt
        && resp.body.createdAt == CurrentDate(icTime)
        && resp.body.passwordHash == body.password + salt
        && users == old(users)[id := resp.body]
        && |users| == |old(users)| + 1
    {
      if !ValidUserBody(body) {
        return Error(400, "Invalid input");
      }
      var user := NewUser(id, body.username, body.password, body.mail, CurrentDate(icTime), salt).value;
      assert user.passwordHash == body.password + salt;
      users := users[id := user];
      resp := Ok(201, user);
      forall k | k in apiKeys
        ensures HasUser(users, apiKeys[k].username)
      {
        var u :| u in old(users) && old(users)[u].username == apiKeys[k].username;
        assert users[u] == old(users)[u];
      }
    }

    /** `POST /apikeys`: issue a key under the fresh `id` to a username that
        some stored user has. The key is stamped by the host clock and
        expires thirty days after `Date.now()` (`nowMs`). */
    method PostApiKey(username: string, id: string, icTime: nat, nowMs: int) returns (resp: Response<ApiKey>)
      requires Valid()
      requires id !in apiKeys
      modifies this`apiKeys
      ensures Valid()
      ensures unchanged(this`crypto, this`users)
      ensures username == "" ==> resp == Error(400, "Username is required") && apiKeys == old(apiKeys)
      ensures username != "" && !HasUser(users, username) ==>
        resp == Error(404, "User not found") && apiKeys == old(apiKeys)
      ensures username != "" && HasUser(users, username) ==>
        && resp == Ok(201, ApiKey(id, username, CurrentDate(icTime), nowMs + ThirtyDaysMs))
        && apiKeys == old(apiKeys)[id := resp.body]
        && |apiKeys| == |old(apiKeys)| + 1
        && (nowMs == CurrentDate(icTime) ==> resp.body.expiresAt - resp.body.createdAt == ThirtyDaysMs)
    {
      if username == "" {
        return Error(400, "Username is required");
      }
      var user := FindUser(username);
      if user.None? {
        return Error(404, "User not found");
      }
      assert HasUser(users, username);
      var key := ApiKey(id, username, CurrentDate(icTime), nowMs + ThirtyDaysMs);
      apiKeys := apiKeys[id := key];
      resp := Ok(201, key);
      forall k | k in apiKeys
        ensures apiKeys[k].id == k && HasUser(users, apiKeys[k].username)
      {
        if k != id {
          assert apiKeys[k] == old(apiKeys)[k];
        }
      }
    }

    /** The user search of `POST /apikeys`: the user table's `values()`,
        searched with `find` for the first user with the username. */
    method FindUser(username: string) returns (user: Option<User>)
      ensures user.Some? <==> HasUser(users, username)
      ensures user.Some? ==> user.value.username == username && user.value in users.Values
    {
      var userRecords := Values(users);
      user := FindByUsername(userRecords, username);
      FindInValues(users, username);
      if user.Some? {
        var i :| 0 <= i < |userRecords| && userRecords[i] == user.value && userRecords[i].username == username;
      }
    }

    /** `GET /ohlc?symbol=`: the stored records with that symbol, by key. */
    method ListBySymbol(symbol: string) returns (resp: Response<seq<Crypto>>)
      ensures symbol == "" ==> resp == Error(400, "Invalid or missing symbol")
      ensures symbol != "" ==>
        && resp == Ok(200, Values(WithSymbol(crypto, symbol)))
        && (forall r | r in resp.body :: r in crypto.Values && r.symbol == symbol)
        && (forall k | k in crypto && crypto[k].symbol == symbol :: crypto[k] in resp.body)
    {
      if symbol == "" {
        return Error(400, "Invalid or missing symbol");
      }
      var records := Values(crypto);
      var values := FilterBySymbol(records, symbol);
      ListedInKeyOrder(crypto, symbol);
      resp := Ok(200, values);
    }

    /** `GET /ohlc/:id`: the id, symbol and dates of the record under `id`,
        without its prices. */
    method GetOhlc(id: string) returns (resp: Response<CryptoDetails>)
      requires Valid()
      ensures id !in crypto ==> resp == Error(404, "Record not found")
      ensures id in crypto ==>
        && resp.Ok? && resp.status == 200
        && resp.body.id == id
        && resp.body.symbol == crypto[id].symbol
        && resp.body.idxDate == crypto[id].idxDate
        && resp.body.createdAt == crypto[id].createdAt
    {
      if id !in crypto {
        return Error(404, "Record not found");
      }
      var record := crypto[id];
      resp := Ok(200, CryptoDetails(record.id, record.symbol, record.idxDate, record.createdAt));
    }
  }
}
