/**
 * The three record kinds the service stores: price (OHLC) records, users
 * and API keys. Dates are time values in milliseconds.
 */
module Models {
  import opened Wrappers
  import opened Util

  /** A price as it arrived in a request body. Its JavaScript number value is
      not modelled; `nan` records what JavaScript's `isNaN` says of it. */
  datatype Price = Price(raw: string, nan: bool)

  /** `Crypto`: one open/high/low/close observation of a symbol on a date. */
  datatype Crypto = Crypto(
    id: string,
    symbol: string,
    open: Price,
    close: Price,
    high: Price,
    low: Price,
    idxDate: int,
    createdAt: int)

  /** `User`: an account, with the salted placeholder hash of its password. */
  datatype User = User(
    id: string,
    username: string,
    passwordHash: string,
    mail: string,
    createdAt: int,
    salt: string)

  /** `ApiKey`: a key issued to a username, with its expiry date. */
  datatype ApiKey = ApiKey(id: string, username: string, createdAt: int, expiresAt: int)

  /** The `User` constructor. It throws 'Invalid email format' unless the
      mail has the e-mail shape; otherwise it stores the hash of the password
      under the salt it is given (a fresh uuid in the service). */
  function NewUser(
    id: string, username: string, password: string, mail: string, createdAt: int, salt: string
  ): (r: Result<User, string>)
    ensures r.Success? <==> EmailShape(mail)
    ensures r.Failure? ==> r.error == "Invalid email format"
    ensures r.Success? ==>
      && r.value.id == id && r.value.username == username && r.value.mail == mail
      && r.value.createdAt == createdAt && r.value.salt == salt
      && r.value.passwordHash == HashPassword(password, salt)
  {
    if !ValidateEmail(mail) then Failure("Invalid email format")
    else Success(User(id, username, HashPassword(password, salt), mail, createdAt, salt))
  }
}
