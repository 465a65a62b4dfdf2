/**
 * Request sequences, against any valid service or a fresh one, proved
 * from the handlers' contracts alone.
 */
module Scenarios {
  import opened Util
  import opened Models
  import opened Handlers

  /** A mail without an '@' never has the e-mail shape. */
  lemma NoAtSignNoEmail(m: string)
    requires '@' !in m
    ensures !EmailShape(m)
  {
  }

  /** The mail of the scenario below has the e-mail shape. */
  lemma SampleMailHasShape()
    ensures EmailShape("a@b.com")
  {
    var mail := "a@b.com";
    assert mail[0] == 'a' && mail[1] == '@' && mail[2] == 'b' && mail[3] == '.' && mail[4] == 'c';
    assert ShortestMatchAt(mail, 1, 3);
    ShortestMatchGrows(mail, 1, 3);
  }

  /** In any state, creating a price record and then fetching it by its id
      gives back its id, symbol and date. */
  method CreateThenGet(service: Storages, body: OhlcBody, id: string, icTime: nat)
    returns (created: Response<Crypto>, fetched: Response<CryptoDetails>)
    requires service.Valid() && id !in service.crypto
    requires ValidOhlcBody(body)
    modifies service
    ensures created.Ok? && created.status == 201 && created.body.id == id
    ensures fetched.Ok? && fetched.status == 200
    ensures fetched.body.id == id && fetched.body.symbol == body.symbol
    ensures fetched.body.idxDate == body.idxDate.parsed.value
    ensures fetched.body.createdAt == created.body.createdAt == CurrentDate(icTime)
  {
    created := service.PostOhlc(body, id, icTime);
    fetched := service.GetOhlc(id);
  }

  /** In any state, an update of a record just created keeps the id and
      replaces the symbol; after a delete the same id is not found, and
      neither is a second delete. */
  method UpdateThenDelete(service: Storages, first: OhlcBody, second: OhlcBody, id: string, t1: nat, t2: nat)
    returns (updated: Response<Crypto>, deleted: Response<()>, fetched: Response<CryptoDetails>,
             again: Response<()>)
    requires service.Valid() && id !in service.crypto
    requires ValidOhlcBody(first) && ValidOhlcBody(second)
    modifies service
    ensures updated.Ok? && updated.status == 200
    ensures updated.body.id == id && updated.body.symbol == second.symbol
    ensures updated.body.createdAt == CurrentDate(t2)
    ensures deleted == Ok(204, ())
    ensures fetched == Error(404, "Record not found")
    ensures again == Error(404, "Record not found")
  {
    var created := service.PostOhlc(first, id, t1);
    updated := service.PutOhlc(id, second, t2);
    deleted := service.DeleteOhlc(id);
    fetched := service.GetOhlc(id);
    again := service.DeleteOhlc(id);
  }

  /** A user "alice" is created; a key for "alice" expires thirty days after
      it was issued (when both clocks agree); a key for "bob", who has no
      account, is refused, and the key table keeps only alice's key. */
  method ApiKeyScenario(userId: string, salt: string, aliceKey: string, bobKey: string, icTime: nat)
    returns (user: Response<User>, key: Response<ApiKey>, refused: Response<ApiKey>, keys: map<string, ApiKey>)
    requires aliceKey != bobKey
    ensures user.Ok? && user.status == 201 && user.body.passwordHash == "p" + salt
    ensures key.Ok? && key.status == 201 && key.body.username == "alice"
    ensures key.body.expiresAt - key.body.createdAt == ThirtyDaysMs
    ensures refused == Error(404, "User not found")
    ensures keys == map[aliceKey := key.body]
  {
    var service := new Storages();
    SampleMailHasShape();
    user := service.PostUser(UserBody("alice", "p", "a@b.com"), userId, salt, icTime);
    assert service.users == map[userId := user.body];
    assert HasUser(service.users, "alice") by {
      assert service.users[userId].username == "alice";
    }
    assert !HasUser(service.users, "bob") by {
      assert "alice" != "bob";
    }
    key := service.PostApiKey("alice", aliceKey, icTime, CurrentDate(icTime));
    refused := service.PostApiKey("bob", bobKey, icTime, CurrentDate(icTime));
    keys := service.apiKeys;
  }

  /** A user whose mail is "not-an-email" is refused and nothing is stored. */
  method RejectedMail(userId: string, salt: string, icTime: nat)
    returns (resp: Response<User>, stored: nat)
    ensures resp == Error(400, "Invalid input")
    ensures stored == 0
  {
    var service := new Storages();
    var mail := "not-an-email";
    assert '@' !in mail;
    NoAtSignNoEmail(mail);
    resp := service.PostUser(UserBody("mallory", "secret", mail), userId, salt, icTime);
    stored := |service.users|;
  }
}
