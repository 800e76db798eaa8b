/**
 * The RPC work functions over an in-memory store. The store holds the two
 * tables the handlers touch: `users`, keyed by phone number, and `messages`,
 * in row order. Every handler takes `dbFails`, which says whether the
 * database reports an error for its query or insert. The current time,
 * the salt and the two cryptographic capabilities are parameters too.
 */
module Procedures {
  import opened Messaging
  import opened Tables

  class Store {
    var users: map<string, UserRow>
    var messages: seq<Message>

    ghost predicate Valid()
      reads this
    {
      WellKeyed(users) && WellNumbered(messages)
    }

    constructor ()
      ensures Valid()
      ensures users == map[] && messages == []
    {
      users := map[];
      messages := [];
    }

    /**
     * Registration: derive the key, insert the user row, sign a token whose
     * subject is the phone number. The insert fails on a phone number that
     * is already a key. A signing failure comes after the insert, so the
     * row stays although no token is returned.
     */
    method RegisterUser(req: RegisterUserRequest, salt: Bytes, kdf: Kdf, sign: Signer, dbFails: bool) returns (r: Result<string>)
      requires Valid()
      requires |salt| == SaltLen
      modifies this
      ensures Valid()
      ensures messages == old(messages)
      ensures var hashed := kdf(req.password, salt, PbkdfIter, PbkdfKeyLen);
              && (hashed.None? ==> r == Err(KdfFailure) && users == old(users))
              && (hashed.Some? && (dbFails || req.phoneNumber in old(users)) ==> r == Err(DbFailure) && users == old(users))
              && (hashed.Some? && !dbFails && req.phoneNumber !in old(users) ==>
                    && users == Registered(old(users), req, hashed.value, salt)
                    && r == match sign(Claims(req.phoneNumber, req.username))
                            case Some(jwt) => Ok(jwt)
                            case None => Err(SignFailure))
      ensures r.Ok? ==> req.phoneNumber !in old(users) && req.phoneNumber in users
    {
      var hashed := kdf(req.password, salt, PbkdfIter, PbkdfKeyLen);
      if hashed.None? {
        return Err(KdfFailure);
      }
      if dbFails || req.phoneNumber in users {
        return Err(DbFailure);
      }
      users := Registered(users, req, hashed.value, salt);
      var jwt := sign(Claims(req.phoneNumber, req.username));
      if jwt.None? {
        return Err(SignFailure);
      }
      return Ok(jwt.value);
    }

    /**
     * Login: look the phone number up and, as written, issue a token once
     * key derivation succeeds, whatever the password. Reads only.
     */
    method Login(req: LoginRequest, kdf: Kdf, sign: Signer, dbFails: bool) returns (r: Result<string>)
      requires Valid()
      ensures r == if dbFails then Err(DbFailure) else LoginAsWritten(users, req, kdf, sign)
      ensures r.Ok? ==> req.phoneNumber in users && r.value == sign(Claims(req.phoneNumber, users[req.phoneNumber].username)).value
    {
      if dbFails {
        return Err(DbFailure);
      }
      if req.phoneNumber !in users {
        return Err(UserNotFound);
      }
      var row := users[req.phoneNumber];
      var hashed := kdf(req.password, row.salt, PbkdfIter, PbkdfKeyLen);
      if hashed.Some? || row.password == [] {
        var jwt := sign(Claims(row.phoneNumber, row.username));
        if jwt.None? {
          return Err(SignFailure);
        }
        return Ok(jwt.value);
      }
      return Err(UserNotFound);
    }

    /** Send: insert one row stamped with the current time; an insert error is InvalidArgument. */
    method SendDirectMessage(req: SendDirectMessageRequest, now: Timestamp, dbFails: bool) returns (r: Result<()>)
      requires Valid()
      modifies this
      ensures Valid()
      ensures users == old(users)
      ensures r == if dbFails then Err(Coded(InvalidArgument)) else Ok(())
      ensures messages == if dbFails then old(messages)
                          else old(messages) + [Message(|old(messages)| + 1, req.sender, req.receiver, req.content, now)]
    {
      if dbFails {
        return Err(Coded(InvalidArgument));
      }
      messages := messages + [Message(|messages| + 1, req.sender, req.receiver, req.content, now)];
      return Ok(());
    }

    /** GetDMs: walk the table and collect the rows of the conversation inside the window. Reads only. */
    method GetDMs(req: GetDMsRequest, now: Timestamp, dbFails: bool) returns (r: Result<seq<Message>>)
      requires Valid()
      ensures r == if dbFails then Err(Coded(Unknown)) else Ok(Conversation(messages, req.sender, req.receiver, req.fromDate, now))
      ensures r.Ok? ==> forall m :: m in r.value ==> m in messages && InConversation(m, req.sender, req.receiver, req.fromDate, now)
    {
      if dbFails {
        return Err(Coded(Unknown));
      }
      var found: seq<Message> := [];
      var i := 0;
      while i < |messages|
        invariant 0 <= i <= |messages|
        invariant found == Conversation(messages[..i], req.sender, req.receiver, req.fromDate, now)
      {
        var row := messages[i];
        assert messages[..i + 1][..i] == messages[..i];
        if InConversation(row, req.sender, req.receiver, req.fromDate, now) {
          found := found + [row];
        }
        i := i + 1;
      }
      assert messages[..i] == messages;
      return Ok(found);
    }

    /** GetUserInfo: NotFound, Unknown, or the stored phone number and username. Reads only. */
    method GetUserInfo(req: GetUserInfoRequest, dbFails: bool) returns (r: Result<UserInfo>)
      requires Valid()
      ensures r == if dbFails then Err(DbFailure) else UserInfoOf(users, req.phoneNumber)
      ensures r.Ok? ==> r.value.phoneNumber == req.phoneNumber && r.value.username == users[req.phoneNumber].username
    {
      if dbFails {
        return Err(DbFailure);
      }
      if req.phoneNumber !in users {
        return Err(Coded(NotFound));
      }
      var row := users[req.phoneNumber];
      if row.phoneNumber == "" || row.username == "" {
        return Err(Coded(Unknown));
      }
      return Ok(UserInfo(row.phoneNumber, row.username));
    }
  }
}
