/**
 * The `users` and `messages` tables as values, and the queries the work
 * functions run against them, stated as pure functions. The class in
 * procedures.dfy is specified by these functions; the lemmas here relate
 * one handler's effect to what a later handler observes.
 */
module Tables {
  import opened Messaging

  /** `users` is keyed by phone number, and each row stores its own key. */
  ghost predicate WellKeyed(users: map<string, UserRow>) {
    forall p :: p in users ==> users[p].phoneNumber == p
  }

  /** Message ids are the table's row ids: 1, 2, 3, ... in insertion order, never reused. */
  ghost predicate WellNumbered(rows: seq<Message>) {
    forall i :: 0 <= i < |rows| ==> rows[i].id == i + 1
  }

  // ---------------------------------------------------------------------
  // GetDMs: the message query

  /**
   * The WHERE clause of the GetDMs query with its parameters bound as the
   * handler binds them: sender IN (a, b), receiver IN (b, a), and the
   * timestamp BETWEEN the requested lower bound and the current time.
   */
  predicate InConversation(m: Message, a: string, b: string, from: Timestamp, now: Timestamp) {
    && (m.sender == a || m.sender == b)
    && (m.receiver == b || m.receiver == a)
    && from <= m.timestamp <= now
  }

  /**
   * The rows the GetDMs query yields. The query has no ORDER BY; the model
   * takes SQLite's scan to run in rowid order, which is the order of `rows`.
   */
  function Conversation(rows: seq<Message>, a: string, b: string, from: Timestamp, now: Timestamp): (r: seq<Message>)
    ensures |r| <= |rows|
    ensures forall m :: m in r ==> m in rows && InConversation(m, a, b, from, now)
  {
    if rows == [] then []
    else
      var last := rows[|rows| - 1];
      Conversation(rows[..|rows| - 1], a, b, from, now) + (if InConversation(last, a, b, from, now) then [last] else [])
  }

  /** Every matching row is returned. */
  lemma {:induction false} ConversationComplete(rows: seq<Message>, a: string, b: string, from: Timestamp, now: Timestamp, m: Message)
    requires m in rows && InConversation(m, a, b, from, now)
    ensures m in Conversation(rows, a, b, from, now)
  {
    var n := |rows| - 1;
    if rows[n] != m {
      assert rows == rows[..n] + [rows[n]];
      assert m in rows[..n];
      ConversationComplete(rows[..n], a, b, from, now, m);
    }
  }

  /** Each matching row is returned as many times as it is stored, and a non-matching one never. */
  lemma {:induction false} ConversationCount(rows: seq<Message>, a: string, b: string, from: Timestamp, now: Timestamp, m: Message)
    ensures multiset(Conversation(rows, a, b, from, now))[m] == if InConversation(m, a, b, from, now) then multiset(rows)[m] else 0
  {
    if rows != [] {
      var n := |rows| - 1;
      assert rows == rows[..n] + [rows[n]];
      ConversationCount(rows[..n], a, b, from, now, m);
    }
  }

  /** Swapping the two participants of the request returns the same rows. */
  lemma {:induction false} ConversationSymmetric(rows: seq<Message>, a: string, b: string, from: Timestamp, now: Timestamp)
    ensures Conversation(rows, a, b, from, now) == Conversation(rows, b, a, from, now)
  {
    if rows != [] {
      ConversationSymmetric(rows[..|rows| - 1], a, b, from, now);
    }
  }

  /** The query distributes over a split of the table: under the assumed rowid scan, rows keep their relative order. */
  lemma {:induction false} ConversationConcat(xs: seq<Message>, ys: seq<Message>, a: string, b: string, from: Timestamp, now: Timestamp)
    ensures Conversation(xs + ys, a, b, from, now) == Conversation(xs, a, b, from, now) + Conversation(ys, a, b, from, now)
  {
    if ys == [] {
      assert xs + ys == xs;
    } else {
      var n := |ys| - 1;
      assert (xs + ys)[..|xs + ys| - 1] == xs + ys[..n];
      ConversationConcat(xs, ys[..n], a, b, from, now);
    }
  }

  /**
   * A message sent between a and b at time t, with the next row id, is
   * returned exactly once by a later query for the pair (in either order)
   * whose window contains t.
   */
  lemma SentMessageReturnedOnce(rows: seq<Message>, req: SendDirectMessageRequest, sentAt: Timestamp, from: Timestamp, now: Timestamp)
    requires WellNumbered(rows)
    requires from <= sentAt <= now
    ensures var m := Message(|rows| + 1, req.sender, req.receiver, req.content, sentAt);
            && multiset(Conversation(rows + [m], req.sender, req.receiver, from, now))[m] == 1
            && multiset(Conversation(rows + [m], req.receiver, req.sender, from, now))[m] == 1
  {
    var m := Message(|rows| + 1, req.sender, req.receiver, req.content, sentAt);
    assert forall i :: 0 <= i < |rows| ==> rows[i].id != m.id;
    assert m !in rows;
    assert multiset(rows + [m])[m] == multiset(rows)[m] + 1;
    ConversationCount(rows + [m], req.sender, req.receiver, from, now, m);
    ConversationSymmetric(rows + [m], req.sender, req.receiver, from, now);
  }

  // ---------------------------------------------------------------------
  // Users: registration, login and user info

  /** The users table after inserting the row a registration writes. */
  function Registered(users: map<string, UserRow>, req: RegisterUserRequest, hash: Bytes, salt: Bytes): (r: map<string, UserRow>)
    ensures r.Keys == users.Keys + {req.phoneNumber}
    ensures r[req.phoneNumber] == UserRow(req.phoneNumber, req.username, hash, salt)
    ensures forall p :: p in users && p != req.phoneNumber ==> r[p] == users[p]
    ensures WellKeyed(users) ==> WellKeyed(r)
  {
    users[req.phoneNumber := UserRow(req.phoneNumber, req.username, hash, salt)]
  }

  /**
   * The outcome of the login query and the password test as the handler
   * writes it: `err == nil || string(hashed_password) == stored_password`.
   * The first disjunct holds whenever key derivation succeeds, so any
   * password is accepted for an existing phone; when derivation fails the
   * key is empty and only an empty stored hash passes.
   */
  function LoginAsWritten(users: map<string, UserRow>, req: LoginRequest, kdf: Kdf, sign: Signer): (r: Result<string>)
    ensures req.phoneNumber !in users ==> r == Err(UserNotFound)
    ensures r.Ok? <==>
              && req.phoneNumber in users
              && (kdf(req.password, users[req.phoneNumber].salt, PbkdfIter, PbkdfKeyLen).Some? || users[req.phoneNumber].password == [])
              && sign(Claims(users[req.phoneNumber].phoneNumber, users[req.phoneNumber].username)).Some?
    ensures WellKeyed(users) && r.Ok? ==> r.value == sign(Claims(req.phoneNumber, users[req.phoneNumber].username)).value
  {
    if req.phoneNumber !in users then Err(UserNotFound)
    else
      var row := users[req.phoneNumber];
      var hashed := kdf(req.password, row.salt, PbkdfIter, PbkdfKeyLen);
      if hashed.Some? || row.password == [] then
        match sign(Claims(row.phoneNumber, row.username))
        case Some(jwt) => Ok(jwt)
        case None => Err(SignFailure)
      else Err(UserNotFound)
  }

  /** For an existing phone, as written, the password presented makes no difference once derivation succeeds. */
  lemma LoginAsWrittenIgnoresPassword(users: map<string, UserRow>, phone: string, password1: string, password2: string, kdf: Kdf, sign: Signer)
    requires phone in users
    requires kdf(password1, users[phone].salt, PbkdfIter, PbkdfKeyLen).Some?
    requires kdf(password2, users[phone].salt, PbkdfIter, PbkdfKeyLen).Some?
    ensures LoginAsWritten(users, LoginRequest(phone, password1), kdf, sign) == LoginAsWritten(users, LoginRequest(phone, password2), kdf, sign)
  {
  }

  /**
   * A concrete witness: Alice registers 111-111 with "pw1"; a login with
   * "wrong" derives a key different from the stored one and still gets a token.
   */
  lemma LoginAsWrittenAcceptsWrongPassword()
    ensures var kdf: Kdf := (p: string, s: Bytes, i: nat, k: nat) => Some(if p == "pw1" then [1 as bv8] else [2 as bv8]);
            var sign: Signer := (c: Claims) => Some(c.subject);
            var users := Registered(map[], RegisterUserRequest("Alice", "111-111", "pw1"), [1 as bv8], seq(SaltLen, _ => 0 as bv8));
            && kdf("wrong", seq(SaltLen, _ => 0 as bv8), PbkdfIter, PbkdfKeyLen) != Some(users["111-111"].password)
            && LoginAsWritten(users, LoginRequest("111-111", "wrong"), kdf, sign) == Ok("111-111")
  {
    var kdf: Kdf := (p: string, s: Bytes, i: nat, k: nat) => Some(if p == "pw1" then [1 as bv8] else [2 as bv8]);
    var sign: Signer := (c: Claims) => Some(c.subject);
    var users := Registered(map[], RegisterUserRequest("Alice", "111-111", "pw1"), [1 as bv8], seq(SaltLen, _ => 0 as bv8));
    assert users["111-111"] == UserRow("111-111", "Alice", [1 as bv8], seq(SaltLen, _ => 0 as bv8));
    assert "wrong" != "pw1" by { assert "wrong"[0] != "pw1"[0]; }
    assert kdf("wrong", seq(SaltLen, _ => 0 as bv8), PbkdfIter, PbkdfKeyLen) == Some([2 as bv8]);
    assert sign(Claims("111-111", "Alice")) == Some("111-111");
  }

  /**
   * The evidently intended test, `err == nil && string(hashed_password) ==
   * stored_password`: a token only when the presented password derives the
   * stored key under the stored salt.
   */
  function LoginIntended(users: map<string, UserRow>, req: LoginRequest, kdf: Kdf, sign: Signer): (r: Result<string>)
    ensures req.phoneNumber !in users ==> r == Err(UserNotFound)
    ensures r.Ok? <==>
              && req.phoneNumber in users
              && kdf(req.password, users[req.phoneNumber].salt, PbkdfIter, PbkdfKeyLen) == Some(users[req.phoneNumber].password)
              && sign(Claims(users[req.phoneNumber].phoneNumber, users[req.phoneNumber].username)).Some?
  {
    if req.phoneNumber !in users then Err(UserNotFound)
    else
      var row := users[req.phoneNumber];
      var hashed := kdf(req.password, row.salt, PbkdfIter, PbkdfKeyLen);
      if hashed.Some? && hashed.value == row.password then
        match sign(Claims(row.phoneNumber, row.username))
        case Some(jwt) => Ok(jwt)
        case None => Err(SignFailure)
      else Err(UserNotFound)
  }

  /**
   * After a registration, the intended test gives a token for the registered
   * password and refuses any password that derives a different key; the test
   * as written gives a token for both.
   */
  lemma RegisterThenLogin(users: map<string, UserRow>, req: RegisterUserRequest, salt: Bytes, kdf: Kdf, sign: Signer, other: string)
    requires kdf(req.password, salt, PbkdfIter, PbkdfKeyLen).Some?
    requires kdf(other, salt, PbkdfIter, PbkdfKeyLen).Some?
    requires kdf(other, salt, PbkdfIter, PbkdfKeyLen) != kdf(req.password, salt, PbkdfIter, PbkdfKeyLen)
    requires sign(Claims(req.phoneNumber, req.username)).Some?
    ensures var after := Registered(users, req, kdf(req.password, salt, PbkdfIter, PbkdfKeyLen).value, salt);
            var token := Ok(sign(Claims(req.phoneNumber, req.username)).value);
            && LoginIntended(after, LoginRequest(req.phoneNumber, req.password), kdf, sign) == token
            && LoginIntended(after, LoginRequest(req.phoneNumber, other), kdf, sign) == Err(UserNotFound)
            && LoginAsWritten(after, LoginRequest(req.phoneNumber, req.password), kdf, sign) == token
            && LoginAsWritten(after, LoginRequest(req.phoneNumber, other), kdf, sign) == token
  {
  }

  /** The GetUserInfo query: NotFound without a row, Unknown for a row with an empty field. */
  function UserInfoOf(users: map<string, UserRow>, phone: string): (r: Result<UserInfo>)
    ensures r == Err(Coded(NotFound)) <==> phone !in users
    ensures r == Err(Coded(Unknown)) <==> phone in users && (users[phone].phoneNumber == "" || users[phone].username == "")
    ensures r.Ok? ==> phone in users && r.value == UserInfo(users[phone].phoneNumber, users[phone].username)
    ensures r.Ok? ==> r.value.phoneNumber != "" && r.value.username != ""
  {
    if phone !in users then Err(Coded(NotFound))
    else
      var row := users[phone];
      if row.phoneNumber == "" || row.username == "" then Err(Coded(Unknown))
      else Ok(UserInfo(row.phoneNumber, row.username))
  }

  /** A registered user's info reads back as registered, unless a field was left empty. */
  lemma RegisterThenUserInfo(users: map<string, UserRow>, req: RegisterUserRequest, hash: Bytes, salt: Bytes)
    ensures UserInfoOf(Registered(users, req, hash, salt), req.phoneNumber)
            == if req.phoneNumber == "" || req.username == "" then Err(Coded(Unknown))
               else Ok(UserInfo(req.phoneNumber, req.username))
  {
  }
}
