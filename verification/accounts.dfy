/** Registration, login and the bearer-token check of the backend
    (`registerHandler`, `loginHandler`, `authMiddleware`). Password hashing
    is modelled by `Store.Digest`; token signing and validation are the
    parameters `issue` and `validate`, since they depend on the signing key
    and the clock. */
module Accounts {
  import opened Wrappers
  import opened Text
  import opened Store
  import opened Http

  datatype Credentials = Credentials(username: string, password: string)

  /** Go's `strings.TrimSpace`. */
  function TrimSpace(s: string): string {
    Trim(GoUnicode, s)
  }

  /** The credentials with both fields trimmed, as registration checks and
      stores them. */
  function Normalize(c: Credentials): Credentials {
    Credentials(TrimSpace(c.username), TrimSpace(c.password))
  }

  /** `registerHandler` after the body has been decoded, on the trimmed
      credentials `n`. Failure points as in `Register`. */
  function RegisterNormalized(db: Db, n: Credentials, fault: Fault): (r: (Reply, Db))
    ensures r.0.status == StatusCreated <==>
      NoFailureIn(fault, 2, 4) && n.username != "" && n.password != "" && n.username !in db.users
    ensures r.0.status != StatusCreated ==> r.1 == db
    ensures r.0.status == StatusCreated ==>
      && r.0.body == Created("User created successfully", n.username)
      && r.1.users.Keys == db.users.Keys + {n.username}
      && r.1.users[n.username] == UserRow(Bcrypt(n.password), false, [])
      && (forall v :: v in db.users ==> r.1.users[v] == db.users[v])
      && r.1.followers == db.followers && r.1.requests == db.requests && r.1.userGames == db.userGames
    ensures (n.username == "" || n.password == "") ==>
      r.0 == Reply(StatusBadRequest, ErrorJson("Username and password are required"))
    ensures (NoFailureIn(fault, 2, 2) && n.username != "" && n.password != "" && n.username in db.users) ==>
      r.0 == Reply(StatusConflict, ErrorJson("Username already exists"))
  {
    if n.username == "" || n.password == "" then
      (Reply(StatusBadRequest, ErrorJson("Username and password are required")), db)
    else if Fails(fault, 2) then (Reply(StatusInternalServerError, ErrorJson("Internal server error")), db)
    else if n.username in db.users then (Reply(StatusConflict, ErrorJson("Username already exists")), db)
    else if Fails(fault, 3) || Fails(fault, 4) then
      (Reply(StatusInternalServerError, ErrorJson("Internal server error")), db)
    else
      (Reply(StatusCreated, Created("User created successfully", n.username)),
       db.(users := db.users[n.username := UserRow(Bcrypt(n.password), false, [])]))
  }

  /** `registerHandler`. Failure points: 1 the database ping, 2 the
      existence check, 3 bcrypt hashing, 4 the insert. The username and the
      password are trimmed before they are checked and stored; a failed or
      refused registration changes nothing. */
  function Register(db: Db, body: RequestBody<Credentials>, fault: Fault): (r: (Reply, Db))
    ensures r.0.status == StatusCreated <==>
      Survives(fault, 1) && body.Parsed? && RegisterNormalized(db, Normalize(body.value), fault).0.status == StatusCreated
    ensures r.0.status != StatusCreated ==> r.1 == db
    ensures body.Unreadable? && Survives(fault, 1) ==> r.0 == Reply(StatusBadRequest, ErrorJson("Error reading request body"))
    ensures body.Malformed? && Survives(fault, 1) ==> r.0 == Reply(StatusBadRequest, ErrorJson("Invalid JSON format"))
    ensures Survives(fault, 1) && body.Parsed? ==> r == RegisterNormalized(db, Normalize(body.value), fault)
    ensures Fails(fault, 1) ==> r == (Reply(StatusInternalServerError, ErrorJson("Database connection error")), db)
  {
    if Fails(fault, 1) then (Reply(StatusInternalServerError, ErrorJson("Database connection error")), db)
    else
      match body
      case Unreadable => (Reply(StatusBadRequest, ErrorJson("Error reading request body")), db)
      case Malformed => (Reply(StatusBadRequest, ErrorJson("Invalid JSON format")), db)
      case Parsed(c) => RegisterNormalized(db, Normalize(c), fault)
  }

  /** The one reply for an unknown user and for a wrong password. */
  const InvalidCredentials := Reply(StatusUnauthorized, ErrorJson("Invalid credentials"))

  /** `loginHandler`. Failure points: 1 the user lookup, 2 token signing.
      The username and password are used exactly as sent. `issue(u)` is the
      signed token for user `u`. Login changes no state. */
  function Login(db: Db, body: RequestBody<Credentials>, fault: Fault, issue: string -> string): (r: Reply)
    ensures !body.Parsed? ==> r == Reply(StatusBadRequest, ErrorJson("Invalid request body"))
    ensures r.status == StatusOK <==>
      && body.Parsed? && Survives(fault, 2)
      && body.value.username in db.users
      && db.users[body.value.username].password == Bcrypt(body.value.password)
    ensures r.status == StatusOK ==>
      r.body == Token(issue(body.value.username), body.value.username, "Login successful")
    ensures (body.Parsed? && Survives(fault, 1) &&
             (body.value.username !in db.users ||
              db.users[body.value.username].password != Bcrypt(body.value.password))) ==>
      r == InvalidCredentials
  {
    match body
    case Unreadable => Reply(StatusBadRequest, ErrorJson("Invalid request body"))
    case Malformed => Reply(StatusBadRequest, ErrorJson("Invalid request body"))
    case Parsed(c) =>
      if Fails(fault, 1) then Reply(StatusInternalServerError, ErrorJson("Internal server error"))
      else if c.username !in db.users then InvalidCredentials
      else if db.users[c.username].password != Bcrypt(c.password) then InvalidCredentials
      else if Fails(fault, 2) then Reply(StatusInternalServerError, ErrorJson("Internal server error"))
      else Reply(StatusOK, Token(issue(c.username), c.username, "Login successful"))
  }

  /** Login with the same trimming registration applies: what registration
      stores is what login compares against. */
  function LoginTrimmed(db: Db, body: RequestBody<Credentials>, fault: Fault, issue: string -> string): (r: Reply)
    ensures !body.Parsed? ==> r == Reply(StatusBadRequest, ErrorJson("Invalid request body"))
    ensures r.status == StatusOK <==>
      && body.Parsed? && Survives(fault, 2)
      && Normalize(body.value).username in db.users
      && db.users[Normalize(body.value).username].password == Bcrypt(Normalize(body.value).password)
    ensures r.status == StatusOK ==>
      r.body == Token(issue(Normalize(body.value).username), Normalize(body.value).username, "Login successful")
  {
    match body
    case Parsed(c) => Login(db, Parsed(Normalize(c)), fault, issue)
    case _ => Login(db, body, fault, issue)
  }

  /** Whatever credentials registration accepts, login with the trimming
      correction accepts the very same credentials afterwards. */
  lemma RegisterThenLoginTrimmed(db: Db, c: Credentials, issue: string -> string)
    requires Register(db, Parsed(c), Healthy).0.status == StatusCreated
    ensures LoginTrimmed(Register(db, Parsed(c), Healthy).1, Parsed(c), Healthy, issue)
      == Reply(StatusOK, Token(issue(Normalize(c).username), Normalize(c).username, "Login successful"))
  {
  }

  /** As written, a password registered with surrounding white space can
      never be used to log in: registration stores the trimmed password,
      login compares the untrimmed one. */
  lemma PaddedPasswordLocksOut(issue: string -> string)
    ensures var db := Db(map[], {}, map[], []);
      var c := Credentials("alice", " secret");
      && Register(db, Parsed(c), Healthy).0.status == StatusCreated
      && Login(Register(db, Parsed(c), Healthy).1, Parsed(c), Healthy, issue) == InvalidCredentials
  {
    RegisterPadded();
  }

  lemma RegisterPadded()
    ensures Register(Db(map[], {}, map[], []), Parsed(Credentials("alice", " secret")), Healthy) ==
      (Reply(StatusCreated, Created("User created successfully", "alice")),
       Db(map["alice" := UserRow(Bcrypt("secret"), false, [])], {}, map[], []))
  {
    NormalizePadded();
    var db := Db(map[], {}, map[], []);
    assert Register(db, Parsed(Credentials("alice", " secret")), Healthy) ==
      RegisterNormalized(db, Credentials("alice", "secret"), Healthy);
    RegisterFresh(Credentials("alice", "secret"));
  }

  /** Registering into an empty database. */
  lemma RegisterFresh(n: Credentials)
    requires n.username != "" && n.password != ""
    ensures RegisterNormalized(Db(map[], {}, map[], []), n, Healthy) ==
      (Reply(StatusCreated, Created("User created successfully", n.username)),
       Db(map[n.username := UserRow(Bcrypt(n.password), false, [])], {}, map[], []))
  {
  }

  lemma NormalizePadded()
    ensures Normalize(Credentials("alice", " secret")) == Credentials("alice", "secret")
  {
    TrimOfUnpadded(GoUnicode, "alice");
    TrimOfUnpadded(GoUnicode, "secret");
    assert TrimStart(GoUnicode, " secret") == TrimStart(GoUnicode, "secret") by {
      assert IsSpace(GoUnicode, " secret"[0]);
      assert " secret"[1..] == "secret";
    }
  }

  // ---------------------------------------------------------------- bearer tokens

  const BearerPrefix := "Bearer "

  /** The token `authMiddleware` validates: the header with its first
      `Bearer ` removed (wherever it occurs). */
  function BearerToken(header: string): string {
    ReplaceFirst(header, BearerPrefix, "")
  }

  /** `authMiddleware` up to the wrapped handler: an empty header is refused
      before any validation; otherwise the extracted token must validate, and
      its username claim is handed on. `validate` is `validateToken`. */
  function Authenticate(header: string, validate: string -> Option<string>): (r: Result<string, Reply>)
    ensures header == "" ==> r == Err(Reply(StatusUnauthorized, ErrorText("Authentication required")))
    ensures header != "" && r.Ok? ==> validate(BearerToken(header)) == Some(r.value)
    ensures header != "" && r.Err? ==>
      validate(BearerToken(header)).None? && r.error == Reply(StatusUnauthorized, ErrorText("Invalid token"))
  {
    if header == "" then Err(Reply(StatusUnauthorized, ErrorText("Authentication required")))
    else
      match validate(BearerToken(header))
      case Some(username) => Ok(username)
      case None => Err(Reply(StatusUnauthorized, ErrorText("Invalid token")))
  }

  /** A `Bearer <token>` header yields exactly `<token>`. */
  lemma BearerTokenOfPrefixed(token: string)
    ensures BearerToken(BearerPrefix + token) == token
  {
    assert StartsWith(BearerPrefix + token, BearerPrefix);
    assert (BearerPrefix + token)[|BearerPrefix|..] == token;
  }

  /** In general the first `Bearer ` is cut out wherever it stands, and a
      header without one is taken whole. */
  lemma BearerTokenSpec(header: string, i: int)
    requires OccursAt(header, BearerPrefix, i)
    requires forall j :: 0 <= j < i ==> !OccursAt(header, BearerPrefix, j)
    ensures BearerToken(header) == header[..i] + header[i + |BearerPrefix|..]
  {
    ReplaceFirstAtFirstOccurrence(header, BearerPrefix, "", i);
  }

  lemma BearerTokenWithoutPrefix(header: string)
    requires forall i :: !OccursAt(header, BearerPrefix, i)
    ensures BearerToken(header) == header
  {
    ReplaceFirstWithoutOccurrence(header, BearerPrefix, "");
  }
}
