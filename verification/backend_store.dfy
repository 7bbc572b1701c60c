/** The backend's persistent state and HTTP replies, abstracted from SQL.
    Users are identified by their username: the `users.username` column is
    UNIQUE and every handler maps a username to its row id first, so the
    follower and request relations are kept over usernames. */
module Store {

  /** A bcrypt hash, modelled by the password it was computed from:
      `CompareHashAndPassword(Bcrypt(p), q)` succeeds exactly when `p == q`. */
  datatype Digest = Bcrypt(password: string)

  /** A `users` row, with the `connected_games` array as the database holds
      it (NULL taken as the empty array). */
  datatype UserRow = UserRow(password: Digest, isPrivate: bool, connectedGames: seq<string>)

  /** A `followers` row or a `follow_requests` key. */
  datatype Edge = Edge(follower: string, following: string)

  datatype RequestStatus = Pending | Accepted | Rejected

  /** A `user_games` row. */
  datatype GameRow = GameRow(user: string, gameName: string, gameUsername: string, gameId: string)

  datatype Db = Db(
    users: map<string, UserRow>,
    followers: set<Edge>,             // UNIQUE(follower_id, following_id)
    requests: map<Edge, RequestStatus>, // UNIQUE(requester_id, target_id)
    userGames: seq<GameRow>)          // no uniqueness constraint

  /** Database failures a handler may meet. Each handler numbers its database
      calls 1, 2, 3, ... in program order; `FailAt(k)` makes call k return an
      error (a lost connection, a constraint violation, a failed commit). */
  datatype Fault = Healthy | FailAt(step: nat)

  predicate Fails(f: Fault, step: nat) {
    f == FailAt(step)
  }

  /** No failure point from `lo` to `hi` (inclusive) fails. */
  predicate NoFailureIn(f: Fault, lo: nat, hi: nat) {
    !(f.FailAt? && lo <= f.step <= hi)
  }

  /** No failure point up to and including `n` fails. */
  predicate Survives(f: Fault, n: nat) {
    NoFailureIn(f, 1, n)
  }

  /** How a request body decodes: `io.ReadAll` fails, the JSON is malformed,
      or it decodes to a value (missing fields decode to Go zero values). */
  datatype RequestBody<T> = Unreadable | Malformed | Parsed(value: T)

  /** The number of `followers` rows whose `following_id` is `u`. */
  function FollowersCount(db: Db, u: string): nat {
    |set e | e in db.followers && e.following == u|
  }

  /** The number of `followers` rows whose `follower_id` is `u`. */
  function FollowingCount(db: Db, u: string): nat {
    |set e | e in db.followers && e.follower == u|
  }
}

/** HTTP replies as the handlers write them. */
module Http {

  const StatusOK := 200
  const StatusCreated := 201
  const StatusBadRequest := 400
  const StatusUnauthorized := 401
  const StatusNotFound := 404
  const StatusConflict := 409
  const StatusInternalServerError := 500

  /** A JSON list of game names as Go's encoder writes a `[]string`: a nil
      slice is written as `null`. */
  datatype GameList = JsonNull | JsonArray(names: seq<string>)

  datatype Body =
    | ErrorJson(error: string)        // http.Error with the text {"error":"<error>"}
    | ErrorText(error: string)        // http.Error with plain text
    | Message(message: string)        // {"message": ...}
    | Created(message: string, username: string)
    | Token(token: string, username: string, message: string)
    | FollowStatus(followState: string, message: string)
    | SelfStatus(followState: string, followersCount: int)
    | Profile(username: string, isPrivate: bool, connectedGames: seq<string>, followersCount: int, followingCount: int)
    | Games(list: GameList)

  datatype Reply = Reply(status: int, body: Body)
}
