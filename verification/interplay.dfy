/** How the frontend and the backend meet: what the client sends is what the
    server reads, and what the server replies is what the components show.
    A backend reply reaches the client through `WireBody` and `Answering`. */
module Interplay {
  import opened Wrappers
  import opened Store
  import opened Http
  import opened Js
  import Text
  import Session
  import UriComponent
  import ApiClient
  import Accounts
  import Social
  import Games
  import FollowButton
  import GameSearchForm
  import LoginPage

  /** A backend reply body as the client parses it. Go writes maps with their
      keys sorted; `http.Error` with a JSON string is still JSON; plain-text
      errors are not, and `parseError` is the `SyntaxError` that yields. The
      profile carries the fields the components read. */
  function WireBody(b: Body, parseError: string): ApiClient.ResponseBody {
    match b
    case ErrorJson(e) => ApiClient.JsonBody(JObject([("error", JString(e))]))
    case ErrorText(_) => ApiClient.NotJson(parseError)
    case Message(m) => ApiClient.JsonBody(JObject([("message", JString(m))]))
    case Created(m, u) => ApiClient.JsonBody(JObject([("message", JString(m)), ("username", JString(u))]))
    case Token(t, u, m) =>
      ApiClient.JsonBody(JObject([("message", JString(m)), ("token", JString(t)), ("username", JString(u))]))
    case FollowStatus(s, m) => ApiClient.JsonBody(JObject([("followState", JString(s)), ("message", JString(m))]))
    case SelfStatus(s, c) => ApiClient.JsonBody(JObject([("followState", JString(s)), ("followersCount", JNumber(c))]))
    case Profile(u, p, games, followers, following) =>
      ApiClient.JsonBody(JObject([("username", JString(u)),
                                  ("connectedGames", JArray(seq(|games|, i requires 0 <= i < |games| => JString(games[i])))),
                                  ("isPrivate", JBool(p)), ("followersCount", JNumber(followers)),
                                  ("followingCount", JNumber(following))]))
    case Games(JsonNull) => ApiClient.JsonBody(JNull)
    case Games(JsonArray(names)) =>
      ApiClient.JsonBody(JArray(seq(|names|, i requires 0 <= i < |names| => JString(names[i]))))
  }

  /** A server that answers every request with `reply`. */
  function Answering(reply: Reply): ApiClient.Request -> ApiClient.Transport {
    (request: ApiClient.Request) => ApiClient.Response(reply.status, WireBody(reply.body, ""))
  }

  // ------------------------------------------------------------ credentials

  /** The token in the session is the token the middleware validates; with
      none stored, the middleware validates the text `null`. */
  lemma StoredTokenReachesMiddleware(storage: Session.Storage, path: string, init: ApiClient.RequestInit,
                                     validate: string -> Option<string>)
    requires storage.isBrowser
    ensures var header := ApiClient.AuthRequest(storage, path, init).value.headers[ApiClient.AuthorizationHeader];
      Accounts.Authenticate(header, validate) ==
        match validate(ApiClient.TokenText(Session.GetToken(storage)))
        case Some(u) => Ok(u)
        case None => Err(Reply(StatusUnauthorized, ErrorText("Invalid token")))
  {
    Accounts.BearerTokenOfPrefixed(ApiClient.TokenText(Session.GetToken(storage)));
  }

  /** A wrong password reaches the login page as a JSON error object without
      a token, so the page says "Invalid response from server" and leaves
      the session alone. */
  lemma WrongPasswordShowsInvalidResponse(db: Db, page: LoginPage.Page, issue: string -> string)
    requires !LoginPage.Blank(page.username) && !LoginPage.Blank(page.password)
    requires page.username in db.users && db.users[page.username].password != Bcrypt(page.password)
    ensures var reply := Accounts.Login(db, Parsed(Accounts.Credentials(page.username, page.password)), Healthy, issue);
      var next := LoginPage.Submit(page, ApiClient.Login(page.username, page.password, Answering(reply))).0;
      next.error == Some(LoginPage.InvalidResponse) && next.session == page.session
  {
    var reply := Accounts.Login(db, Parsed(Accounts.Credentials(page.username, page.password)), Healthy, issue);
    assert reply == Accounts.InvalidCredentials;
    AnsweredLogin(page.username, page.password, reply);
    LoginPage.ErrorReplyShowsInvalidResponse(page, "Invalid credentials");
  }

  /** `api.login` against a server answering `reply` yields the reply's body
      as parsed JSON, whatever its status. */
  lemma AnsweredLogin(username: string, password: string, reply: Reply)
    ensures ApiClient.Login(username, password, Answering(reply)) == ApiClient.ReadJson(WireBody(reply.body, ""))
  {
  }

  // ----------------------------------------------------------------- search

  /** `searchGames(query)` sends a GET whose query string is `q=` and the
      encoded query, and the handler's `Query().Get("q")` reads back exactly
      the query that was typed. */
  lemma SearchSendsQuery(storage: Session.Storage, query: string)
    requires storage.isBrowser
    ensures var request := ApiClient.AuthRequest(storage, ApiClient.SearchPath(query), ApiClient.NoInit).value;
      && request.verb == "GET" && request.body == None
      && request.url == ApiClient.ApiBaseUrl + "/games/search?" + ("q=" + UriComponent.Encode(query))
      && UriComponent.DecodeUtf8(UriComponent.QueryGet("q=" + UriComponent.Encode(query), "q")) == Some(query)
  {
    SearchQueryReachesServer(query);
  }

  /** The search query typed into the form reaches the handler unchanged:
      Go's query parsing gives back the UTF-8 of the query, which decodes to
      it. */
  lemma SearchQueryReachesServer(query: string)
    ensures UriComponent.DecodeUtf8(UriComponent.QueryGet("q=" + UriComponent.Encode(query), "q")) == Some(query)
  {
    assert UriComponent.IsUnreserved('q');
    assert "q" + "=" + UriComponent.Encode(query) == "q=" + UriComponent.Encode(query);
    UriComponent.QueryGetOfEncoded("q", query);
    UriComponent.DecodeUtf8RoundTrip(query);
  }

  /** A needle longer than the haystack is never found. */
  lemma {:induction false} LongNeedleNotContained(hay: string, needle: string)
    requires |needle| > |hay|
    ensures !Text.Contains(hay, needle)
    decreases |hay|
  {
    if |hay| > 0 {
      LongNeedleNotContained(hay[1..], needle);
    }
  }

  /** A query longer than every catalogue name matches nothing. */
  lemma LongQueryMatchesNothing(query: string)
    requires forall g :: g in Games.Catalogue ==> |g| < |query|
    ensures Games.Results(query) == []
  {
    NoShortNameMatches(Games.Catalogue, query);
    NoMembersEmpty(Games.Results(query));
  }

  lemma NoMembersEmpty(s: seq<string>)
    requires forall x :: x !in s
    ensures s == []
  {
    HeadIsMember(s);
  }

  lemma HeadIsMember(s: seq<string>)
    ensures |s| > 0 ==> s[0] in s
  {
  }

  lemma NoShortNameMatches(names: seq<string>, query: string)
    requires forall g :: g in names ==> |g| < |query|
    ensures forall g :: g in names ==> !Games.Matches(Text.Lower(query), g)
  {
    forall g | g in names ensures !Games.Matches(Text.Lower(query), g) {
      LongNeedleNotContained(Text.Lower(g), Text.Lower(query));
    }
  }

  lemma CatalogueNamesAreShort()
    ensures forall g :: g in Games.Catalogue ==> |g| <= 21
  {
  }

  /** A realistic query that matches nothing. */
  lemma NothingMatchesLongQuery()
    ensures Games.Results("minecraft dungeons legends") == []
  {
    CatalogueNamesAreShort();
    LongQueryMatchesNothing("minecraft dungeons legends");
  }

  /** As written, a search that matches nothing is answered with `null`,
      which the form cannot take the length of: it shows the `TypeError`
      text instead of "No games found". With the list always encoded as an
      array, the form shows "No games found". This is the behaviour once the
      request reaches the handler: the client prefixes every path with
      `/api` while the server routes `/games/search` without it (main.go
      line 252), so in this repository the search fails before the handler
      and the form shows "API request failed" instead. */
  lemma EmptySearchShowsTypeError(f: GameSearchForm.Form)
    requires !GameSearchForm.Blank(f.query) && Games.Results(f.query) == []
    ensures GameSearchForm.Search(f, GameSearchForm.Results(Games.EncodeResults(Games.Results(f.query)))).0.error
      == Some(NullPropertyMessage("length"))
    ensures GameSearchForm.Search(f, GameSearchForm.Results(Games.EncodeResultsFixed(Games.Results(f.query)))).0.error
      == Some(GameSearchForm.NoGamesFound)
  {
  }

  // ----------------------------------------------------------- follow button

  /** The outcome the button's handlers see for a follow or unfollow reply,
      if the client call returns the parsed body on success and throws
      otherwise, as `fetchWithAuth` does. */
  function OutcomeOf(reply: Reply): (r: FollowButton.Outcome)
    ensures r.Replied? <==> reply.status == StatusOK && reply.body.FollowStatus?
    ensures r.Replied? ==> r.followState == reply.body.followState
  {
    if reply.status == StatusOK && reply.body.FollowStatus? then FollowButton.Replied(reply.body.followState)
    else FollowButton.Failed
  }

  /** The button shown to `me` on the profile of `target` agrees with the
      database: it says "following" exactly when the edge exists, "requested"
      only while a request is stored and no edge exists, and it shows the
      follower count the profile query would return. */
  predicate InSync(b: FollowButton.Button, db: Db, me: string, target: string) {
    && me in db.users && target in db.users && me != target
    && (b.state == FollowButton.NotFollowing || b.state == FollowButton.Following || b.state == FollowButton.Requested)
    && (b.state == FollowButton.Following <==> Edge(me, target) in db.followers)
    && (b.state == FollowButton.Requested ==> Edge(me, target) in db.requests)
    && b.followersCount == FollowersCount(db, target)
  }

  /** Clicking "Follow" keeps the button in step with the server, on a
      public target (one more follower) and on a private one (a request,
      same count). */
  lemma FollowKeepsSync(b: FollowButton.Button, p: FollowButton.Props, db: Db, me: string, target: string)
    requires InSync(b, db, me, target) && !b.isLoading && b.state == FollowButton.NotFollowing
    requires p.currentUsername == me && p.targetUsername == target
    ensures var r := Social.Follow(db, me, target, Healthy);
      InSync(FollowButton.Click(b, p, OutcomeOf(r.0)), r.1, me, target)
  {
    Social.FollowersCountAfterFollow(db, me, target);
  }

  /** With the corrected count update, leaving "following" and cancelling a
      request both keep the button in step with the server. */
  lemma UnfollowCorrectedKeepsSync(b: FollowButton.Button, db: Db, me: string, target: string)
    requires InSync(b, db, me, target) && !b.isLoading
    requires b.state == FollowButton.Following || b.state == FollowButton.Requested
    ensures var r := Social.Unfollow(db, me, target, Healthy);
      InSync(FollowButton.EndUnfollowCorrected(FollowButton.BeginUnfollow(b).value, OutcomeOf(r.0)).0, r.1, me, target)
  {
    Social.FollowersCountAfterUnfollow(db, me, target);
  }

  /** As written, cancelling a request always leaves the button one
      follower short of the server. This is the behaviour once the button
      is mounted and `api.unfollowUser` exists; in this repository the
      client defines no such call and no page renders the button, so the
      mismatch cannot yet be seen. */
  lemma CancelRequestBreaksSync(b: FollowButton.Button, p: FollowButton.Props, db: Db, me: string, target: string)
    requires InSync(b, db, me, target) && !b.isLoading && b.state == FollowButton.Requested
    ensures var r := Social.Unfollow(db, me, target, Healthy);
      && FollowButton.Click(b, p, OutcomeOf(r.0)).followersCount == FollowersCount(r.1, target) - 1
      && !InSync(FollowButton.Click(b, p, OutcomeOf(r.0)), r.1, me, target)
  {
    Social.FollowersCountAfterUnfollow(db, me, target);
  }
}
