/** The frontend's API service: `fetchWithAuth` and the `api` calls built on
    it. The network is a parameter `send` from the request to what came back;
    nothing here retries, caches or times out. */
module ApiClient {
  import opened Wrappers
  import opened Js
  import Session
  import UriComponent

  const ApiBaseUrl := "http://localhost:8080/api"
  const ApiRequestFailed := "API request failed"
  const AuthorizationHeader := "Authorization"
  const ContentTypeHeader := "Content-Type"
  const JsonContentType := "application/json"

  /** The part of `RequestInit` these calls use. `method` absent means GET. */
  datatype RequestInit = RequestInit(verb: Option<string>, headers: map<string, string>, body: Option<Json>)

  datatype Request = Request(url: string, verb: string, headers: map<string, string>, body: Option<Json>)

  /** A response body: JSON, or text `response.json()` rejects with a
      `SyntaxError` carrying `parseError`. */
  datatype ResponseBody = JsonBody(value: Json) | NotJson(parseError: string)

  /** What `fetch` settles to: a rejection (network failure, refused CORS)
      with its message, or a response with a status. */
  datatype Transport = NetworkError(message: string) | Response(status: int, body: ResponseBody)

  /** `response.ok`. */
  predicate IsOk(status: int) {
    200 <= status <= 299
  }

  /** `response.json()`. */
  function ReadJson(body: ResponseBody): (r: Result<Json, JsError>)
    ensures r.Ok? <==> body.JsonBody?
    ensures r.Ok? ==> r.value == body.value
    ensures r.Err? ==> r.error.message == body.parseError
  {
    match body
    case JsonBody(v) => Ok(v)
    case NotJson(e) => Err(JsError(e))
  }

  /** The token text interpolated into the header: a missing item reads as
      JavaScript `null`, which prints as `null`. */
  function TokenText(token: Option<string>): (r: string)
    ensures token.Some? ==> r == token.value
    ensures token.None? ==> r == "null"
  {
    if token.Some? then token.value else "null"
  }

  /** The request `fetchWithAuth(path, init)` sends. The token is read from
      `localStorage` directly, which does not exist outside a browser. */
  function AuthRequest(storage: Session.Storage, path: string, init: RequestInit): (r: Result<Request, JsError>)
    ensures r.Ok? <==> storage.isBrowser
    ensures r.Ok? ==>
      && r.value.url == ApiBaseUrl + path
      && r.value.verb == (if init.verb.Some? then init.verb.value else "GET")
      && r.value.body == init.body
      && r.value.headers.Keys == init.headers.Keys + {AuthorizationHeader, ContentTypeHeader}
      && r.value.headers[AuthorizationHeader] == "Bearer " + TokenText(Session.GetItem(storage, Session.TokenKey))
      && r.value.headers[ContentTypeHeader] == JsonContentType
      && (forall k :: k in init.headers && k != AuthorizationHeader && k != ContentTypeHeader ==>
            r.value.headers[k] == init.headers[k])
  {
    if !storage.isBrowser then Err(JsError("localStorage is not defined"))
    else
      var token := Session.GetItem(storage, Session.TokenKey);
      var headers := init.headers[AuthorizationHeader := "Bearer " + TokenText(token)][ContentTypeHeader := JsonContentType];
      Ok(Request(ApiBaseUrl + path, if init.verb.Some? then init.verb.value else "GET", headers, init.body))
  }

  /** `fetchWithAuth`: any non-ok response, whatever its status and body,
      becomes the one error "API request failed"; an ok one yields its
      parsed body. */
  function FetchWithAuth(storage: Session.Storage, path: string, init: RequestInit, send: Request -> Transport): (r: Result<Json, JsError>)
    ensures !storage.isBrowser ==> r.Err?
    ensures storage.isBrowser ==>
      var sent := send(AuthRequest(storage, path, init).value);
      && (sent.NetworkError? ==> r == Err(JsError(sent.message)))
      && (sent.Response? && !IsOk(sent.status) ==> r == Err(JsError(ApiRequestFailed)))
      && (sent.Response? && IsOk(sent.status) ==> r == ReadJson(sent.body))
  {
    match AuthRequest(storage, path, init)
    case Err(e) => Err(e)
    case Ok(request) =>
      match send(request)
      case NetworkError(m) => Err(JsError(m))
      case Response(status, body) =>
        if !IsOk(status) then Err(JsError(ApiRequestFailed)) else ReadJson(body)
  }

  /** `register` and `login`: a POST of `{username, password}` with only a
      content type, and the body read whatever the status. */
  function CredentialsRequest(path: string, username: string, password: string): (r: Request)
    ensures r.url == ApiBaseUrl + path && r.verb == "POST"
    ensures r.headers == map[ContentTypeHeader := JsonContentType]
    ensures AuthorizationHeader !in r.headers
    ensures r.body == Some(JObject([("username", JString(username)), ("password", JString(password))]))
  {
    Request(ApiBaseUrl + path, "POST", map[ContentTypeHeader := JsonContentType],
            Some(JObject([("username", JString(username)), ("password", JString(password))])))
  }

  /** `res.json()` after a plain `fetch`, with no look at `res.ok`. */
  function ReadAnyResponse(sent: Transport): (r: Result<Json, JsError>)
    ensures sent.NetworkError? ==> r == Err(JsError(sent.message))
    ensures sent.Response? ==> r == ReadJson(sent.body)
  {
    match sent
    case NetworkError(m) => Err(JsError(m))
    case Response(_, body) => ReadJson(body)
  }

  function Health(send: Request -> Transport): Result<Json, JsError> {
    ReadAnyResponse(send(Request(ApiBaseUrl + "/health", "GET", map[], None)))
  }

  function Register(username: string, password: string, send: Request -> Transport): Result<Json, JsError> {
    ReadAnyResponse(send(CredentialsRequest("/register", username, password)))
  }

  function Login(username: string, password: string, send: Request -> Transport): Result<Json, JsError> {
    ReadAnyResponse(send(CredentialsRequest("/login", username, password)))
  }

  const NoInit := RequestInit(None, map[], None)

  function GetProfile(storage: Session.Storage, send: Request -> Transport): Result<Json, JsError> {
    FetchWithAuth(storage, "/profile", NoInit, send)
  }

  function ConnectTwitch(storage: Session.Storage, twitchUsername: string, send: Request -> Transport): Result<Json, JsError> {
    FetchWithAuth(storage, "/connect/twitch",
                  RequestInit(Some("POST"), map[], Some(JObject([("twitchUsername", JString(twitchUsername))]))), send)
  }

  function ConnectDiscord(storage: Session.Storage, discordUsername: string, send: Request -> Transport): Result<Json, JsError> {
    FetchWithAuth(storage, "/connect/discord",
                  RequestInit(Some("POST"), map[], Some(JObject([("discordUsername", JString(discordUsername))]))), send)
  }

  /** The path `searchGames(query)` requests. */
  function SearchPath(query: string): string {
    "/games/search?q=" + UriComponent.Encode(query)
  }

  function SearchGames(storage: Session.Storage, query: string, send: Request -> Transport): Result<Json, JsError> {
    FetchWithAuth(storage, SearchPath(query), NoInit, send)
  }

  // ---------------------------------------------------------------- properties

  /** Without a stored token the request still goes out, carrying
      `Bearer null`: there is no local check for being logged in. */
  lemma NoTokenStillSends(storage: Session.Storage, path: string, init: RequestInit, send: Request -> Transport)
    requires storage.isBrowser && Session.TokenKey !in storage.local
    ensures AuthRequest(storage, path, init).Ok?
    ensures AuthRequest(storage, path, init).value.headers[AuthorizationHeader] == "Bearer null"
    ensures FetchWithAuth(storage, path, init, send) ==
      match send(AuthRequest(storage, path, init).value)
      case NetworkError(m) => Err(JsError(m))
      case Response(status, body) => if IsOk(status) then ReadJson(body) else Err(JsError(ApiRequestFailed))
  {
  }

  /** Two non-ok responses, whatever their statuses and bodies, give the same
      outcome. */
  lemma NonOkIndistinguishable(storage: Session.Storage, path: string, init: RequestInit,
                               send1: Request -> Transport, send2: Request -> Transport)
    requires storage.isBrowser
    requires var request := AuthRequest(storage, path, init).value;
      send1(request).Response? && !IsOk(send1(request).status) &&
      send2(request).Response? && !IsOk(send2(request).status)
    ensures FetchWithAuth(storage, path, init, send1) == FetchWithAuth(storage, path, init, send2)
    ensures FetchWithAuth(storage, path, init, send1) == Err(JsError(ApiRequestFailed))
  {
  }

  /** `register` and `login` read the body whatever the status: two
      responses with the same body give the same result, a JSON body yields
      its value, and other text rejects with its parse error. */
  lemma ReadAnyIgnoresStatus(status1: int, status2: int, body: ResponseBody)
    ensures ReadAnyResponse(Response(status1, body)) == ReadAnyResponse(Response(status2, body))
    ensures body.JsonBody? ==> ReadAnyResponse(Response(status1, body)) == Ok(body.value)
    ensures body.NotJson? ==> ReadAnyResponse(Response(status1, body)) == Err(JsError(body.parseError))
  {
  }

  /** The same JSON error reply reaches a caller of `register` or `login` as
      a value, and a caller of `fetchWithAuth` as "API request failed". */
  lemma ErrorReplyReadTwoWays(storage: Session.Storage, path: string, init: RequestInit,
                              status: int, v: Json, send: Request -> Transport)
    requires storage.isBrowser && !IsOk(status)
    requires send(AuthRequest(storage, path, init).value) == Response(status, JsonBody(v))
    ensures ReadAnyResponse(Response(status, JsonBody(v))) == Ok(v)
    ensures FetchWithAuth(storage, path, init, send) == Err(JsError(ApiRequestFailed))
  {
  }

  /** A caller that sets both forced headers itself has its values replaced:
      the request carries the stored token and the JSON content type
      instead, and every other header of the caller is passed on. */
  lemma ForcedHeadersWin(storage: Session.Storage, path: string, init: RequestInit, token: string)
    requires storage.isBrowser && Session.TokenKey in storage.local && storage.local[Session.TokenKey] == token
    requires AuthorizationHeader in init.headers && ContentTypeHeader in init.headers
    ensures var headers := AuthRequest(storage, path, init).value.headers;
      && headers.Keys == init.headers.Keys
      && headers[AuthorizationHeader] == "Bearer " + token && headers[ContentTypeHeader] == JsonContentType
      && (init.headers[AuthorizationHeader] != "Bearer " + token ==>
            headers[AuthorizationHeader] != init.headers[AuthorizationHeader])
      && (init.headers[ContentTypeHeader] != JsonContentType ==>
            headers[ContentTypeHeader] != init.headers[ContentTypeHeader])
      && (forall k :: k in init.headers && k != AuthorizationHeader && k != ContentTypeHeader ==>
            headers[k] == init.headers[k])
  {
  }
}
