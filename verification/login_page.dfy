/** The login page's `handleSubmit`: validation, the call to `api.login`,
    and the rule for when the session is written. */
module LoginPage {
  import opened Wrappers
  import opened Text
  import opened Js
  import Session

  const FieldsRequired := "Username and password are required"
  const InvalidResponse := "Invalid response from server"
  const LoginFailed := "Login failed. Please check your credentials."

  datatype Page = Page(username: string, password: string, error: Option<string>, loading: bool,
                       session: Session.Storage)

  predicate Blank(s: string) {
    Trim(EcmaScript, s) == ""
  }

  /** Whether `data.token && data.username` holds, reading both properties
      the way the condition does (`username` is read only when `token` is
      truthy). */
  function SessionFields(data: Json): (r: Result<Option<(Json, Json)>, JsError>)
    ensures r.Err? <==> data.JNull?
    ensures r.Ok? && r.value.Some? ==>
      && Property(data, "token") == Ok(Some(r.value.value.0)) && Truthy(Some(r.value.value.0))
      && Property(data, "username") == Ok(Some(r.value.value.1)) && Truthy(Some(r.value.value.1))
    ensures r.Ok? && r.value.None? ==>
      !Truthy(Property(data, "token").value) || !Truthy(Property(data, "username").value)
  {
    match Property(data, "token")
    case Err(e) => Err(e)
    case Ok(token) =>
      if !Truthy(token) then Ok(None)
      else
        var username := Property(data, "username").value;
        if !Truthy(username) then Ok(None) else Ok(Some((token.value, username.value)))
  }

  /** `handleSubmit`, given what `api.login(username, password)` settled to.
      Returns the next page state and the call's arguments, if it was made. */
  function Submit(p: Page, response: Result<Json, JsError>): (r: (Page, Option<(string, string)>))
    ensures (Blank(p.username) || Blank(p.password)) <==> r.1.None?
    ensures r.1.None? ==> r.0 == p.(error := Some(FieldsRequired))
    ensures r.1.Some? ==> r.1.value == (p.username, p.password) && !r.0.loading
    ensures r.0.username == p.username && r.0.password == p.password
    ensures r.0.session != p.session ==>
      r.1.Some? && response.Ok? && SessionFields(response.value).Ok? && SessionFields(response.value).value.Some?
    ensures r.1.Some? && response.Ok? && SessionFields(response.value).Ok? && SessionFields(response.value).value.Some? ==>
      var fields := SessionFields(response.value).value.value;
      r.0.session == Session.Login(p.session, ToJsString(fields.0), ToJsString(fields.1)) && r.0.error == None
    ensures r.1.Some? && response.Ok? && SessionFields(response.value) == Ok(None) ==>
      r.0.error == Some(InvalidResponse) && r.0.session == p.session
    ensures r.1.Some? && response.Err? ==>
      r.0.error == Some(MessageOr(response.error, LoginFailed)) && r.0.session == p.session
  {
    if Blank(p.username) || Blank(p.password) then (p.(error := Some(FieldsRequired)), None)
    else
      var started := p.(error := None, loading := true);
      var settled := match response
        case Err(e) => started.(error := Some(MessageOr(e, LoginFailed)))
        case Ok(data) =>
          match SessionFields(data)
          case Err(e) => started.(error := Some(MessageOr(e, LoginFailed)))
          case Ok(None) => started.(error := Some(MessageOr(JsError(InvalidResponse), LoginFailed)))
          case Ok(Some((token, username))) =>
            started.(session := Session.Login(p.session, ToJsString(token), ToJsString(username)));
      (settled.(loading := false), Some((p.username, p.password)))
  }

  // ---------------------------------------------------------------- properties

  function TokenReply(token: string, username: string, message: string): Json {
    JObject([("token", JString(token)), ("username", JString(username)), ("message", JString(message))])
  }

  lemma TokenReplyFields(token: string, username: string, message: string)
    requires token != "" && username != ""
    ensures SessionFields(TokenReply(token, username, message)) == Ok(Some((JString(token), JString(username))))
  {
    var fields := TokenReply(token, username, message).fields;
    assert fields[..2] == [("token", JString(token)), ("username", JString(username))];
    assert fields[..2][..1] == [("token", JString(token))];
    assert LastField(fields[..2], "username") == Some(JString(username));
    assert LastField(fields[..2][..1], "token") == Some(JString(token));
  }

  /** A reply carrying a non-empty token and username logs the user in with
      exactly those strings. */
  lemma TokenReplyLogsIn(p: Page, token: string, username: string, message: string)
    requires !Blank(p.username) && !Blank(p.password) && p.session.isBrowser
    requires token != "" && username != ""
    ensures var next := Submit(p, Ok(TokenReply(token, username, message))).0;
      && Session.GetToken(next.session) == Some(token)
      && Session.GetUsername(next.session) == Some(username)
      && next.error == None
  {
    TokenReplyFields(token, username, message);
    Session.LoginThenRead(p.session, token, username);
  }

  /** An error reply `{"error": ...}` leaves the session alone and shows
      "Invalid response from server". */
  lemma ErrorReplyShowsInvalidResponse(p: Page, error: string)
    requires !Blank(p.username) && !Blank(p.password)
    ensures var next := Submit(p, Ok(JObject([("error", JString(error))]))).0;
      next.session == p.session && next.error == Some(InvalidResponse)
  {
    ErrorReplyHasNoToken(error);
  }

  lemma ErrorReplyHasNoToken(error: string)
    ensures SessionFields(JObject([("error", JString(error))])) == Ok(None)
  {
    assert LastField([("error", JString(error))], "token") == None;
  }
}
