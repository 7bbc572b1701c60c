/** The client's session store (`auth` in the frontend services): two keys,
    `token` and `username`, in the browser's `localStorage`. Outside a
    browser (server-side rendering) reads give null and writes do nothing. */
module Session {
  import opened Wrappers

  const TokenKey := "token"
  const UsernameKey := "username"

  /** `localStorage` as a string-to-string map, plus whether `window` exists. */
  datatype Storage = Storage(isBrowser: bool, local: map<string, string>)

  /** `localStorage.getItem(key)`: null for a missing key. */
  function GetItem(s: Storage, key: string): (r: Option<string>)
    ensures r.Some? <==> key in s.local
    ensures r.Some? ==> r.value == s.local[key]
  {
    if key in s.local then Some(s.local[key]) else None
  }

  /** `auth.getToken`. */
  function GetToken(s: Storage): (r: Option<string>)
    ensures !s.isBrowser ==> r == None
    ensures s.isBrowser ==> (r.Some? <==> TokenKey in s.local)
    ensures r.Some? ==> r.value == s.local[TokenKey]
  {
    if !s.isBrowser then None else GetItem(s, TokenKey)
  }

  /** `auth.getUsername`. */
  function GetUsername(s: Storage): (r: Option<string>)
    ensures !s.isBrowser ==> r == None
    ensures s.isBrowser ==> (r.Some? <==> UsernameKey in s.local)
    ensures r.Some? ==> r.value == s.local[UsernameKey]
  {
    if !s.isBrowser then None else GetItem(s, UsernameKey)
  }

  /** `auth.isAuthenticated`: `!!` of the stored token, so a missing token and
      an empty one both count as logged out. */
  function IsAuthenticated(s: Storage): (r: bool)
    ensures r <==> s.isBrowser && TokenKey in s.local && s.local[TokenKey] != ""
  {
    if !s.isBrowser then false
    else match GetItem(s, TokenKey)
      case None => false
      case Some(t) => |t| > 0
  }

  /** `auth.login`: both keys written, nothing else touched. */
  function Login(s: Storage, token: string, username: string): (r: Storage)
    ensures r.isBrowser == s.isBrowser
    ensures !s.isBrowser ==> r == s
    ensures s.isBrowser ==> r.local.Keys == s.local.Keys + {TokenKey, UsernameKey}
    ensures forall k :: k in s.local && k != TokenKey && k != UsernameKey ==> k in r.local && r.local[k] == s.local[k]
  {
    if !s.isBrowser then s
    else s.(local := s.local[TokenKey := token][UsernameKey := username])
  }

  /** `auth.logout`: both keys removed, nothing else touched. */
  function Logout(s: Storage): (r: Storage)
    ensures r.isBrowser == s.isBrowser
    ensures !s.isBrowser ==> r == s
    ensures s.isBrowser ==> r.local.Keys == s.local.Keys - {TokenKey, UsernameKey}
    ensures forall k :: k in r.local ==> k in s.local && r.local[k] == s.local[k]
  {
    if !s.isBrowser then s
    else s.(local := s.local - {TokenKey, UsernameKey})
  }

  // ---------------------------------------------------------------- properties

  /** After a login in a browser both reads return what was written. */
  lemma LoginThenRead(s: Storage, token: string, username: string)
    requires s.isBrowser
    ensures GetToken(Login(s, token, username)) == Some(token)
    ensures GetUsername(Login(s, token, username)) == Some(username)
    ensures IsAuthenticated(Login(s, token, username)) <==> token != ""
  {
  }

  /** After a logout nobody is authenticated and both reads are null. */
  lemma LogoutThenRead(s: Storage)
    ensures !IsAuthenticated(Logout(s))
    ensures GetToken(Logout(s)) == None && GetUsername(Logout(s)) == None
  {
  }

  lemma LogoutIdempotent(s: Storage)
    ensures Logout(Logout(s)) == Logout(s)
  {
  }

  /** Logging out after logging in forgets exactly the session keys. */
  lemma LogoutUndoesLogin(s: Storage, token: string, username: string)
    ensures Logout(Login(s, token, username)) == Logout(s)
  {
    if s.isBrowser {
      assert Logout(Login(s, token, username)).local == Logout(s).local;
    }
  }
}
