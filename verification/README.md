# Gamer social network: backend rules and client state machines

This project models the rule-bearing core of a small social network for gamers.

The backend is a Go HTTP server over PostgreSQL (`backend/cmd/server/main.go`). The model covers:
- the `StringArray` codec for the `connected_games` column;
- the game search filter;
- registration, login and the bearer-token middleware;
- connecting and disconnecting games;
- the follow / unfollow / follow-state / accept / reject handlers;
- the follower counts of the profile handler.

The frontend is a Next.js application. The model covers:
- the session store (`auth.ts`);
- the request envelope (`api.ts`);
- the follow button;
- the game search form;
- the login page.

All of it is modelled as pure Dafny functions over immutable data. The database is a record (`Store.Db`) of:
- users keyed by username;
- a `followers` edge set;
- a `follow_requests` status map;
- the `user_games` rows.

Each handler is a function from that record and its inputs to a reply and the next record. Every database call a handler makes is a numbered failure point: `Fault = Healthy | FailAt(k)`. This lets each error branch and its exact message be stated.

bcrypt is modelled by `Store.Bcrypt(password)`. JWT signing and validation are function parameters. The network is a parameter `send` from request to response. Component handlers are split at their `await`: the settled promise is an input.

Modules, one per file:

| file | module | what it models |
|---|---|---|
| wrappers.dfy | Wrappers | `Option` and `Result` |
| seqs.dfy | Seqs | order-preserving filtering and subsequences |
| text.dfy | Text | Go's `ToLower` (ASCII), `Contains`, `Replace(…,1)`, `Split`, `Join`, `TrimSpace`; ECMAScript `trim`. `Contains`, `ReplaceFirst` and `Trim` are stated by the rows `Text.ContainsIffOccurs`, `Text.ReplaceFirst…`, `Text.TrimStart` and `Text.TrimEnd` |
| string_array.dfy | StringArray | `StringArray.Value` / `Scan`, the text PostgreSQL prints for a `TEXT[]` column, and a quote-aware reader |
| backend_store.dfy | Store, Http | database state, failure points, replies |
| games.dfy | Games | `searchGamesHandler` |
| accounts.dfy | Accounts | `registerHandler`, `loginHandler`, `authMiddleware`. The token extraction `BearerToken` is stated by the rows `Accounts.BearerToken…` |
| social.dfy | Social | the follow handlers and the profile counts |
| game_links.dfy | GameLinks | `connectGameHandler`, `disconnectGameHandler` |
| session.dfy | Session | `auth.ts` |
| uri.dfy | UriComponent | `encodeURIComponent` (section 19.2.6.5 of ECMA-262), UTF-8 (RFC 3629), Go's query parsing. `QueryGet` and `FirstValue` are stated by the row `UriComponent.QueryGetOfEncoded` |
| js.dfy | Js | JSON values, truthiness, property reads, `TypeError` text |
| api_client.dfy | ApiClient | `fetchWithAuth` and the `api` calls |
| follow_button.dfy | FollowButton | `FollowButton.tsx` |
| game_search_form.dfy | GameSearchForm | `GameSearch.tsx` |
| login_page.dfy | LoginPage | `app/login/page.tsx` |
| interplay.dfy | Interplay | client and server together: what is sent is what is read, and what is replied is what is shown |

## What the client code does

- `fetchWithAuth` has no local "unauthenticated" check. With no stored token it sends `Authorization: Bearer null`.
- A non-ok response always becomes the single error "API request failed". The body's `error` field is never read and no status is attached.
- No `Accept` header is added.
- `api.login` and `api.register` do not write the session. The login page does, and only when both `token` and `username` are truthy.
- `api.ts` defines no `followUser`, `unfollowUser` or `connectGame`, although the components call them. The model takes the outcome of those calls as an input.
- The client's base URL ends in `/api`, while most server routes have no such prefix. Routing is not modelled.

## Model

| member | source | states |
|---|---|---|
| StringArray.Value | backend/cmd/server/main.go:85-90 | the text is braces around the elements joined by commas; the empty list is `{}` |
| StringArray.Scan | backend/cmd/server/main.go:60-83 | nil and `{}` read as the empty list; a non-byte value is the unsupported-type error and nothing else; a byte text shorter than two is the slice panic; otherwise the pieces hold no comma and join back to the text between the braces |
| StringArray.ScanValueRoundTrip | backend/cmd/server/main.go:60-90 | reading back what was written gives the list exactly when no element has a comma and the list is not `[""]` |
| StringArray.ValueScanRoundTrip | backend/cmd/server/main.go:60-90 | any braced text is read and rewritten unchanged |
| StringArray.ArrayOut | backend/cmd/server/main.go:131 | the database's text for a `TEXT[]` value is braced, and equals what `Value` writes whenever no element needs quoting |
| StringArray.ScanPlainArrayOut | backend/cmd/server/main.go:60-83 | when no element needs quoting, `Scan` reads the database's text back as the stored list |
| StringArray.QuotedElementKeepsQuotes | backend/cmd/server/main.go:60-83 | an element the database quotes is read by `Scan` with its double quotes still around it |
| StringArray.SpacedNameReadBack | backend/cmd/server/main.go:60-83 | "League of Legends" is read back as `"League of Legends"` with the quotes, not as the stored name; the quote-aware reader gives the name |
| StringArray.ScanQuotedRoundTrip | backend/cmd/server/main.go:60-83 | the quote-aware reader reads the database's text of any list back as that list |
| Text.Lower | backend/cmd/server/main.go:578 | lower-casing keeps the length and maps each character through ASCII lower-casing |
| Text.ContainsIffOccurs | backend/cmd/server/main.go:605 | the scan finds the needle exactly when it occurs at some index |
| Text.Split | backend/cmd/server/main.go:75 | splitting gives at least one piece, no piece holds the separator, and joining the pieces gives the text back |
| Text.SplitJoin | backend/cmd/server/main.go:73-78 | splitting a join of comma-free parts gives the parts back |
| Text.ReplaceFirstAtFirstOccurrence | backend/cmd/server/main.go:452 | only the first occurrence is replaced and the text around it is kept |
| Text.ReplaceFirstWithoutOccurrence | backend/cmd/server/main.go:452 | with no occurrence, replacing changes nothing |
| Text.TrimStart | backend/cmd/server/main.go:314-315 | the result is a suffix, everything dropped is white space, and the result does not start with white space |
| Text.TrimEnd | backend/cmd/server/main.go:314-315 | the result is a prefix, everything dropped is white space, and the result does not end with white space |
| Text.TrimEmptyIffAllSpace | frontend/src/app/login/page.tsx:18 | a string trims to empty exactly when it is all white space |
| Seqs.Filter | backend/cmd/server/main.go:603-608 | an element is kept iff it is a member that passes, and the result is a subsequence of the input |
| Seqs.FilterCounts | backend/cmd/server/main.go:603-608 | every copy of a passing element is kept and no copy of a failing one |
| Seqs.FilterSnoc | backend/cmd/server/main.go:604-607 | filtering one more element extends the filtered prefix by that element iff it passes |
| Games.MatchingGames | backend/cmd/server/main.go:603-608 | the loop's result is the in-order filter of the names by the lower-cased match |
| Games.Results | backend/cmd/server/main.go:585-608 | a game is in the result iff it is in the catalogue and its lower-cased name contains the lower-cased query; the result is a subsequence of the catalogue |
| Games.EncodeResults | backend/cmd/server/main.go:603-610 | the encoding is `null` exactly when nothing matched, and otherwise lists the matches |
| Games.EncodeResultsFixed | backend/cmd/server/main.go:603-610 | the corrected encoding is always an array listing the matches |
| Games.SearchGames | backend/cmd/server/main.go:574-611 | an empty `q` is the 400 "Search query is required", and only that; otherwise a 200 listing exactly the matching catalogue games in catalogue order, `null` iff none |
| Accounts.RegisterNormalized | backend/cmd/server/main.go:314-358 | 201 iff the trimmed fields are non-empty, the name is free and no later step fails; then exactly one user row is added with the hashed trimmed password; an empty field is the 400, a taken name the 409 "Username already exists"; a refusal changes nothing |
| Accounts.Register | backend/cmd/server/main.go:279-361 | a ping failure is the 500 "Database connection error" and changes nothing, an unreadable or malformed body a 400 with its own message, and a parsed body is handled on its trimmed fields |
| Accounts.Login | backend/cmd/server/main.go:363-428 | 200 iff the user exists and the untrimmed password matches the stored hash, with the signed token, the username and "Login successful"; an unknown user and a wrong password get the same 401 "Invalid credentials" |
| Accounts.PaddedPasswordLocksOut | backend/cmd/server/main.go:314-407 | a password registered with a leading space is accepted by registration and then refused by login |
| Accounts.LoginTrimmed | backend/cmd/server/main.go:376-427 | the corrected login succeeds iff the trimmed username exists and the trimmed password matches its hash, and then replies with the trimmed username's token |
| Accounts.RegisterThenLoginTrimmed | backend/cmd/server/main.go:314-427 | whatever registration accepts, the corrected login accepts afterwards with the same credentials |
| Accounts.Authenticate | backend/cmd/server/main.go:445-461 | an empty header is the 401 "Authentication required" before validation; otherwise the username handed on is the one the validator returns for the extracted token, else the 401 "Invalid token" |
| Accounts.BearerTokenOfPrefixed | backend/cmd/server/main.go:452 | `Bearer <t>` yields exactly `t` |
| Accounts.BearerTokenSpec | backend/cmd/server/main.go:452 | the first `Bearer ` is cut out wherever it stands |
| Accounts.BearerTokenWithoutPrefix | backend/cmd/server/main.go:452 | a header without `Bearer ` is taken whole |
| GameLinks.AppendAbsent | backend/cmd/server/main.go:682-686 | the name ends up listed; a listed name leaves the list alone, an absent one is appended |
| GameLinks.RemoveAll | backend/cmd/server/main.go:966-970 | every occurrence of the name is removed; every other element keeps its number of copies and its order |
| GameLinks.OtherRows | backend/cmd/server/main.go:956-959 | every copy of the user's rows for that game is deleted; every other row keeps its number of copies and its order |
| GameLinks.Connect | backend/cmd/server/main.go:641-702 | an undecodable body is the 400 "Invalid request body"; a missing user or a failed lookup is the 500 "Failed to get user ID", and the begin, insert, array update and commit failures are the 500s "Failed to start transaction", "Failed to connect game", "Failed to update user's connected games" and "Failed to commit transaction"; a failure changes nothing; success appends the row, leaves `connected_games` as `AppendAbsent` of the old list, and keeps the password and privacy |
| GameLinks.Disconnect | backend/cmd/server/main.go:927-986 | an undecodable body is the 400 "Invalid request body"; the failures map to the same 500 messages as connect, with "Failed to disconnect game" for the delete, and change nothing; success leaves exactly `RemoveAll` of the list and `OtherRows` of the table, and keeps the password and privacy |
| GameLinks.ConnectKeepsNoDuplicates | backend/cmd/server/main.go:682-686 | a duplicate-free `connected_games` stays duplicate-free under any connect |
| GameLinks.ConnectTwiceListsOnce | backend/cmd/server/main.go:682-686 | the second connect of a game leaves `connected_games` as the first left it |
| GameLinks.DisconnectRemovesGame | backend/cmd/server/main.go:956-970 | after disconnecting, the game is neither listed nor backed by a row |
| GameLinks.DisconnectUndoesConnect | backend/cmd/server/main.go:641-986 | disconnecting a game that was not linked undoes the connect |
| GameLinks.SpacedGameShowsQuoted | backend/cmd/server/main.go:641-1173 | after connecting "League of Legends", the profile as written lists `"League of Legends"` with quotes, and the corrected profile lists the name |
| Social.Follow | backend/cmd/server/main.go:988-1070 | self-follow is the 400; a failed follower lookup the 500 "Failed to get follower ID", a failed target lookup the 500 "Failed to get target user", a missing target the 404; the state, insert and commit failures are the 500s "Internal server error", "Error processing follow action" and "Error completing follow action"; a failure changes nothing; on a public target the edge is added and the reply is "following"; on a private one the request becomes pending unless it is pending or accepted already and the reply is "requested"; nothing else changes |
| Social.Unfollow | backend/cmd/server/main.go:1072-1128 | success removes both the edge and the request when both users exist and replies "not_following"; a failure changes nothing |
| Social.Answer | backend/cmd/server/main.go:1275-1375 | the request from the caller to the path user gets the decided status if it exists; follower edges never change; a missing user is the 404 "User not found" |
| Social.FollowStateQuery | backend/cmd/server/main.go:1189-1273 | yourself is "self" with count 0; otherwise the reported state is "requested" iff the target is private and "following" iff it is public, whatever the relation |
| Social.GetProfile | backend/cmd/server/main.go:1130-1173 | the caller's profile with the number of edges into and out of them, and `connected_games` as `Scan` reads the database's text (the stored list when no name needs quoting); a failed count query leaves both counts 0 |
| Social.GetProfileCorrected | backend/cmd/server/main.go:1130-1173 | with a quote-aware read the status and errors are unchanged and the profile lists exactly the stored games |
| Social.FollowIdempotent | backend/cmd/server/main.go:1028-1043 | following twice leaves the state following once leaves |
| Social.UnfollowUndoesFollow | backend/cmd/server/main.go:1028-1111 | unfollowing undoes a follow made from no relation |
| Social.FollowersCountAfterFollow | backend/cmd/server/main.go:1039-1043 | a successful follow raises the follower count by one exactly when it creates a new public edge |
| Social.FollowersCountAfterUnfollow | backend/cmd/server/main.go:1085-1094 | a successful unfollow lowers the follower count by one exactly when the edge existed |
| Social.FollowStateIgnoresRelation | backend/cmd/server/main.go:1258-1266 | a stranger to a private account is told "requested", and a stranger to a public one "following" |
| Social.FollowStateQueryCorrected | backend/cmd/server/main.go:1228-1266 | the corrected state is "following" iff the edge exists, "requested" iff a pending request to a private target exists without an edge, "not_following" otherwise |
| Social.StateAfterFollowAndUnfollow | backend/cmd/server/main.go:1057-1127 | with the corrected query, and the request between the two users, if accepted, backed by its edge, the state after a follow is what the follow replied, unless `me` already followed `target`, in which case it stays "following"; after an unfollow it is "not_following" |
| Social.FollowKeepsAcceptedFollowers | backend/cmd/server/main.go:1028-1062 | a follow keeps every accepted request backed by its edge |
| Social.UnfollowKeepsAcceptedFollowers | backend/cmd/server/main.go:1085-1111 | an unfollow keeps every accepted request backed by its edge |
| Social.AnswerCorrectedKeepsAcceptedFollowers | backend/cmd/server/main.go:1275-1375 | the corrected answer keeps every accepted request backed by its edge |
| Social.SelfAcceptStrandsRequest | backend/cmd/server/main.go:1281-1307 | as written, a requester accepting their own request marks it accepted with no edge; the next follow replies "requested" while the relation is "not_following" |
| Social.FollowerOfPrivateToldRequested | backend/cmd/server/main.go:1057-1062 | an existing follower of a private account who follows again is replied "requested" while the relation stays "following" |
| Social.AcceptNeverAddsFollower | backend/cmd/server/main.go:1281-1307 | after a request to a private account is accepted by that account, the request is still pending and there is no edge |
| Social.AnswerCorrected | backend/cmd/server/main.go:1275-1375 | the corrected answer updates the request from the path user to the caller; accepting adds exactly that follower edge if the request exists |
| Social.RequestThenAcceptFollows | backend/cmd/server/main.go:1028-1307 | with the corrected answer, request then accept makes the requester a follower |
| Session.GetToken | frontend/src/services/auth.ts:9-12 | null outside a browser, else the stored token |
| Session.GetUsername | frontend/src/services/auth.ts:14-17 | null outside a browser, else the stored username |
| Session.IsAuthenticated | frontend/src/services/auth.ts:4-7 | true iff in a browser with a stored, non-empty token |
| Session.Login | frontend/src/services/auth.ts:19-23 | writes both keys and no other; outside a browser changes nothing |
| Session.Logout | frontend/src/services/auth.ts:25-29 | removes both keys and no other; outside a browser changes nothing |
| Session.LoginThenRead | frontend/src/services/auth.ts:4-23 | after login the reads return what was written, and authentication holds iff the token is non-empty |
| Session.LogoutThenRead | frontend/src/services/auth.ts:4-29 | after logout nobody is authenticated and both reads are null |
| Session.LogoutIdempotent | frontend/src/services/auth.ts:25-29 | logging out twice is logging out once |
| Session.LogoutUndoesLogin | frontend/src/services/auth.ts:19-29 | logout after login forgets exactly the session keys |
| UriComponent.EncodeScalar | frontend/src/services/api.ts:44 | one to four bytes, a single byte exactly for ASCII, and continuation bytes after the first, as UTF-8 writes a scalar |
| UriComponent.DecodeUtf8RoundTrip | frontend/src/services/api.ts:44 | UTF-8 decoding undoes UTF-8 encoding |
| UriComponent.Encode | frontend/src/services/api.ts:44 | the encoding holds only unreserved characters, `%` and hex digits |
| UriComponent.QueryUnescape | backend/cmd/server/main.go:578 | text without `%` or `+` unescapes to its own UTF-8 bytes |
| UriComponent.UnescapeEncodeRoundTrip | frontend/src/services/api.ts:44 | the server unescapes exactly the UTF-8 bytes of what the client encoded |
| UriComponent.QueryGetOfEncoded | backend/cmd/server/main.go:578 | `key=<encoded value>` reads back, under that key, as the UTF-8 of the value |
| Js.LastField | frontend/src/app/login/page.tsx:29 | a field is found iff the object has a field of that name |
| Js.Property | frontend/src/app/login/page.tsx:29 | reading from `null` throws the `TypeError` naming the key, and only that throws; an object yields the last field of that name, nothing if there is none |
| ApiClient.AuthRequest | frontend/src/services/api.ts:1-11 | the URL is base plus path; the headers are the caller's with `Authorization: Bearer <token>` and `Content-Type: application/json` forced; outside a browser `localStorage` is undefined |
| ApiClient.FetchWithAuth | frontend/src/services/api.ts:3-16 | a network failure propagates, any non-ok response is "API request failed", an ok one yields its parsed body |
| ApiClient.CredentialsRequest | frontend/src/services/api.ts:20-31 | register and login POST `{username, password}` with only a content type and no `Authorization` |
| ApiClient.NoTokenStillSends | frontend/src/services/api.ts:4-16 | with no stored token the request still goes out with `Bearer null`, and its reply is handled as any other |
| ApiClient.ReadAnyIgnoresStatus | frontend/src/services/api.ts:19-31 | register and login read the reply the same way whatever its status: a JSON body is the result, other text rejects with its parse error |
| ApiClient.ErrorReplyReadTwoWays | frontend/src/services/api.ts:12-31 | the same non-ok JSON reply is handed over as its body by register and login and becomes "API request failed" in every other call |
| ApiClient.NonOkIndistinguishable | frontend/src/services/api.ts:12-14 | two non-ok responses give the same error, whatever their statuses and bodies |
| ApiClient.ForcedHeadersWin | frontend/src/services/api.ts:5-9 | a caller that sets `Authorization` and `Content-Type` itself has both replaced by the stored token and the JSON type, and keeps its other headers |
| FollowButton.FromServer | frontend/src/components/FollowButton.tsx:43 | each of "not_following", "following", "requested" and "self" maps to its own state, and any other string is kept as it is |
| FollowButton.FromServerKeepsString | frontend/src/components/FollowButton.tsx:43 | two server strings give the same state iff they are the same string |
| FollowButton.MountedState | frontend/src/components/FollowButton.tsx:27-34 | after mounting and the effect the state is "following" iff the prop says so, with the initial count and no loading |
| FollowButton.EndFollow | frontend/src/components/FollowButton.tsx:40-53 | the state becomes the server's; the count grows by one only for "following"; a failure changes nothing; loading ends |
| FollowButton.EndUnfollow | frontend/src/components/FollowButton.tsx:60-69 | any reply means "not_following" and one follower fewer, whatever the state was; a failure changes nothing |
| FollowButton.EndUnfollowCorrected | frontend/src/components/FollowButton.tsx:60-69 | the corrected handler lowers the count only when leaving "following" |
| FollowButton.CancelRequestDecrements | frontend/src/components/FollowButton.tsx:56-96 | cancelling a request lowers the shown count as written, and leaves it with the correction |
| FollowButton.Render | frontend/src/components/FollowButton.tsx:72-108 | nothing iff "self"; disabled and a spinner iff loading; the click does what `ClickAction` dispatches: unfollow for "following" and "requested", follow otherwise |
| FollowButton.Click | frontend/src/components/FollowButton.tsx:36-105 | a click while loading or in "self" changes nothing, and any other click ends with loading off |
| FollowButton.NoDoubleSubmit | frontend/src/components/FollowButton.tsx:37-59 | starting a follow or unfollow only sets loading; the button then renders disabled with a spinner, and neither a follow nor an unfollow can start |
| FollowButton.FailureChangesNothing | frontend/src/components/FollowButton.tsx:49-69 | a failed click leaves the button as it was |
| GameSearchForm.Search | frontend/src/components/GameSearch.tsx:13-34 | a blank query shows "Please enter a search term" and makes no call; a list is shown, with "No games found" iff empty; a `null` list and a failure both clear the games and show the error; loading ends |
| GameSearchForm.Cancel | frontend/src/components/GameSearch.tsx:111 | after cancelling, a connect is refused without a call; query, games, error and game id are kept |
| GameSearchForm.Connect | frontend/src/components/GameSearch.tsx:43-57 | no selection or a blank id is "Please enter your game ID" with no call; success names the game and clears the selection and id; failure keeps the selection and shows the error |
| GameSearchForm.SearchSettles | frontend/src/components/GameSearch.tsx:19-33 | a sent search ends with loading off, and with an error whenever no games are listed |
| GameSearchForm.SelectThenConnect | frontend/src/components/GameSearch.tsx:36-53 | after selecting a game and typing an id, connect sends exactly that game and id, and success clears the selection and id and shows only the success message |
| LoginPage.SessionFields | frontend/src/app/login/page.tsx:29 | reading `token` then `username` throws only on `null`, and says both are truthy or one is not |
| LoginPage.Submit | frontend/src/app/login/page.tsx:15-41 | blank fields show "Username and password are required" with no call; the session changes only for a reply with truthy `token` and `username`, and then holds exactly those; a reply missing either shows "Invalid response from server"; a rejection shows its message; loading ends |
| LoginPage.TokenReplyLogsIn | frontend/src/app/login/page.tsx:27-31 | a reply with a non-empty token and username logs in with exactly those strings |
| LoginPage.ErrorReplyShowsInvalidResponse | frontend/src/app/login/page.tsx:29-37 | an `{error}` reply leaves the session alone and shows "Invalid response from server" |
| Interplay.StoredTokenReachesMiddleware | frontend/src/services/api.ts:4-9 | the middleware validates exactly the stored token, or `null` when none is stored |
| Interplay.WrongPasswordShowsInvalidResponse | backend/cmd/server/main.go:403-406 | a wrong password reaches the login page as an error object, which shows "Invalid response from server" and leaves the session alone |
| Interplay.SearchSendsQuery | frontend/src/services/api.ts:43-44 | search is a GET of `/games/search?q=<encoded query>`, and the handler reads back exactly the typed query |
| Interplay.SearchQueryReachesServer | backend/cmd/server/main.go:578 | the query the server decodes is the query the client encoded |
| Interplay.LongQueryMatchesNothing | backend/cmd/server/main.go:604-608 | a query longer than every catalogue name matches nothing |
| Interplay.NothingMatchesLongQuery | backend/cmd/server/main.go:585-608 | "minecraft dungeons legends" matches no catalogue game |
| Interplay.EmptySearchShowsTypeError | frontend/src/components/GameSearch.tsx:22-29 | a search matching nothing shows the `TypeError` message as written, and "No games found" with the fixed encoding |
| Interplay.FollowKeepsSync | frontend/src/components/FollowButton.tsx:36-54 | clicking "Follow" keeps the button's state and count in step with the server's follow |
| Interplay.UnfollowCorrectedKeepsSync | frontend/src/components/FollowButton.tsx:56-70 | with the corrected count, unfollowing and cancelling a request keep the button in step with the server |
| Interplay.CancelRequestBreaksSync | frontend/src/components/FollowButton.tsx:56-96 | as written, cancelling a request leaves the button one follower short of the server |

## Left out

- SQL text, connection handling and transactions. Each database call is a failure point; a failing call changes nothing because the transaction rolls back.
- `initDatabase`, `main`, routing, CORS headers and `OPTIONS` pre-flight replies. The `/api` prefix mismatch between client and server belongs to routing.
- bcrypt and its 72-byte limit. `Store.Bcrypt` stands for the hash and compares passwords exactly.
- JWT signing and validation (HS256), and token expiry. These are the parameters `issue` and `validate`.
- `validateToken` and the claims it returns. Only the username is handed on.
- Go's `strings.ToLower` beyond ASCII. Non-ASCII letters are left unchanged.
- Go strings as bytes and invalid UTF-8. Strings are sequences of Unicode scalar values.
- `VARCHAR(255)` limits and other schema constraints beyond the uniqueness of usernames, edges and requests.
- JSON encoding and decoding. `Interplay.WireBody` fixes the field order Go writes; `JSON.stringify` of request bodies is the `Json` value itself.
- `Headers` objects passed as `init.headers`, and header-name case. Caller headers are a string map.
- `encodeURIComponent` on lone surrogates, which throws `URIError`. Dafny strings cannot hold them.
- Promise scheduling, concurrent handlers and stale React closures. Handlers run one at a time and see the latest state.
- `router.push`, `onFollowStateChange`, console logging and markup other than the button's props.
- The social-account connect and disconnect handlers and the privacy toggle, together with the client calls for them (`connectTwitch` and `connectDiscord` are modelled only as request shapes).
- `getUserProfileHandler`, `getAllUsersHandler` and `profileHandler`.
- Profile fields other than username, privacy, connected games and the two counts.
- ApiClient.Health, ApiClient.Register, ApiClient.Login, ApiClient.GetProfile, ApiClient.ConnectTwitch, ApiClient.ConnectDiscord, ApiClient.SearchGames: these carry no contract of their own. They are compositions of `CredentialsRequest`, `ReadAnyResponse` and `FetchWithAuth`, whose contracts state their behaviour.
- The follow, unfollow and game-connect client calls: `api.followUser`, `api.unfollowUser` and `api.connectGame` do not exist in this repository. Every follow-button click would end in the `Failed` outcome, and `handleConnectGame` (GameSearch.tsx:50) always throws a `TypeError`, so only the `ConnectThrew` outcome occurs and the `ConnectDone` case of `GameSearchForm.Connect` and `GameSearchForm.SelectThenConnect` cannot arise. `Interplay.OutcomeOf` stands for a call that returns the parsed reply and throws on a non-ok status, as `fetchWithAuth` does.
- Social.GetProfile: counts are over usernames, not row ids. A profile row that fails to scan is not modelled apart from failure point 1.
- Social.GetProfile: a NULL `connected_games` and an empty array are both held as the empty list, and only one-dimensional arrays with default bounds are modelled. A NULL column reaches `Scan` as nil and an empty one as `{}`, and both read as the empty list.

## Findings

| source | as written | input that shows it | evidently intended | confidence | as-written member | corrected member |
|---|---|---|---|---|---|---|
| backend/cmd/server/main.go:314-315 | registration trims the username and password before storing them; login (lines 386-407) compares them untrimmed | register `alice` with password ` secret`, then log in with the same credentials: 401 "Invalid credentials" | login applies the same trimming | medium, not executed | Accounts.PaddedPasswordLocksOut | Accounts.LoginTrimmed, Accounts.RegisterThenLoginTrimmed |
| backend/cmd/server/main.go:603-610 | `results` starts as a nil slice and is encoded as `null` when nothing matches; the search form then reads `results.length` (GameSearch.tsx:23-24) and shows the `TypeError` text | search for `minecraft dungeons legends`, once the request reaches the handler: the client's `/api` prefix is not routed (main.go:252 routes `/games/search`), so today the form shows "API request failed" first | an empty array, so the form shows "No games found" | medium, not executed | Games.EncodeResults, Interplay.EmptySearchShowsTypeError, Interplay.NothingMatchesLongQuery | Games.EncodeResultsFixed |
| backend/cmd/server/main.go:1258-1266 | the follow state for another user is decided by the target's privacy alone; `isFollowing` and `hasPendingRequest` are queried and ignored | `bob`, with no relation to the private `alice`, is told "requested"; to the public `carol`, "following" | the state reflects the edge and the pending request | high, not executed | Social.FollowStateQuery, Social.FollowStateIgnoresRelation | Social.FollowStateQueryCorrected, Social.StateAfterFollowAndUnfollow |
| frontend/src/components/FollowButton.tsx:63 | unfollow lowers the shown count by one from every state, and the "Requested" button is wired to unfollow (lines 91-96) | a "Requested" button showing 5 followers is clicked; it shows 4 while the server still counts 5. This needs the button to be mounted (its only use, in UserProfile.tsx, is commented out) and `api.unfollowUser` to exist | only leaving "following" lowers the count | medium, not executed | FollowButton.CancelRequestDecrements, Interplay.CancelRequestBreaksSync | FollowButton.EndUnfollowCorrected, Interplay.UnfollowCorrectedKeepsSync |
| backend/cmd/server/main.go:1281-1307 | accept and reject update the request from the caller to the path user, and accept inserts no follower edge | `bob` asks to follow the private `alice`; `alice` accepts `bob`: the request stays pending and `bob` is no follower | the request from the path user to the caller is answered, and accepting adds that follower | medium, not executed | Social.AcceptNeverAddsFollower, Social.SelfAcceptStrandsRequest | Social.AnswerCorrected, Social.RequestThenAcceptFollows, Social.AnswerCorrectedKeepsAcceptedFollowers |
| backend/cmd/server/main.go:60-83 | `Scan` splits the text between the braces on commas and keeps each piece as it is; PostgreSQL prints an element with a space, comma, quote, brace or backslash, an empty element and `NULL` inside double quotes | connect the game "League of Legends", then `GET /profile`: `connectedGames` is `["\"League of Legends\""]` | quoted elements are unquoted and unescaped, so the profile lists the stored names | medium, not executed | StringArray.SpacedNameReadBack, GameLinks.SpacedGameShowsQuoted | StringArray.ScanQuotedRoundTrip, Social.GetProfileCorrected |
