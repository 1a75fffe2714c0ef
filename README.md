# TrackHubMobile core in Dafny

This project models the data-synchronisation core of the TrackHubMobile fleet-tracking client
and proves properties of it. The core has five parts:

- **Token check.** `TokenHelper.IsTokenValid` splits a JWT into its three parts. It decodes the
  middle part from unpadded base64url, binds the case-sensitive `Exp` claim and compares the
  claimed expiry with the current UTC time.
- **Authentication.** `Authentication` implements the OAuth 2.0 authorisation-code flow with
  PKCE (RFC 7636): it builds the verifier, the challenge and the authorise URL. It also
  exchanges the code for tokens, refreshes them (section 6 of RFC 6749), revokes them
  (section 2.1 of RFC 7009) and logs out. Every write goes to a secure key-value store.
- **GraphQL reader.** `GraphQLReader.ExecuteGraphQLQuery` chooses the bearer token, posts the
  query and reads the response envelope. An `errors` array wins over `data`; otherwise the
  root field under `data` is decoded.
- **Router.** `Router.GetDevicePositionsByUserAsync` sends the one device-positions query and
  maps a null result to the empty list.
- **Polling and view models.** `DataRefresh` is the poller: it runs a five-second timer while
  both the screen flag and the app flag are set, and refreshes on every sixth tick.
  `ActiveScreenComponentBase` keeps that screen flag. `HomeViewModel` and
  `TransporterListViewModel` consume the results.

Modules, one per file, in dependency order:

| file | module | models |
|---|---|---|
| `wrappers.dfy` | `Wrappers` | `Option`, the .NET exceptions the core can raise (`Exception`), `Outcome` (a value or a thrown exception), bytes |
| `text.dfy` | `Text` | `string.IsNullOrEmpty`/`IsNullOrWhiteSpace`, `Replace`, `TrimEnd`, `Split` |
| `json.dfy` | `Json` | a parsed `JsonElement`, with `TryGetProperty`, `GetProperty` and `GetString`; a duplicate name resolves to its last member |
| `base64.dfy` | `Base64` | `Convert.ToBase64String` / `FromBase64String` (section 4 of RFC 4648) and their round trip; the unpadded base64url form (section 5) |
| `tokens.dfy` | `Tokens` | `TokenHelper`: `Base64UrlDecode`, the `JwtPayload` binding, `IsTokenValid` |
| `externals.dfy` | `Externals` | the constants of `Utils/Constants.cs`, HTTP requests and responses, the authenticator result, the effect trace, the environment of collaborators, and `SecureStorage` as a class over a map |
| `auth.dfy` | `Auth` | PKCE, `HttpUtility.UrlEncode`, the authorise URL and its query string, and each flow of `Authentication` as a step function on a `Session`, plus the `Authentication` class whose methods are proved equal to those steps |
| `graphql.dfy` | `GraphQL` | the error-message collection, the envelope decision, the token gate, and the `GraphQLReader` class |
| `routing.dfy` | `Models`, `Routing` | `PositionVm`, the query text, and the `Router` class |
| `data_refresh.dfy` | `Refresh` | `DataRefresh`, with its timer and cancellation source as classes |
| `active_screen.dfy` | `Screens` | `ActiveScreenComponentBase` |
| `view_models.dfy` | `ViewModels` | the dashboard counts of `HomeViewModel` and the refresh sequence of `TransporterListViewModel` |

### How effects are modelled

- **The server and other collaborators.** Each flow takes an `Environment` value. It holds the
  server as a function from request to response, the authenticator as a function from URL to
  result, the 32 random bytes, the `Guid`, SHA-256 as a function to 32 bytes, the JSON parser
  for the token payload, and the UTC clock in ticks.
- **The session.** A `Session` pairs the secure store with the trace of effects performed so
  far: authorise, post and open-browser events.
- **Step functions and classes.** Each `Authentication` flow is a function
  `Step(session, env) -> (outcome, session)`. The class methods update the store object and a
  ghost trace step by step, and their postconditions equal those step functions.
- **The fetch in the poller and view models.** In `DataRefresh` and the view models, the
  router's result enters as an `Outcome` parameter, and messenger sends are a ghost log of
  payloads.

## Model

| member | source | states |
|---|---|---|
| Text.SplitCount | TrackHubMobile.MauiLib/Helpers/TokenHelper.cs:31-35 | `Split` yields one more part than there are separators, so the three-part check accepts exactly the tokens with two dots |
| Text.SplitThree | TrackHubMobile.MauiLib/Helpers/TokenHelper.cs:31 | splitting `a.b.c` with dot-free parts gives back `[a, b, c]` |
| Text.TrimEnd | TrackHubMobile.MauiLib/Services/Authentication.cs:120 | the result is a prefix of the input, does not end in the trimmed character, and only that character was removed |
| Text.Split | TrackHubMobile.MauiLib/Helpers/TokenHelper.cs:31 | there is always at least one part, and no part holds the separator |
| Text.SplitInverse | TrackHubMobile.MauiLib/Helpers/TokenHelper.cs:31 | joining the parts with the separator gives the string back, so no character is lost or added by splitting |
| Text.ReplaceUndo | TrackHubMobile.MauiLib/Helpers/TokenHelper.cs:61 | replacing a character by one the text does not hold is undone by replacing back, and leaves no occurrence of the replaced character |
| Json.Member | TrackHubMobile.MauiLib/Helpers/GraphQLReader.cs:59 | absent exactly when no member has the name; otherwise the value of the last member with that name |
| Json.TryGetPropertyLastWins | TrackHubMobile.MauiLib/Helpers/GraphQLReader.cs:71-72 | on an object, a member appended with the name is the one found, and one appended with another name changes nothing |
| Json.GetPropertyAgrees | TrackHubMobile.MauiLib/Services/Authentication.cs:164-165 | `GetProperty` returns what `TryGetProperty` finds, throws `KeyNotFound` where it finds nothing and `InvalidOperation` where it throws |
| Json.StringPropertyValues | TrackHubMobile.MauiLib/Services/Authentication.cs:105-106 | `GetProperty(name).GetString()` on an object gives the text of a string member and null for a null member; a missing member throws `KeyNotFound`, any other kind `InvalidOperation` |
| Base64.ToBase64String | TrackHubMobile.MauiLib/Services/Authentication.cs:120 | the encoding of n bytes has 4·⌈n/3⌉ characters |
| Base64.DecodeEncode | TrackHubMobile.MauiLib/Helpers/TokenHelper.cs:67 | `FromBase64String(ToBase64String(b)) == b` for every byte sequence |
| Base64.FromBase64String | TrackHubMobile.MauiLib/Helpers/TokenHelper.cs:67 | decoding fails on text whose length is not a multiple of four; `Base64.DecodeEncode` shows it inverts the encoder |
| Base64.UrlShape32 | TrackHubMobile.MauiLib/Services/Authentication.cs:116-121 | the unpadded base64url form of 32 bytes has 43 characters and no `=`, `+` or `/` |
| Tokens.RepairPadding | TrackHubMobile.MauiLib/Helpers/TokenHelper.cs:61-66 | maps `-`→`+` and `_`→`/` pointwise and pads lengths ≡2 and ≡3 (mod 4) with `==` and `=`; length ≡1 stays ≡1 |
| Tokens.RemainderOneFails | TrackHubMobile.MauiLib/Helpers/TokenHelper.cs:62-67 | an input of length ≡1 (mod 4) cannot be decoded |
| Tokens.RepairRestoresStandard | TrackHubMobile.MauiLib/Helpers/TokenHelper.cs:59-69 | repairing the unpadded base64url form gives the standard encoding back, so `Base64UrlDecode` inverts it |
| Tokens.Base64UrlDecode | TrackHubMobile.MauiLib/Helpers/TokenHelper.cs:59-69 | a length ≡1 (mod 4) never decodes; `Tokens.RepairRestoresStandard` shows it inverts the unpadded base64url encoding |
| Tokens.ReadNullableLong | TrackHubMobile.MauiLib/Helpers/TokenHelper.cs:73 | a JSON null reads as null, an integer in the 64-bit signed range as itself; anything else throws a JSON error |
| Tokens.BindExp | TrackHubMobile.MauiLib/Helpers/TokenHelper.cs:39 | binding only throws JSON errors, and the value bound is the initial one or the reading of some member named exactly `Exp` |
| Tokens.LastExpWins | TrackHubMobile.MauiLib/Helpers/TokenHelper.cs:39 | when every `Exp` member reads as `long?`, the last one, an in-range integer, is the value bound |
| Tokens.DeserializePayload | TrackHubMobile.MauiLib/Helpers/TokenHelper.cs:39-41 | a null payload exactly for JSON null; only JSON errors are thrown; a bound expiry lies in the `long` range |
| Tokens.CheckExpiry | TrackHubMobile.MauiLib/Helpers/TokenHelper.cs:28-52 | the only exceptions are the format, JSON and out-of-range ones the `catch` absorbs; `true` needs exactly three parts |
| Tokens.IsTokenValid | TrackHubMobile.MauiLib/Helpers/TokenHelper.cs:22-57 | a valid token is non-empty and has exactly two dots |
| Tokens.NullOrEmptyInvalid | TrackHubMobile.MauiLib/Helpers/TokenHelper.cs:24-27 | a null or empty token is invalid |
| Tokens.DotCountInvalid | TrackHubMobile.MauiLib/Helpers/TokenHelper.cs:31-35 | a token without exactly two dots is invalid |
| Tokens.NoExpBindsNull | TrackHubMobile.MauiLib/Helpers/TokenHelper.cs:39-44 | a payload with no member named exactly `Exp` binds `Exp` to null |
| Tokens.WellFormedParts | TrackHubMobile.MauiLib/Helpers/TokenHelper.cs:31-38 | a header, encoded payload and signature joined by dots split back into those parts, and the payload decodes back |
| Tokens.WellFormedToken | TrackHubMobile.MauiLib/Helpers/TokenHelper.cs:38-51 | for a well-formed token, validity is decided by the payload: an object whose `Exp` binds to an integer in `FromUnixTimeSeconds`' range and after now |
| Tokens.ExpiringNowInvalid | TrackHubMobile.MauiLib/Helpers/TokenHelper.cs:47-51 | a token whose expiry equals the current instant is invalid (strict comparison) |
| Tokens.LowercaseExpInvalid | TrackHubMobile.MauiLib/Helpers/TokenHelper.cs:39-44 | a payload carrying only the registered lower-case `exp` claim (RFC 7519 section 4.1.4) is invalid, since the binding is case-sensitive |
| Auth.GenerateCodeVerifier | TrackHubMobile.MauiLib/Services/Authentication.cs:116-121 | 43 characters from the base64url alphabet, which decode back to the 32 random bytes (RFC 7636 section 4.1) |
| Auth.GenerateCodeChallenge | TrackHubMobile.MauiLib/Services/Authentication.cs:128-133 | 43 base64url characters decoding to SHA-256 of the verifier's ASCII bytes (RFC 7636 section 4.2, S256) |
| Auth.UrlEncode | TrackHubMobile.MauiLib/Services/Authentication.cs:45 | the encoded text contains no `&`, `=`, `?` or `#`, so an encoded value cannot break the query string |
| Auth.UrlEncodeDecode | TrackHubMobile.MauiLib/Services/Authentication.cs:45 | URL-decoding an encoded ASCII string returns it |
| Auth.EncodeSchemeUrl | TrackHubMobile.MauiLib/Services/Authentication.cs:45 | encoding `scheme://rest` with URL-safe parts escapes only `://`, as `%3a%2f%2f` |
| Auth.QueryRoundTrip | TrackHubMobile.MauiLib/Services/Authentication.cs:43-50 | joining name/value pairs with `=` and `&` and parsing the result gives the pairs back |
| Auth.AuthorizeParameterValues | TrackHubMobile.MauiLib/Services/Authentication.cs:43-50 | the authorise query carries the client id, the encoded callback, `code`, the scope plus `offline_access`, the challenge, `S256` and the state |
| Auth.AuthorizeQueryRoundTrip | TrackHubMobile.MauiLib/Services/Authentication.cs:43-50 | the authorise query parses back to its seven parameters in order |
| Auth.AuthorizeUrlParameters | TrackHubMobile.MauiLib/Services/Authentication.cs:40-50 | the URL is the authorise endpoint, `?`, and a query that parses to the parameters for the verifier's challenge and the fresh state |
| Auth.ExchangeStep | TrackHubMobile.MauiLib/Services/Authentication.cs:85-110 | the exchange adds exactly its one token request to the trace, and one that throws has written nothing |
| Auth.LoginStep | TrackHubMobile.MauiLib/Services/Authentication.cs:32-59 | a login always extends the trace (it opens the authenticator first) |
| Auth.LoginInstead | TrackHubMobile.MauiLib/Services/Authentication.cs:142-160 | a refresh that falls back to login returns null when the login completes |
| Auth.RefreshStep | TrackHubMobile.MauiLib/Services/Authentication.cs:138-171 | a token returned by a refresh is the access token stored afterwards |
| Auth.RevokeStep | TrackHubMobile.MauiLib/Services/Authentication.cs:177-189 | revocation never writes the store; a null or empty token changes nothing, any other adds exactly one revocation request |
| Auth.LogoutStep | TrackHubMobile.MauiLib/Services/Authentication.cs:65-77 | a completed logout leaves neither token key in the store; one that throws leaves the store as it was |
| Auth.ExchangeTouchesOnlyTokens | TrackHubMobile.MauiLib/Services/Authentication.cs:85-110 | the code exchange writes no key but the two token keys |
| Auth.LoginTouchesOnlyTokens | TrackHubMobile.MauiLib/Services/Authentication.cs:32-59 | login writes no key but the two token keys |
| Auth.RefreshTouchesOnlyTokens | TrackHubMobile.MauiLib/Services/Authentication.cs:138-171 | refresh, including its fall-back login, writes no key but the two token keys |
| Auth.LogoutTouchesOnlyTokens | TrackHubMobile.MauiLib/Services/Authentication.cs:65-77 | revocation and logout write no key but the two token keys |
| Auth.VerifierNeverStored | TrackHubMobile.MauiLib/Services/Authentication.cs:34-38 | neither login nor refresh changes the stored code verifier |
| Auth.LoginFailureKeepsStore | TrackHubMobile.MauiLib/Services/Authentication.cs:52-58 | a login that throws leaves the store as it was |
| Auth.RefreshFailureKeepsStore | TrackHubMobile.MauiLib/Services/Authentication.cs:138-171 | a refresh that throws leaves the store as it was |
| Auth.LoginBindsVerifier | TrackHubMobile.MauiLib/Services/Authentication.cs:34-57 | a stored non-empty verifier is reused; the challenge sent is SHA-256 of the verifier; the authorise call comes first and a returned code is exchanged with that same verifier |
| Auth.LoginWithoutCode | TrackHubMobile.MauiLib/Services/Authentication.cs:55-58 | a cancelled authenticator throws, and a result without `code` ends the login; neither posts or writes |
| Auth.ExchangeRejected | TrackHubMobile.MauiLib/Services/Authentication.cs:99-102 | a non-2xx token response throws a token error carrying the body and stores nothing |
| Auth.ExchangeStoresTokens | TrackHubMobile.MauiLib/Services/Authentication.cs:104-109 | a 2xx response with both tokens stores them under their keys after one post |
| Auth.RefreshReturnsStoredToken | TrackHubMobile.MauiLib/Services/Authentication.cs:162-170 | a refresh that returns a token posted the stored refresh token and stored the token it returns |
| Auth.RefreshWithoutTokenLogsIn | TrackHubMobile.MauiLib/Services/Authentication.cs:140-146 | with no refresh token, refresh is a login and returns null |
| Auth.RefreshRejectedLogsIn | TrackHubMobile.MauiLib/Services/Authentication.cs:155-160 | a non-2xx refresh response falls back to login after the post and returns null |
| Auth.RefreshStoresTokens | TrackHubMobile.MauiLib/Services/Authentication.cs:162-170 | for any stored refresh token, a 2xx response carrying both tokens as strings replaces both stored tokens after the one refresh request and returns the new access token |
| Auth.RefreshRotation | TrackHubMobile.MauiLib/Services/Authentication.cs:162-170 | an instance of the above: with `rt1` stored and the reply `{"access_token":"at2","refresh_token":"rt2"}`, the refresh returns `at2` and stores `at2` and `rt2` |
| Auth.RevokeOutcome | TrackHubMobile.MauiLib/Services/Authentication.cs:177-189 | an empty token posts nothing; otherwise one revoke post, which fails exactly on a non-2xx status |
| Auth.LogoutClearsOnlyOnSuccess | TrackHubMobile.MauiLib/Services/Authentication.cs:65-77 | a completed logout has cleared both tokens and opened the logout page last; a failed one changed no key and opened nothing |
| Auth.LogoutNeedsBothRevocations | TrackHubMobile.MauiLib/Services/Authentication.cs:67-73 | with both tokens present, logout completes exactly when both revocations succeed; a failed first one stops before the second |
| Auth.LogoutWhenSignedOut | TrackHubMobile.MauiLib/Services/Authentication.cs:65-77 | with neither token, logout only opens the logout page |
| Auth.RefreshAfterLogoutLogsIn | TrackHubMobile.MauiLib/Services/Authentication.cs:138-146 | after a completed logout, a refresh is a login |
| Auth.Authentication.ExchangeCodeForTokens | TrackHubMobile.MauiLib/Services/Authentication.cs:85-110 | the outcome and the new store and trace are those of the exchange step |
| Auth.Authentication.Login | TrackHubMobile.MauiLib/Services/Authentication.cs:32-59 | the outcome and the new store and trace are those of the login step |
| Auth.Authentication.RefreshAccessToken | TrackHubMobile.MauiLib/Services/Authentication.cs:138-171 | the outcome and the new store and trace are those of the refresh step |
| Auth.Authentication.RevokeToken | TrackHubMobile.MauiLib/Services/Authentication.cs:177-189 | the store is untouched; outcome and trace are those of the revoke step |
| Auth.Authentication.Logout | TrackHubMobile.MauiLib/Services/Authentication.cs:65-77 | the outcome and the new store and trace are those of the logout step |
| GraphQL.ErrorMessages | TrackHubMobile.MauiLib/Helpers/GraphQLReader.cs:63-66 | succeeds exactly when every error element yields a string `message`; keeps at most one message per error, none blank, and every non-blank `message` is among those kept |
| GraphQL.ErrorMessagesOne | TrackHubMobile.MauiLib/Helpers/GraphQLReader.cs:63-66 | one error alone: a non-blank `message` is kept, a null or blank one dropped, a failed read thrown; with `ErrorMessagesAppend` every non-blank message is kept in order |
| GraphQL.ErrorMessagesAppend | TrackHubMobile.MauiLib/Helpers/GraphQLReader.cs:63-66 | the collection over `a + b` is the collection over `a` followed by that over `b`, and the first exception wins |
| GraphQL.MissingMessageThrows | TrackHubMobile.MauiLib/Helpers/GraphQLReader.cs:64 | an error object with no `message` makes the collection throw, `KeyNotFound` when it is the first bad element |
| GraphQL.ReadEnvelope | TrackHubMobile.MauiLib/Helpers/GraphQLReader.cs:59-79 | a result is only ever the decoding of `data.<rootField>` of an object root without an `errors` array |
| GraphQL.ErrorsWin | TrackHubMobile.MauiLib/Helpers/GraphQLReader.cs:59-69 | an `errors` array yields the default result whatever `data` holds, even an empty array, unless collecting its messages throws |
| GraphQL.NonArrayErrorsIgnored | TrackHubMobile.MauiLib/Helpers/GraphQLReader.cs:59 | an `errors` member that is not an array is treated as absent |
| GraphQL.DataFieldSelected | TrackHubMobile.MauiLib/Helpers/GraphQLReader.cs:71-79 | without an errors array: no `data` or no root field gives the default, a non-object `data` throws, and otherwise the root field is decoded |
| GraphQL.NonObjectRootThrows | TrackHubMobile.MauiLib/Helpers/GraphQLReader.cs:59 | a response root that is not an object throws |
| GraphQL.BearerStep | TrackHubMobile.MauiLib/Helpers/GraphQLReader.cs:42-48 | a non-null bearer token is the access token in the store after the choice |
| GraphQL.ExecuteStep | TrackHubMobile.MauiLib/Helpers/GraphQLReader.cs:35-80 | the query itself writes nothing, and adds exactly one post of the query with the chosen bearer token |
| GraphQL.InvertedGate | TrackHubMobile.MauiLib/Helpers/GraphQLReader.cs:42-46 | a valid stored token is replaced by a refresh; an invalid one is sent unchanged |
| GraphQL.ExpiredTokenSent | TrackHubMobile.MauiLib/Helpers/GraphQLReader.cs:42-52 | a well-formed stored token whose payload binds no `Exp`, or an `Exp` at or before now, is sent as is, without a refresh or a change to the session |
| GraphQL.NullRefreshSentAsNull | TrackHubMobile.MauiLib/Helpers/GraphQLReader.cs:45-53 | when the refresh falls back to login and returns null, the query is posted with no bearer token |
| GraphQL.StatusIgnored | TrackHubMobile.MauiLib/Helpers/GraphQLReader.cs:53-57 | the result depends on the response body alone, never on its status |
| GraphQL.GraphQLReader.ExecuteGraphQLQuery | TrackHubMobile.MauiLib/Helpers/GraphQLReader.cs:35-80 | outcome, store and trace are those of the query step, and the authorization header holds the chosen bearer token |
| Routing.RootFieldOpensQuery | TrackHubMobile.MauiLib/Services/Router.cs:27-29 | the query's first selection is `devicePositionsByUser`, the root field the reader extracts, opening its own selection set |
| Routing.DevicePositionsStep | TrackHubMobile.MauiLib/Services/Router.cs:25-56 | the router adds no effect of its own: the session is the reader's |
| Routing.RouterNeverNull | TrackHubMobile.MauiLib/Services/Router.cs:54-55 | the router fails exactly when the reader does and with the same exception; a null result becomes the empty list and a list is returned unchanged |
| Routing.ErrorsShowEmpty | TrackHubMobile.MauiLib/Services/Router.cs:54-55 | a response with a readable errors array gives the empty list |
| Routing.Router.GetDevicePositionsByUser | TrackHubMobile.MauiLib/Services/Router.cs:25-56 | outcome, store and trace are those of the router step |
| Externals.SecureStorage.GetSecure | TrackHubMobile.MauiLib/Services/Authentication.cs:34 | the stored value for a key, null for a key never written or cleared |
| Externals.SecureStorage.SetSecure | TrackHubMobile.MauiLib/Services/Authentication.cs:108-109 | writes the one key, null included, and keeps every other entry |
| Externals.SecureStorage.ClearSecure | TrackHubMobile.MauiLib/Services/Authentication.cs:72-73 | removes the one key, which then reads as null, and keeps every other entry |
| Refresh.RunTicksCount | TrackHubMobile.MauiLib/Services/DataRefresh.cs:78-84 | from a counter c in 0..5, n ticks refresh (c+n)/6 times and leave the counter at (c+n) mod 6 |
| Refresh.DataRefresh.constructor | TrackHubMobile.MauiLib/Services/DataRefresh.cs:24-30 | screen inactive, app active, no timer, no source, counter 0, no positions |
| Refresh.DataRefresh.CheckTimerStatus | TrackHubMobile.MauiLib/Services/DataRefresh.cs:48-67 | a timer runs exactly when both flags hold; a running pair is kept, a new one is fresh, a stopped one is cancelled and disposed; the counter is not reset |
| Refresh.DataRefresh.SetScreenActive | TrackHubMobile.MauiLib/Services/DataRefresh.cs:32-36 | sets the screen flag and keeps the invariant that timer and source exist together, only while both flags hold |
| Refresh.DataRefresh.SetAppActive | TrackHubMobile.MauiLib/Services/DataRefresh.cs:38-46 | sets the app flag as above; with `forceRefresh`, exactly one refresh with the source running afterwards, or none |
| Refresh.DataRefresh.Tick | TrackHubMobile.MauiLib/Services/DataRefresh.cs:74-90 | the counter advances; the sixth tick resets it to 0 and refreshes once; 0 ≤ counter < 6 and ticks = 6·refreshes + counter |
| Refresh.DataRefresh.RefreshData | TrackHubMobile.MauiLib/Services/DataRefresh.cs:92-104 | a successful fetch replaces the positions and sends one message with them; a failed one changes nothing and sends nothing |
| Refresh.DataRefresh.Dispose | TrackHubMobile.MauiLib/Services/DataRefresh.cs:106-114 | cancels and disposes what runs and leaves both handles null; a second call finds nothing |
| Screens.ActiveScreenComponent.constructor | TrackHubMobile.MauiLib/Pages/ActiveScreenComponentBase.cs:22-26 | not current, nothing passed to the poller |
| Screens.ActiveScreenComponent.OnInitialized | TrackHubMobile.MauiLib/Pages/ActiveScreenComponentBase.cs:28-31 | subscribes to location changes and changes nothing else |
| Screens.ActiveScreenComponent.OnAfterRender | TrackHubMobile.MauiLib/Pages/ActiveScreenComponentBase.cs:33-40 | the first render marks the component current and sets the screen flag, so polling runs exactly when the app is active; the app flag, counter, positions and logs of the poller stay; later renders change nothing |
| Screens.ActiveScreenComponent.HandleLocationChanged | TrackHubMobile.MauiLib/Pages/ActiveScreenComponentBase.cs:42-49 | leaving while current clears the flag and stops polling, keeping the poller's app flag, counter, positions and logs; otherwise nothing happens |
| Screens.ActiveScreenComponent.Dispose | TrackHubMobile.MauiLib/Pages/ActiveScreenComponentBase.cs:51-54 | unsubscribes and changes nothing else |
| Screens.CallLogShape | TrackHubMobile.MauiLib/Pages/ActiveScreenComponentBase.cs:33-49 | a valid component has passed each value to the poller at most once, `false` only after `true`, and nothing before its first render |
| ViewModels.CountWhere | TrackHubMobile.MauiLib/ViewModels/HomeViewModel.cs:42-46 | a count is at most the length, zero exactly when no element qualifies, the length exactly when all do |
| ViewModels.CountWhereMonotone | TrackHubMobile.MauiLib/ViewModels/HomeViewModel.cs:43-46 | a predicate implied by another counts at least as many elements |
| ViewModels.DashboardCounts | TrackHubMobile.MauiLib/ViewModels/HomeViewModel.cs:42-46 | Total is the message length, Speeding ≤ InMovement ≤ Total, Offline ≤ Total, and InMovement is 0 exactly when no speed is positive |
| ViewModels.DashboardCountsGrow | TrackHubMobile.MauiLib/ViewModels/HomeViewModel.cs:42-46 | appending positions to a message never lowers a count |
| ViewModels.HomeViewModel.constructor | TrackHubMobile.MauiLib/ViewModels/HomeViewModel.cs:22-35 | all four counts start at 0 and no callback is set |
| ViewModels.HomeViewModel.SetOnUpdated | TrackHubMobile.MauiLib/ViewModels/HomeViewModel.cs:35 | sets or clears the callback and changes nothing else |
| ViewModels.HomeViewModel.HandleRefreshMessage | TrackHubMobile.MauiLib/ViewModels/HomeViewModel.cs:37-50 | overwrites the four counts with the message's counts and invokes the callback once if set; before year 1 + 2 h, `AddHours` throws after Total and InMovement |
| ViewModels.TransporterListViewModel.constructor | TrackHubMobile.MauiLib/ViewModels/TransporterListViewModel.cs:21-26 | no list and not refreshing |
| ViewModels.TransporterListViewModel.RefreshData | TrackHubMobile.MauiLib/ViewModels/TransporterListViewModel.cs:28-41 | the list is cleared and the flag raised before the fetch; success publishes the list to both models, failure keeps it null and propagates; the flag ends down |
| ViewModels.RefreshStates | TrackHubMobile.MauiLib/ViewModels/TransporterListViewModel.cs:28-41 | replaying the assignments shows the state `(null, refreshing)` at the fetch and `(result or null, not refreshing)` at the end |

## Left out

- HTTP transport, `WebAuthenticator`, `Browser.OpenAsync`, SHA-256, `RandomNumberGenerator`,
  `Guid.NewGuid` and the clocks: these are parameters of `Environment` or of the methods.
  The server is a deterministic function of the request, so a flow that posts the same
  request twice sees the same answer.
- JSON text parsing and UTF-8 decoding: responses arrive already parsed, or as `None` when the
  body is not JSON, which the model reads as a `JsonError` throw. The token payload goes
  through a parser parameter.
- Deserialisation into `IEnumerable<PositionVm>` with case-insensitive binding: this is the
  `decode` parameter. `PositionVm` keeps four fields: identifier, device name, speed and
  report time; the core reads only speed and report time.
- `Constants.RouterUrl` is not part of this model. The GraphQL URL is a parameter.
- Routing.RootFieldOpensQuery: the query text, whitespace included, is written out as one literal; the lemma proves only that `devicePositionsByUser` is the first selection and opens a selection set, not that it is the query's only top-level field.
- The encoded callback URLs are written out as `EncodedCallbackUrl` and
  `EncodedLogoutCallbackUrl`. `Auth.EncodeSchemeUrl` proves the encoding rule they follow for
  any scheme and rest; it is not applied to the literal constants themselves.
- Auth.UrlEncode: covers ASCII input only. `HttpUtility.UrlEncode` percent-encodes
  non-ASCII text as UTF-8, which the core never passes to it.
- Base64.FromBase64String: rejects whitespace inside the text, which .NET would skip.
  The core only decodes text it splits out of a token, but a token's payload part may hold
  whitespace. On such a payload `Tokens.Base64UrlDecode`, `Tokens.RemainderOneFails` and
  `Tokens.IsTokenValid` can differ from .NET: a length ≡1 (mod 4) that counts whitespace may
  still decode there, and such a token may be valid there.
- Threading: timer callbacks racing with the setters, the non-atomic `_counter++`, and
  propagation of cancellation into an in-flight fetch are left out. Calls are sequential. The
  cancellation source passed to a fetch is recorded, not acted on.
- `MainThread.BeginInvokeOnMainThread` and `WeakReferenceMessenger` delivery: a message is
  handled when the handler method is called, and a send is an entry in a ghost log.
- The storage writes of `SetSecure`/`ClearSecure` complete in order; storage failures are not
  modelled. The storage service's own source is not part of this model: `SecureStorage` is a
  map with the behaviour its call sites in `Authentication` rely on.
- `Pages/Home.razor.cs` overrides `OnInitialized` without calling the base, so the home page
  never subscribes to location changes. The page classes are not part of this model; the
  component is modelled as the base class behaves.
- The `Speed` field is a real number compared with 0 and 80; no floating-point arithmetic is
  involved.

### Behaviour worth noting

- **Logout.** Logout stops at the first failed revocation: the exception leaves `LogoutAsync`
  before the tokens are cleared and before the browser opens (`Auth.LogoutClearsOnlyOnSuccess`).
- **Empty errors array.** An `errors` array short-circuits to the default result even when it
  is empty (`GraphQL.ErrorsWin`).
- **Code verifier.** The code verifier is read from storage but never written or cleared by
  these flows (`Auth.VerifierNeverStored`).
- **Token gate.** The token gate in `ExecuteGraphQLQuery` refreshes a valid token and sends an
  invalid one unchanged. It is kept as written (`GraphQL.InvertedGate`,
  `GraphQL.ExpiredTokenSent`).
