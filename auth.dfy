/**
 * The authorisation-code flow with PKCE (RFC 7636) against the identity server: login, code
 * exchange, refresh, revocation and logout. Each operation is specified by a function from the
 * session (the secure store and the log of outside effects) before it to its outcome and the
 * session after it; the `Authentication` class performs the same steps on a `SecureStorage` and
 * its methods are proved equal to those functions.
 */
module Auth {
  import opened Wrappers
  import opened Text
  import opened Base64
  import opened Json
  import opened Tokens
  import opened Externals

  // ---------------------------------------------------------------- PKCE values

  /** `GenerateCodeVerifier`: 32 random bytes in unpadded URL-safe base 64. The result has the
      43 unreserved characters section 4.1 of RFC 7636 asks for, and decodes back to the bytes. */
  function GenerateCodeVerifier(random: Bytes32): (v: string)
    ensures |v| == 43
    ensures forall i :: 0 <= i < |v| ==> InUrlAlphabet(v[i])
    ensures Base64UrlDecode(v) == Some(random)
  {
    UrlShape(random);
    UrlShape32(random);
    RepairRestoresStandard(random);
    ToBase64UrlUnpadded(random)
  }

  /** `Encoding.ASCII.GetBytes`: a character outside ASCII becomes '?'. */
  function AsciiBytes(s: string): seq<Byte> {
    seq(|s|, i requires 0 <= i < |s| => if s[i] as int < 128 then s[i] as int else '?' as int)
  }

  /** `GenerateCodeChallenge`: the S256 method of section 4.2 of RFC 7636, that is the unpadded
      URL-safe base 64 of the SHA-256 of the verifier's ASCII bytes; it decodes back to that hash. */
  function GenerateCodeChallenge(verifier: string, sha256: seq<Byte> -> Bytes32): (c: string)
    ensures |c| == 43
    ensures forall i :: 0 <= i < |c| ==> InUrlAlphabet(c[i])
    ensures Base64UrlDecode(c) == Some(sha256(AsciiBytes(verifier)))
  {
    var hash := sha256(AsciiBytes(verifier));
    UrlShape(hash);
    UrlShape32(hash);
    RepairRestoresStandard(hash);
    ToBase64UrlUnpadded(hash)
  }

  // ---------------------------------------------------------------- URL encoding

  /** A lower-case hexadecimal digit. */
  function HexDigit(d: int): char
    requires 0 <= d < 16
  {
    if d < 10 then ('0' as int + d) as char else ('a' as int + d - 10) as char
  }

  /** The value of a hexadecimal digit of either case. */
  function HexValue(c: char): (v: Option<int>)
    ensures v.Some? ==> 0 <= v.value < 16
  {
    if '0' <= c <= '9' then Some(c as int - '0' as int)
    else if 'a' <= c <= 'f' then Some(c as int - 'a' as int + 10)
    else if 'A' <= c <= 'F' then Some(c as int - 'A' as int + 10)
    else None
  }

  /** The characters `HttpUtility.UrlEncode` leaves as they are. */
  predicate UrlSafe(c: char) {
    ('a' <= c <= 'z') || ('A' <= c <= 'Z') || ('0' <= c <= '9')
    || c == '-' || c == '_' || c == '.' || c == '!' || c == '*' || c == '(' || c == ')'
  }

  /** A character that cannot end a query parameter's name or value. */
  predicate QueryDelimiter(c: char) {
    c == '&' || c == '=' || c == '?' || c == '#'
  }

  /** `HttpUtility.UrlEncode` of one ASCII character: safe characters stay, a space becomes '+',
      anything else '%' and two lower-case hexadecimal digits. */
  function UrlEncodeChar(c: char): string
    requires c as int < 128
  {
    if UrlSafe(c) then [c]
    else if c == ' ' then "+"
    else ['%', HexDigit(c as int / 16), HexDigit(c as int % 16)]
  }

  /** `HttpUtility.UrlEncode` of ASCII text; the result can stand as a query value. */
  function UrlEncode(s: string): (r: string)
    requires forall i :: 0 <= i < |s| ==> s[i] as int < 128
    ensures forall i :: 0 <= i < |r| ==> !QueryDelimiter(r[i])
  {
    if s == [] then [] else UrlEncodeChar(s[0]) + UrlEncode(s[1..])
  }

  /** The percent-decoding a form reader applies, restricted to what ASCII text needs. */
  function UrlDecode(s: string): string {
    if s == [] then []
    else if s[0] == '+' then " " + UrlDecode(s[1..])
    else if s[0] == '%' && |s| >= 3 && HexValue(s[1]).Some? && HexValue(s[2]).Some? then
      [(HexValue(s[1]).value * 16 + HexValue(s[2]).value) as char] + UrlDecode(s[3..])
    else [s[0]] + UrlDecode(s[1..])
  }

  lemma UrlDecodeChar(c: char, rest: string)
    requires c as int < 128
    ensures UrlDecode(UrlEncodeChar(c) + rest) == [c] + UrlDecode(rest)
  {
    var e := UrlEncodeChar(c) + rest;
    if UrlSafe(c) {
      assert e[1..] == rest;
    } else if c == ' ' {
      assert e[1..] == rest;
    } else {
      var n := c as int;
      assert HexValue(HexDigit(n / 16)) == Some(n / 16);
      assert HexValue(HexDigit(n % 16)) == Some(n % 16);
      assert e[3..] == rest;
    }
  }

  /** Round trip: decoding the encoding of ASCII text gives the text back. */
  lemma {:induction false} UrlEncodeDecode(s: string)
    requires forall i :: 0 <= i < |s| ==> s[i] as int < 128
    ensures UrlDecode(UrlEncode(s)) == s
  {
    if s != [] {
      UrlDecodeChar(s[0], UrlEncode(s[1..]));
      UrlEncodeDecode(s[1..]);
      assert [s[0]] + s[1..] == s;
    }
  }

  /** `HttpUtility.UrlEncode` of the two callback URLs, written out as `EncodeSchemeUrl` gives them
      for their schemes and hosts. */
  const EncodedCallbackUrl := "trackhubmobile%3a%2f%2fcallback"
  const EncodedLogoutCallbackUrl := "trackhubmobile%3a%2f%2flogoutcallback"

  lemma {:induction false} UrlEncodeAppend(a: string, b: string)
    requires forall i :: 0 <= i < |a| ==> a[i] as int < 128
    requires forall i :: 0 <= i < |b| ==> b[i] as int < 128
    ensures UrlEncode(a + b) == UrlEncode(a) + UrlEncode(b)
  {
    if a == [] {
      assert a + b == b;
    } else {
      assert (a + b)[0] == a[0] && (a + b)[1..] == a[1..] + b;
      UrlEncodeAppend(a[1..], b);
    }
  }

  lemma {:induction false} UrlEncodeSafe(s: string)
    requires forall i :: 0 <= i < |s| ==> s[i] as int < 128 && UrlSafe(s[i])
    ensures UrlEncode(s) == s
  {
    if s != [] {
      UrlEncodeSafe(s[1..]);
      assert [s[0]] + s[1..] == s;
    }
  }

  /** A URL `scheme://rest` with URL-safe scheme and rest encodes its separator only. */
  lemma EncodeSchemeUrl(scheme: string, rest: string)
    requires forall i :: 0 <= i < |scheme| ==> scheme[i] as int < 128 && UrlSafe(scheme[i])
    requires forall i :: 0 <= i < |rest| ==> rest[i] as int < 128 && UrlSafe(rest[i])
    ensures UrlEncode(scheme + "://" + rest) == scheme + "%3a%2f%2f" + rest
  {
    var separator := "://";
    assert HexDigit(3) == '3' && HexDigit(10) == 'a' && HexDigit(2) == '2' && HexDigit(15) == 'f';
    assert ':' as int == 58 && 58 / 16 == 3 && 58 % 16 == 10 && !UrlSafe(':');
    assert UrlEncodeChar(':') == "%3a";
    assert UrlEncodeChar('/') == "%2f";
    assert UrlEncode(separator[2..]) == "%2f";
    assert UrlEncode(separator[1..]) == "%2f%2f";
    assert UrlEncode(separator) == "%3a%2f%2f";
    UrlEncodeAppend(scheme, separator);
    UrlEncodeAppend(scheme + separator, rest);
    UrlEncodeSafe(scheme);
    UrlEncodeSafe(rest);
    assert UrlEncode(scheme + separator) == scheme + "%3a%2f%2f";
  }

  // ---------------------------------------------------------------- query strings

  /** `name=value` pairs joined with '&'. */
  function JoinQuery(ps: seq<(string, string)>): string {
    if ps == [] then ""
    else if |ps| == 1 then ps[0].0 + "=" + ps[0].1
    else ps[0].0 + "=" + ps[0].1 + "&" + JoinQuery(ps[1..])
  }

  /** A query field read at its first '=': the name before it, the value after it. */
  function SplitField(field: string): (string, string) {
    if field == [] then ("", "")
    else if field[0] == '=' then ("", field[1..])
    else var (name, value) := SplitField(field[1..]); ([field[0]] + name, value)
  }

  function SplitFields(fields: seq<string>): seq<(string, string)> {
    if fields == [] then [] else [SplitField(fields[0])] + SplitFields(fields[1..])
  }

  /** How a server reads a query string: fields at '&', each field at its first '='. */
  function ParseQuery(q: string): seq<(string, string)> {
    SplitFields(Split(q, '&'))
  }

  lemma {:induction false} SplitFieldJoin(name: string, value: string)
    requires '=' !in name
    ensures SplitField(name + "=" + value) == (name, value)
  {
    var f := name + "=" + value;
    if name == [] {
      assert f == "=" + value;
    } else {
      assert f[0] == name[0] && f[1..] == name[1..] + "=" + value;
      SplitFieldJoin(name[1..], value);
      assert [name[0]] + name[1..] == name;
    }
  }

  /** Parameters whose names and values hold no '&' and whose names hold no '='. */
  predicate PlainParameters(ps: seq<(string, string)>) {
    forall i :: 0 <= i < |ps| ==> '&' !in ps[i].0 && '&' !in ps[i].1 && '=' !in ps[i].0
  }

  /** Round trip: a non-empty list of plain parameters is read back exactly from its query string. */
  lemma {:induction false} QueryRoundTrip(ps: seq<(string, string)>)
    requires ps != [] && PlainParameters(ps)
    ensures ParseQuery(JoinQuery(ps)) == ps
  {
    var f := ps[0].0 + "=" + ps[0].1;
    assert '&' !in f;
    SplitNoSeparator(f, '&');
    SplitFieldJoin(ps[0].0, ps[0].1);
    if |ps| == 1 {
      assert SplitFields([f]) == [SplitField(f)];
    } else {
      var rest := JoinQuery(ps[1..]);
      assert JoinQuery(ps) == f + ['&'] + rest;
      SplitJoin(f, rest, '&');
      QueryRoundTrip(ps[1..]);
      var parts := [f] + Split(rest, '&');
      assert parts[1..] == Split(rest, '&');
      assert ps == [ps[0]] + ps[1..];
    }
  }

  /** The value of the last parameter called `name`, if any. */
  function Parameter(ps: seq<(string, string)>, name: string): Option<string> {
    if ps == [] then None
    else if ps[|ps| - 1].0 == name then Some(ps[|ps| - 1].1)
    else Parameter(ps[..|ps| - 1], name)
  }

  // ---------------------------------------------------------------- URLs

  /** The parameters of the authorisation request of section 4.3 of RFC 7636, in source order. */
  function AuthorizeParameters(challenge: string, state: string): seq<(string, string)> {
    [ ("client_id", Client),
      ("redirect_uri", EncodedCallbackUrl),
      ("response_type", "code"),
      ("scope", Scope + " offline_access"),
      ("code_challenge", challenge),
      ("code_challenge_method", "S256"),
      ("state", state) ]
  }

  /** The URL the interactive login opens. */
  function AuthorizeUrl(challenge: string, state: string): string {
    AuthUrl + "?" + JoinQuery(AuthorizeParameters(challenge, state))
  }

  /** The URL the browser opens after logout. */
  function LogoutRedirectUrl(): string {
    LogoutUrl + "?post_logout_redirect_uri=" + EncodedLogoutCallbackUrl
  }

  /** The last parameter called `name` sits at index `i` when no later one has that name. */
  lemma {:induction false} ParameterFound(ps: seq<(string, string)>, i: int, name: string)
    requires 0 <= i < |ps| && ps[i].0 == name
    requires forall j :: i < j < |ps| ==> ps[j].0 != name
    ensures Parameter(ps, name) == Some(ps[i].1)
  {
    if i < |ps| - 1 {
      ParameterFound(ps[..|ps| - 1], i, name);
    }
  }

  /** Each parameter of the authorisation request is found under its own name. */
  lemma AuthorizeParameterValues(challenge: string, state: string)
    ensures var ps := AuthorizeParameters(challenge, state);
      && Parameter(ps, "client_id") == Some(Client)
      && Parameter(ps, "redirect_uri") == Some(EncodedCallbackUrl)
      && Parameter(ps, "response_type") == Some("code")
      && Parameter(ps, "scope") == Some(Scope + " offline_access")
      && Parameter(ps, "code_challenge") == Some(challenge)
      && Parameter(ps, "code_challenge_method") == Some("S256")
      && Parameter(ps, "state") == Some(state)
  {
    var ps := AuthorizeParameters(challenge, state);
    forall i | 0 <= i < 7
      ensures forall j :: i < j < 7 ==> ps[j].0 != ps[i].0
    {
    }
    ParameterFound(ps, 0, "client_id");
    ParameterFound(ps, 1, "redirect_uri");
    ParameterFound(ps, 2, "response_type");
    ParameterFound(ps, 3, "scope");
    ParameterFound(ps, 4, "code_challenge");
    ParameterFound(ps, 5, "code_challenge_method");
    ParameterFound(ps, 6, "state");
  }

  /** The query of the authorize URL reads back as its parameters whenever the challenge and the
      state hold no '&'. */
  lemma AuthorizeQueryRoundTrip(challenge: string, state: string)
    requires '&' !in challenge && '&' !in state
    ensures ParseQuery(JoinQuery(AuthorizeParameters(challenge, state))) == AuthorizeParameters(challenge, state)
  {
    var ps := AuthorizeParameters(challenge, state);
    AuthorizeParametersPlain(challenge, state);
    QueryRoundTrip(ps);
  }

  /** The fixed names and values of the authorisation request hold neither '&' nor '='. */
  lemma AuthorizeParametersPlain(challenge: string, state: string)
    requires '&' !in challenge && '&' !in state
    ensures PlainParameters(AuthorizeParameters(challenge, state))
  {
    var ps := AuthorizeParameters(challenge, state);
    AuthorizeNamesPlain();
    AuthorizeValuesPlain();
    forall i | 0 <= i < |ps| ensures '&' !in ps[i].0 && '&' !in ps[i].1 && '=' !in ps[i].0 {
      if i == 0 { assert ps[i] == ("client_id", Client); }
      else if i == 1 { assert ps[i] == ("redirect_uri", EncodedCallbackUrl); }
      else if i == 2 { assert ps[i] == ("response_type", "code"); }
      else if i == 3 { assert ps[i] == ("scope", Scope + " offline_access"); }
      else if i == 4 { assert ps[i] == ("code_challenge", challenge); }
      else if i == 5 { assert ps[i] == ("code_challenge_method", "S256"); }
      else { assert ps[i] == ("state", state); }
    }
  }

  /** The parameter names of the authorisation request. */
  lemma AuthorizeNamesPlain()
    ensures '&' !in "client_id" && '=' !in "client_id"
    ensures '&' !in "redirect_uri" && '=' !in "redirect_uri"
    ensures '&' !in "response_type" && '=' !in "response_type"
    ensures '&' !in "scope" && '=' !in "scope"
    ensures '&' !in "code_challenge" && '=' !in "code_challenge"
    ensures '&' !in "code_challenge_method" && '=' !in "code_challenge_method"
    ensures '&' !in "state" && '=' !in "state"
  {
    Plain("client_id", "");
    Plain("redirect_uri", "");
    Plain("response_type", "");
    Plain("scope", "");
    Plain("code_challenge", "");
    Plain("code_challenge_method", "");
    Plain("state", "");
  }

  /** Its fixed parameter values. */
  lemma AuthorizeValuesPlain()
    ensures '&' !in Client && '&' !in EncodedCallbackUrl && '&' !in "code"
    ensures '&' !in Scope + " offline_access" && '&' !in "S256"
  {
    Plain("", Client);
    Plain("", EncodedCallbackUrl);
    Plain("", "code");
    Plain("", Scope + " offline_access");
    Plain("", "S256");
  }

  /** A name of lower-case letters and '_' with a value of URL-safe characters, spaces and '%'. */
  lemma Plain(name: string, value: string)
    requires forall j :: 0 <= j < |name| ==> 'a' <= name[j] <= 'z' || name[j] == '_'
    requires forall j :: 0 <= j < |value| ==> UrlSafe(value[j]) || value[j] == ' ' || value[j] == '%'
    ensures '&' !in name && '=' !in name && '&' !in value
  {
  }

  /** The authorize URL of a login is the endpoint, '?', and a query string from which a server
      reads back exactly the authorisation parameters, the challenge and the state among them. */
  lemma AuthorizeUrlParameters(verifier: string, env: Environment)
    ensures var challenge := GenerateCodeChallenge(verifier, env.sha256);
      var url := AuthorizeUrl(challenge, env.guid);
      && url[..|AuthUrl| + 1] == AuthUrl + "?"
      && ParseQuery(url[|AuthUrl| + 1..]) == AuthorizeParameters(challenge, env.guid)
  {
    var challenge := GenerateCodeChallenge(verifier, env.sha256);
    var url := AuthorizeUrl(challenge, env.guid);
    assert url[|AuthUrl| + 1..] == JoinQuery(AuthorizeParameters(challenge, env.guid));
    assert '&' !in challenge by {
      forall i | 0 <= i < |challenge| ensures challenge[i] != '&' {
        assert InUrlAlphabet(challenge[i]);
      }
    }
    assert '&' !in env.guid by {
      forall i | 0 <= i < |env.guid| ensures env.guid[i] != '&' {
        assert LowerHex(env.guid[i]);
      }
    }
    AuthorizeQueryRoundTrip(challenge, env.guid);
  }

  // ---------------------------------------------------------------- the session

  /** What the flows read and change: the secure store, and the effects in the order performed. */
  datatype Session = Session(store: map<string, Option<string>>, trace: seq<Event>)

  function Posted(s: Session, request: HttpRequest): Session {
    s.(trace := s.trace + [Post(request)])
  }

  function StoreTokens(s: Session, access: Option<string>, refresh: Option<string>): Session {
    s.(store := s.store[AccessTokenKey := access][RefreshTokenKey := refresh])
  }

  /** The token request of section 4.5 of RFC 7636. */
  function ExchangeRequest(code: string, verifier: string): HttpRequest {
    FormPost(TokenUrl, [ ("grant_type", "authorization_code"), ("client_id", Client),
                         ("redirect_uri", CallbackUrl), ("code", code), ("code_verifier", verifier) ])
  }

  /** The refresh request of section 6 of RFC 6749. */
  function RefreshRequest(refreshToken: string): HttpRequest {
    FormPost(TokenUrl, [ ("client_id", Client), ("grant_type", "refresh_token"),
                         ("refresh_token", refreshToken) ])
  }

  /** The revocation request of section 2.1 of RFC 7009. */
  function RevokeRequest(token: string): HttpRequest {
    FormPost(RevokeUrl, [ ("client_id", Client), ("token", token) ])
  }

  /** The two tokens of a token-endpoint body: a body that is not JSON throws, as does a missing
      member or one that is neither a string nor null. */
  function ReadTokens(body: Option<Json>): Outcome<(Option<string>, Option<string>)> {
    match body
    case None => Throws(JsonError)
    case Some(j) =>
      match GetStringProperty(j, "access_token")
      case Throws(e) => Throws(e)
      case Ok(access) =>
        match GetStringProperty(j, "refresh_token")
        case Throws(e) => Throws(e)
        case Ok(refresh) => Ok((access, refresh))
  }

  /** `ExchangeCodeForTokensAsync`. */
  function ExchangeStep(s: Session, code: string, verifier: string, env: Environment): (r: (Outcome<()>, Session))
    ensures r.1.trace == s.trace + [Post(ExchangeRequest(code, verifier))]
    ensures r.0.Throws? ==> r.1.store == s.store
  {
    var request := ExchangeRequest(code, verifier);
    var s1 := Posted(s, request);
    match env.server(request)
    case Failed(e) => (Throws(e), s1)
    case Response(status, content, body) =>
      if !IsSuccessStatusCode(status) then (Throws(TokenError(content)), s1)
      else match ReadTokens(body)
        case Throws(e) => (Throws(e), s1)
        case Ok(tokens) => (Ok(()), StoreTokens(s1, tokens.0, tokens.1))
  }

  /** The verifier a login uses: the stored one when there is a non-empty one, a fresh one otherwise. */
  function LoginVerifier(store: map<string, Option<string>>, random: Bytes32): string {
    var stored := Lookup(store, CodeVerifierKey);
    if IsNullOrEmpty(stored) then GenerateCodeVerifier(random) else stored.value
  }

  /** `LoginAsync`: authorise interactively, then exchange the code if the callback carries one. */
  function LoginStep(s: Session, env: Environment): (r: (Outcome<()>, Session))
    ensures s.trace < r.1.trace
  {
    var verifier := LoginVerifier(s.store, env.random);
    var url := AuthorizeUrl(GenerateCodeChallenge(verifier, env.sha256), env.guid);
    var s1 := s.(trace := s.trace + [Authorize(url, CallbackUrl)]);
    match env.authenticate(url)
    case Canceled => (Throws(TaskCanceled), s1)
    case Completed(properties) =>
      if "code" in properties then ExchangeStep(s1, properties["code"], verifier, env)
      else (Ok(()), s1)
  }

  /** A refresh that falls back to a login returns null, or what the login throws. */
  function LoginInstead(s: Session, env: Environment): (r: (Outcome<Option<string>>, Session))
    ensures r.0.Ok? ==> r.0.value == None
  {
    var (outcome, s1) := LoginStep(s, env);
    (if outcome.Throws? then Throws(outcome.error) else Ok(None), s1)
  }

  /** `RefreshAccessTokenAsync`. */
  function RefreshStep(s: Session, env: Environment): (r: (Outcome<Option<string>>, Session))
    ensures r.0.Ok? && r.0.value.Some? ==> Lookup(r.1.store, AccessTokenKey) == r.0.value
  {
    var refreshToken := Lookup(s.store, RefreshTokenKey);
    if IsNullOrEmpty(refreshToken) then LoginInstead(s, env)
    else
      var request := RefreshRequest(refreshToken.value);
      var s1 := Posted(s, request);
      match env.server(request)
      case Failed(e) => (Throws(e), s1)
      case Response(status, _, body) =>
        if !IsSuccessStatusCode(status) then LoginInstead(s1, env)
        else match ReadTokens(body)
          case Throws(e) => (Throws(e), s1)
          case Ok(tokens) => (Ok(tokens.0), StoreTokens(s1, tokens.0, tokens.1))
  }

  /** `RevokeTokenAsync`: nothing for a null or empty token; otherwise a failure status throws. */
  function RevokeStep(s: Session, token: Option<string>, env: Environment): (r: (Outcome<()>, Session))
    ensures r.1.store == s.store
    ensures IsNullOrEmpty(token) ==> r == (Ok(()), s)
    ensures !IsNullOrEmpty(token) ==> r.1.trace == s.trace + [Post(RevokeRequest(token.value))]
  {
    if IsNullOrEmpty(token) then (Ok(()), s)
    else
      var request := RevokeRequest(token.value);
      var s1 := Posted(s, request);
      match env.server(request)
      case Failed(e) => (Throws(e), s1)
      case Response(status, _, _) =>
        if IsSuccessStatusCode(status) then (Ok(()), s1) else (Throws(HttpRequestError(status)), s1)
  }

  /** `LogoutAsync`: revoke both tokens, then clear them and open the logout page. */
  function LogoutStep(s: Session, env: Environment): (r: (Outcome<()>, Session))
    ensures r.0.Ok? ==> AccessTokenKey !in r.1.store && RefreshTokenKey !in r.1.store
    ensures r.0.Throws? ==> r.1.store == s.store
  {
    var access := Lookup(s.store, AccessTokenKey);
    var refresh := Lookup(s.store, RefreshTokenKey);
    var (first, s1) := RevokeStep(s, access, env);
    if first.Throws? then (first, s1)
    else
      var (second, s2) := RevokeStep(s1, refresh, env);
      if second.Throws? then (second, s2)
      else (Ok(()), Session(s2.store - {AccessTokenKey} - {RefreshTokenKey},
                            s2.trace + [OpenBrowser(LogoutRedirectUrl())]))
  }

  // ---------------------------------------------------------------- properties of the flows

  /** `after` extends the log of `before` and agrees with it on every key but the two tokens. */
  ghost predicate OnlyTokensChanged(before: Session, after: Session) {
    && before.trace <= after.trace
    && forall k :: k != AccessTokenKey && k != RefreshTokenKey ==> Lookup(after.store, k) == Lookup(before.store, k)
  }

  /** The code exchange only appends to the log and writes no key but the two tokens. */
  lemma ExchangeTouchesOnlyTokens(s: Session, code: string, verifier: string, env: Environment)
    ensures OnlyTokensChanged(s, ExchangeStep(s, code, verifier, env).1)
  {
  }

  /** So does a login. */
  lemma LoginTouchesOnlyTokens(s: Session, env: Environment)
    ensures OnlyTokensChanged(s, LoginStep(s, env).1)
  {
    var verifier := LoginVerifier(s.store, env.random);
    var url := AuthorizeUrl(GenerateCodeChallenge(verifier, env.sha256), env.guid);
    var s1 := s.(trace := s.trace + [Authorize(url, CallbackUrl)]);
    match env.authenticate(url)
    case Canceled =>
    case Completed(properties) =>
      if "code" in properties {
        ExchangeTouchesOnlyTokens(s1, properties["code"], verifier, env);
      }
  }

  /** So does a refresh, including its fallback to a login. */
  lemma RefreshTouchesOnlyTokens(s: Session, env: Environment)
    ensures OnlyTokensChanged(s, RefreshStep(s, env).1)
  {
    var rt := Lookup(s.store, RefreshTokenKey);
    if IsNullOrEmpty(rt) {
      LoginTouchesOnlyTokens(s, env);
    } else {
      var request := RefreshRequest(rt.value);
      var p := Posted(s, request);
      match env.server(request)
      case Failed(_) =>
      case Response(status, _, body) =>
        if !IsSuccessStatusCode(status) {
          LoginTouchesOnlyTokens(p, env);
          OnlyTokensChangedTrans(s, p, LoginStep(p, env).1);
        } else if ReadTokens(body).Ok? {
          var tokens := ReadTokens(body).value;
          assert RefreshStep(s, env).1 == StoreTokens(p, tokens.0, tokens.1);
        }
    }
  }

  /** Changing only the tokens twice changes only the tokens. */
  lemma OnlyTokensChangedTrans(s1: Session, s2: Session, s3: Session)
    requires OnlyTokensChanged(s1, s2) && OnlyTokensChanged(s2, s3)
    ensures OnlyTokensChanged(s1, s3)
  {
  }

  /** A revocation and a logout only append to the log; logout removes the two tokens and
      leaves every other key. */
  lemma LogoutTouchesOnlyTokens(s: Session, token: Option<string>, env: Environment)
    ensures OnlyTokensChanged(s, RevokeStep(s, token, env).1)
    ensures OnlyTokensChanged(s, LogoutStep(s, env).1)
  {
  }

  /** Hence the code verifier is never written: a login that found none leaves none, and the next
      login draws a new one. */
  lemma VerifierNeverStored(s: Session, env: Environment)
    ensures Lookup(LoginStep(s, env).1.store, CodeVerifierKey) == Lookup(s.store, CodeVerifierKey)
    ensures Lookup(RefreshStep(s, env).1.store, CodeVerifierKey) == Lookup(s.store, CodeVerifierKey)
  {
    LoginTouchesOnlyTokens(s, env);
    RefreshTouchesOnlyTokens(s, env);
  }

  /** A login that throws leaves the store as it found it: tokens are written only after the
      whole token response has been read. */
  lemma LoginFailureKeepsStore(s: Session, env: Environment)
    ensures LoginStep(s, env).0.Throws? ==> LoginStep(s, env).1.store == s.store
  {
    var verifier := LoginVerifier(s.store, env.random);
    var url := AuthorizeUrl(GenerateCodeChallenge(verifier, env.sha256), env.guid);
    var s1 := s.(trace := s.trace + [Authorize(url, CallbackUrl)]);
    match env.authenticate(url)
    case Canceled =>
    case Completed(properties) =>
      if "code" in properties {
        assert LoginStep(s, env) == ExchangeStep(s1, properties["code"], verifier, env);
      }
  }



  /** So does a refresh that throws. */
  lemma RefreshFailureKeepsStore(s: Session, env: Environment)
    ensures RefreshStep(s, env).0.Throws? ==> RefreshStep(s, env).1.store == s.store
  {
    var rt := Lookup(s.store, RefreshTokenKey);
    if IsNullOrEmpty(rt) {
      LoginFailureKeepsStore(s, env);
    } else {
      LoginFailureKeepsStore(Posted(s, RefreshRequest(rt.value)), env);
    }
  }

  /** Section 4.6 of RFC 7636: a login first opens the authorize URL carrying the S256 challenge of
      its verifier (the stored one when it is non-empty), and the code exchange that follows, if the
      callback has a code, sends that very verifier. */
  lemma LoginBindsVerifier(s: Session, env: Environment)
    ensures var v := LoginVerifier(s.store, env.random);
      var challenge := GenerateCodeChallenge(v, env.sha256);
      var url := AuthorizeUrl(challenge, env.guid);
      var s' := LoginStep(s, env).1;
      && (Lookup(s.store, CodeVerifierKey).Some? && Lookup(s.store, CodeVerifierKey).value != "" ==>
            v == Lookup(s.store, CodeVerifierKey).value)
      && Base64UrlDecode(challenge) == Some(env.sha256(AsciiBytes(v)))
      && |s'.trace| > |s.trace|
      && s'.trace[|s.trace|] == Authorize(url, CallbackUrl)
      && (env.authenticate(url).Completed? && "code" in env.authenticate(url).properties ==>
            && |s'.trace| == |s.trace| + 2
            && s'.trace[|s.trace| + 1] == Post(ExchangeRequest(env.authenticate(url).properties["code"], v)))
  {
    var v := LoginVerifier(s.store, env.random);
    var url := AuthorizeUrl(GenerateCodeChallenge(v, env.sha256), env.guid);
    var s1 := s.(trace := s.trace + [Authorize(url, CallbackUrl)]);
    match env.authenticate(url)
    case Canceled =>
      assert LoginStep(s, env).1 == s1;
    case Completed(properties) =>
      if "code" in properties {
        assert LoginStep(s, env) == ExchangeStep(s1, properties["code"], v, env);
      } else {
        assert LoginStep(s, env).1 == s1;
      }
  }


  /** A dismissed login throws and changes nothing but the log; a callback without a code ends the
      login quietly, with no request sent. */
  lemma LoginWithoutCode(s: Session, env: Environment)
    ensures var url := AuthorizeUrl(GenerateCodeChallenge(LoginVerifier(s.store, env.random), env.sha256), env.guid);
      var after := s.(trace := s.trace + [Authorize(url, CallbackUrl)]);
      && (env.authenticate(url).Canceled? ==> LoginStep(s, env) == (Throws(TaskCanceled), after))
      && (env.authenticate(url).Completed? && "code" !in env.authenticate(url).properties ==>
            LoginStep(s, env) == (Ok(()), after))
  {
  }

  /** A token response that is not a success throws the `Token error:` exception with its body,
      and stores nothing. */
  lemma ExchangeRejected(s: Session, code: string, verifier: string, env: Environment)
    requires env.server(ExchangeRequest(code, verifier)).Response?
    requires !IsSuccessStatusCode(env.server(ExchangeRequest(code, verifier)).status)
    ensures ExchangeStep(s, code, verifier, env) ==
      (Throws(TokenError(env.server(ExchangeRequest(code, verifier)).content)),
       Posted(s, ExchangeRequest(code, verifier)))
  {
  }

  /** A successful token response that carries both tokens as strings stores both of them. */
  lemma ExchangeStoresTokens(s: Session, code: string, verifier: string, env: Environment,
                             members: seq<(string, Json)>, access: string, refresh: string)
    requires env.server(ExchangeRequest(code, verifier)).Response?
    requires IsSuccessStatusCode(env.server(ExchangeRequest(code, verifier)).status)
    requires env.server(ExchangeRequest(code, verifier)).json == Some(JObject(members))
    requires Member(members, "access_token") == Some(JString(access))
    requires Member(members, "refresh_token") == Some(JString(refresh))
    ensures var s' := ExchangeStep(s, code, verifier, env).1;
      && ExchangeStep(s, code, verifier, env).0 == Ok(())
      && Lookup(s'.store, AccessTokenKey) == Some(access)
      && Lookup(s'.store, RefreshTokenKey) == Some(refresh)
      && s'.trace == s.trace + [Post(ExchangeRequest(code, verifier))]
  {
  }

  /** A refresh that returns a token has stored it, after exactly one request: the refresh grant
      with the stored refresh token. */
  lemma RefreshReturnsStoredToken(s: Session, env: Environment)
    ensures var (r, s') := RefreshStep(s, env);
      r.Ok? && r.value.Some? ==>
        && Lookup(s.store, RefreshTokenKey).Some?
        && Lookup(s'.store, AccessTokenKey) == r.value
        && s'.trace == s.trace + [Post(RefreshRequest(Lookup(s.store, RefreshTokenKey).value))]
  {
  }

  /** Without a refresh token, refreshing is a login and returns null, or what the login throws;
      no refresh request is sent. */
  lemma RefreshWithoutTokenLogsIn(s: Session, env: Environment)
    requires IsNullOrEmpty(Lookup(s.store, RefreshTokenKey))
    ensures RefreshStep(s, env).1 == LoginStep(s, env).1
    ensures RefreshStep(s, env).0.Ok? ==> RefreshStep(s, env).0.value == None
    ensures RefreshStep(s, env).0.Throws? <==> LoginStep(s, env).0.Throws?
  {
  }

  /** A rejected refresh falls back to a login after the refresh request, and returns no token. */
  lemma RefreshRejectedLogsIn(s: Session, env: Environment, refreshToken: string)
    requires Lookup(s.store, RefreshTokenKey) == Some(refreshToken) && refreshToken != ""
    requires env.server(RefreshRequest(refreshToken)).Response?
    requires !IsSuccessStatusCode(env.server(RefreshRequest(refreshToken)).status)
    ensures RefreshStep(s, env).1 == LoginStep(Posted(s, RefreshRequest(refreshToken)), env).1
    ensures RefreshStep(s, env).0.Ok? ==> RefreshStep(s, env).0.value == None
  {
  }

  /** A successful refresh response that carries both tokens as strings replaces both stored
      tokens, after exactly the one refresh request, and returns the new access token. */
  lemma RefreshStoresTokens(s: Session, env: Environment, refreshToken: string,
                            members: seq<(string, Json)>, access: string, refresh: string)
    requires Lookup(s.store, RefreshTokenKey) == Some(refreshToken) && refreshToken != ""
    requires env.server(RefreshRequest(refreshToken)).Response?
    requires IsSuccessStatusCode(env.server(RefreshRequest(refreshToken)).status)
    requires env.server(RefreshRequest(refreshToken)).json == Some(JObject(members))
    requires Member(members, "access_token") == Some(JString(access))
    requires Member(members, "refresh_token") == Some(JString(refresh))
    ensures RefreshStep(s, env) ==
      (Ok(Some(access)), StoreTokens(Posted(s, RefreshRequest(refreshToken)), Some(access), Some(refresh)))
    ensures var s' := RefreshStep(s, env).1;
      && Lookup(s'.store, AccessTokenKey) == Some(access)
      && Lookup(s'.store, RefreshTokenKey) == Some(refresh)
      && s'.trace == s.trace + [Post(RefreshRequest(refreshToken))]
  {
  }

  /** An instance, rotation: with refresh token "rt1" stored and a server answering the refresh grant with
      `{"access_token":"at2","refresh_token":"rt2"}`, a refresh returns "at2" and stores both. */
  lemma RefreshRotation(s: Session, env: Environment, status: int, content: string)
    requires Lookup(s.store, RefreshTokenKey) == Some("rt1")
    requires IsSuccessStatusCode(status)
    requires env.server(RefreshRequest("rt1")) ==
      Response(status, content, Some(JObject([("access_token", JString("at2")), ("refresh_token", JString("rt2"))])))
    ensures var (r, s') := RefreshStep(s, env);
      && r == Ok(Some("at2"))
      && Lookup(s'.store, AccessTokenKey) == Some("at2")
      && Lookup(s'.store, RefreshTokenKey) == Some("rt2")
  {
    var members := [("access_token", JString("at2")), ("refresh_token", JString("rt2"))];
    assert Member(members, "access_token") == Some(JString("at2"));
    RefreshStoresTokens(s, env, "rt1", members, "at2", "rt2");
  }

  /** Revoking a null or empty token sends nothing; otherwise one revocation request is sent and
      the call succeeds exactly when the status is a success, throwing with the status when not. */
  lemma RevokeOutcome(s: Session, token: Option<string>, env: Environment)
    ensures IsNullOrEmpty(token) ==> RevokeStep(s, token, env) == (Ok(()), s)
    ensures !IsNullOrEmpty(token) && env.server(RevokeRequest(token.value)).Response? ==>
      var status := env.server(RevokeRequest(token.value)).status;
      && RevokeStep(s, token, env).1 == Posted(s, RevokeRequest(token.value))
      && (RevokeStep(s, token, env).0.Ok? <==> IsSuccessStatusCode(status))
      && (RevokeStep(s, token, env).0.Throws? ==> RevokeStep(s, token, env).0.error == HttpRequestError(status))
  {
  }

  /** A logout that succeeds has cleared both tokens and ends by opening the logout page; one that
      throws keeps the store and never opens it. */
  lemma LogoutClearsOnlyOnSuccess(s: Session, env: Environment)
    ensures var (r, s') := LogoutStep(s, env);
      && (r.Ok? ==>
            && Lookup(s'.store, AccessTokenKey) == None
            && Lookup(s'.store, RefreshTokenKey) == None
            && |s'.trace| > |s.trace|
            && s'.trace[|s'.trace| - 1] == OpenBrowser(LogoutRedirectUrl()))
      && (r.Throws? ==> s'.store == s.store && OpenBrowser(LogoutRedirectUrl()) !in s'.trace[|s.trace|..])
  {
    var access := Lookup(s.store, AccessTokenKey);
    var refresh := Lookup(s.store, RefreshTokenKey);
    var (first, s1) := RevokeStep(s, access, env);
    if first.Throws? {
      assert LogoutStep(s, env) == (first, s1);
      assert forall e :: e in s1.trace[|s.trace|..] ==> e.Post?;
    } else {
      var (second, s2) := RevokeStep(s1, refresh, env);
      if second.Throws? {
        assert LogoutStep(s, env) == (second, s2);
        assert forall e :: e in s2.trace[|s.trace|..] ==> e.Post?;
      } else {
        var s3 := Session(s2.store - {AccessTokenKey} - {RefreshTokenKey}, s2.trace + [OpenBrowser(LogoutRedirectUrl())]);
        assert LogoutStep(s, env) == (Ok(()), s3);
        assert AccessTokenKey !in s3.store && RefreshTokenKey !in s3.store;
      }
    }
  }

  /** Logout is not best-effort: with both tokens stored, it succeeds only when both revocations
      do, and a failed first revocation stops it before the second is sent. */
  lemma LogoutNeedsBothRevocations(s: Session, env: Environment, access: string, refresh: string)
    requires Lookup(s.store, AccessTokenKey) == Some(access) && access != ""
    requires Lookup(s.store, RefreshTokenKey) == Some(refresh) && refresh != ""
    requires env.server(RevokeRequest(access)).Response? && env.server(RevokeRequest(refresh)).Response?
    ensures LogoutStep(s, env).0.Ok? <==>
      IsSuccessStatusCode(env.server(RevokeRequest(access)).status) &&
      IsSuccessStatusCode(env.server(RevokeRequest(refresh)).status)
    ensures !IsSuccessStatusCode(env.server(RevokeRequest(access)).status) ==>
      LogoutStep(s, env).1 == Posted(s, RevokeRequest(access))
  {
  }

  /** Signed out already: logout sends no request and only opens the logout page. */
  lemma LogoutWhenSignedOut(s: Session, env: Environment)
    requires IsNullOrEmpty(Lookup(s.store, AccessTokenKey)) && IsNullOrEmpty(Lookup(s.store, RefreshTokenKey))
    ensures LogoutStep(s, env).0 == Ok(())
    ensures LogoutStep(s, env).1.trace == s.trace + [OpenBrowser(LogoutRedirectUrl())]
  {
  }

  /** After a successful logout the next refresh has no refresh token and falls back to a login. */
  lemma RefreshAfterLogoutLogsIn(s: Session, env: Environment, later: Environment)
    requires LogoutStep(s, env).0.Ok?
    ensures RefreshStep(LogoutStep(s, env).1, later).1 == LoginStep(LogoutStep(s, env).1, later).1
  {
    LogoutClearsOnlyOnSuccess(s, env);
  }

  // ---------------------------------------------------------------- the class

  class Authentication {
    const storage: SecureStorage
    ghost var trace: seq<Event>

    ghost function State(): Session
      reads this, storage
    {
      Session(storage.entries, trace)
    }

    constructor(storage: SecureStorage)
      ensures this.storage == storage && trace == []
    {
      this.storage := storage;
      trace := [];
    }

    method ExchangeCodeForTokens(code: string, codeVerifier: string, env: Environment) returns (r: Outcome<()>)
      modifies this, storage
      ensures (r, State()) == ExchangeStep(old(State()), code, codeVerifier, env)
    {
      var request := ExchangeRequest(code, codeVerifier);
      trace := trace + [Post(request)];
      var response := env.server(request);
      if response.Failed? {
        return Throws(response.error);
      }
      if !IsSuccessStatusCode(response.status) {
        return Throws(TokenError(response.content));
      }
      var tokens := ReadTokens(response.json);
      if tokens.Throws? {
        return Throws(tokens.error);
      }
      storage.SetSecure(AccessTokenKey, tokens.value.0);
      storage.SetSecure(RefreshTokenKey, tokens.value.1);
      return Ok(());
    }

    method Login(env: Environment) returns (r: Outcome<()>)
      modifies this, storage
      ensures (r, State()) == LoginStep(old(State()), env)
    {
      ghost var s0 := State();
      var codeVerifier := storage.GetSecure(CodeVerifierKey);
      var verifier;
      if IsNullOrEmpty(codeVerifier) {
        verifier := GenerateCodeVerifier(env.random);
      } else {
        verifier := codeVerifier.value;
      }
      assert verifier == LoginVerifier(storage.entries, env.random);
      var challenge := GenerateCodeChallenge(verifier, env.sha256);
      var url := AuthorizeUrl(challenge, env.guid);
      trace := trace + [Authorize(url, CallbackUrl)];
      ghost var s1 := State();
      var result := env.authenticate(url);
      assert s1 == s0.(trace := s0.trace + [Authorize(url, CallbackUrl)]);
      if result.Canceled? {
        assert LoginStep(s0, env) == (Throws(TaskCanceled), s1);
        return Throws(TaskCanceled);
      }
      if "code" in result.properties {
        r := ExchangeCodeForTokens(result.properties["code"], verifier, env);
        assert LoginStep(s0, env) == ExchangeStep(s1, result.properties["code"], verifier, env);
      } else {
        assert LoginStep(s0, env) == (Ok(()), s1);
        r := Ok(());
      }
    }

    method RefreshAccessToken(env: Environment) returns (r: Outcome<Option<string>>)
      modifies this, storage
      ensures (r, State()) == RefreshStep(old(State()), env)
    {
      var refreshToken := storage.GetSecure(RefreshTokenKey);
      if IsNullOrEmpty(refreshToken) {
        var login := Login(env);
        return if login.Throws? then Throws(login.error) else Ok(None);
      }
      var request := RefreshRequest(refreshToken.value);
      trace := trace + [Post(request)];
      var response := env.server(request);
      if response.Failed? {
        return Throws(response.error);
      }
      if !IsSuccessStatusCode(response.status) {
        var login := Login(env);
        return if login.Throws? then Throws(login.error) else Ok(None);
      }
      var tokens := ReadTokens(response.json);
      if tokens.Throws? {
        return Throws(tokens.error);
      }
      storage.SetSecure(AccessTokenKey, tokens.value.0);
      storage.SetSecure(RefreshTokenKey, tokens.value.1);
      return Ok(tokens.value.0);
    }

    method RevokeToken(token: Option<string>, env: Environment) returns (r: Outcome<()>)
      modifies this
      ensures storage.entries == old(storage.entries)
      ensures (r, State()) == RevokeStep(old(State()), token, env)
    {
      if !IsNullOrEmpty(token) {
        var request := RevokeRequest(token.value);
        trace := trace + [Post(request)];
        var response := env.server(request);
        if response.Failed? {
          return Throws(response.error);
        }
        if !IsSuccessStatusCode(response.status) {
          return Throws(HttpRequestError(response.status));
        }
      }
      return Ok(());
    }

    method Logout(env: Environment) returns (r: Outcome<()>)
      modifies this, storage
      ensures (r, State()) == LogoutStep(old(State()), env)
    {
      var accessToken := storage.GetSecure(AccessTokenKey);
      var refreshToken := storage.GetSecure(RefreshTokenKey);
      ghost var s0 := State();
      r := RevokeToken(accessToken, env);
      if r.Throws? {
        return;
      }
      ghost var s1 := State();
      assert RevokeStep(s0, accessToken, env) == (Ok(()), s1);
      r := RevokeToken(refreshToken, env);
      if r.Throws? {
        return;
      }
      ghost var s2 := State();
      assert RevokeStep(s1, refreshToken, env) == (Ok(()), s2);
      storage.ClearSecure(AccessTokenKey);
      storage.ClearSecure(RefreshTokenKey);
      trace := trace + [OpenBrowser(LogoutRedirectUrl())];
      assert State() == Session(s2.store - {AccessTokenKey} - {RefreshTokenKey}, s2.trace + [OpenBrowser(LogoutRedirectUrl())]);
    }
  }
}
