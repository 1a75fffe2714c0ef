/**
 * What the core talks to and does not implement: the fixed endpoints and keys, HTTP requests
 * and responses, the interactive authenticator, the secure key-value store, and the foreign
 * primitives (SHA-256, the random source, GUIDs, the clock, JSON text parsing) as values.
 */
module Externals {
  import opened Wrappers
  import opened Json

  const AuthUrl := "https://track-hub.co/Identity/authorize"
  const TokenUrl := "https://track-hub.co/Identity/token"
  const RevokeUrl := "https://track-hub.co/Identity/revoke"
  const LogoutUrl := "https://track-hub.co/Identity/logout"
  const CallbackUrl := "trackhubmobile://callback"
  const CallbackScheme := "trackhubmobile"
  const CallbackHost := "callback"
  const LogoutCallbackUrl := "trackhubmobile://logoutcallback"
  const LogoutScheme := "trackhubmobile"
  const LogoutHost := "logoutcallback"
  const Client := "mobile_client"
  const Scope := "mobile_scope"

  /** The keys of the secure store. */
  const CodeVerifierKey := "code_verifier"
  const AccessTokenKey := "access_token"
  const RefreshTokenKey := "refresh_token"

  /** An HTTP POST: a form-encoded body, or a JSON body sent with a bearer token (possibly null). */
  datatype HttpRequest =
    | FormPost(url: string, form: seq<(string, string)>)
    | JsonPost(url: string, bearer: Option<string>, body: Json)

  /** What a POST gives back: a status with its body text and that text parsed as JSON (`None`
      when it is not JSON), or a failure that the awaiting code sees as an exception. */
  datatype HttpResponse =
    | Response(status: int, content: string, json: Option<Json>)
    | Failed(error: Exception)

  /** `HttpResponseMessage.IsSuccessStatusCode`. */
  predicate IsSuccessStatusCode(status: int) {
    200 <= status <= 299
  }

  /** The outcome of `WebAuthenticator.AuthenticateAsync`: the callback's properties, or a
      dismissal, which surfaces as a `TaskCanceledException`. */
  datatype AuthenticatorResult = Completed(properties: map<string, string>) | Canceled

  /** An effect on the outside world, in the order the code performs it. */
  datatype Event =
    | Authorize(url: string, callback: string)   // WebAuthenticator.AuthenticateAsync
    | Post(request: HttpRequest)                  // HttpClient.PostAsync
    | OpenBrowser(url: string)                    // Browser.OpenAsync in external mode

  /** `Guid.NewGuid().ToString("N")`: 32 lower-case hexadecimal digits. */
  type GuidN = s: string | |s| == 32 && forall i :: 0 <= i < |s| ==> LowerHex(s[i])
    witness "00000000000000000000000000000000"

  /** A digit of a lower-case hexadecimal numeral. */
  predicate LowerHex(c: char) {
    ('0' <= c <= '9') || ('a' <= c <= 'f')
  }

  /** The foreign primitives one operation may consult. */
  datatype Environment = Environment(
    server: HttpRequest -> HttpResponse,           // the identity and GraphQL servers
    authenticate: string -> AuthenticatorResult,   // the interactive flow, given the authorize URL
    random: Bytes32,                               // RandomNumberGenerator.Fill of 32 bytes
    guid: GuidN,                                   // Guid.NewGuid
    sha256: seq<Byte> -> Bytes32,                  // SHA256.HashData
    parsePayload: seq<Byte> -> Option<Json>,       // UTF-8 decoding and JSON parsing of a JWT payload
    utcNowTicks: int)                              // DateTime.UtcNow, in ticks since the Unix epoch

  /** The value stored under `key`, null when there is none. */
  function Lookup(entries: map<string, Option<string>>, key: string): Option<string> {
    if key in entries then entries[key] else None
  }

  /** The secure key-value store shared by the session and the GraphQL reader. */
  class SecureStorage {
    var entries: map<string, Option<string>>

    constructor()
      ensures entries == map[]
    {
      entries := map[];
    }

    /** `GetSecure`. */
    function GetSecure(key: string): (v: Option<string>)
      reads this
      ensures key !in entries ==> v == None
      ensures key in entries ==> v == entries[key]
    {
      Lookup(entries, key)
    }

    /** `SetSecure`; a null value is recorded as written. */
    method SetSecure(key: string, value: Option<string>)
      modifies this
      ensures entries == old(entries)[key := value]
      ensures GetSecure(key) == value
    {
      entries := entries[key := value];
    }

    /** `ClearSecure`. */
    method ClearSecure(key: string)
      modifies this
      ensures entries == old(entries) - {key}
      ensures GetSecure(key) == None
    {
      entries := entries - {key};
    }
  }
}
