/**
 * `GraphQLReader`: one authenticated POST of a query to a GraphQL endpoint, and the decision, on
 * the parsed response, between the root field's value, nothing, and an exception. The envelope
 * is the response format of section 7.1 of the GraphQL specification (October 2021): a top-level
 * `errors` list and a `data` object.
 */
module GraphQL {
  import opened Wrappers
  import opened Text
  import opened Json
  import opened Tokens
  import opened Base64
  import opened Externals
  import opened Auth

  // ---------------------------------------------------------------- the envelope decision

  /** The `message` of each error that is neither null nor white space, in order; an error that is
      not an object, lacks `message`, or has a `message` that is neither a string nor null throws. */
  function ErrorMessages(errors: seq<Json>): (r: Outcome<seq<string>>)
    ensures r.Ok? <==> forall i :: 0 <= i < |errors| ==> GetStringProperty(errors[i], "message").Ok?
    ensures r.Ok? ==> |r.value| <= |errors|
    ensures r.Ok? ==> forall i :: 0 <= i < |r.value| ==> !IsNullOrWhiteSpace(Some(r.value[i]))
    ensures r.Ok? ==> forall i :: 0 <= i < |errors| ==>
      (GetStringProperty(errors[i], "message").Ok? && !IsNullOrWhiteSpace(GetStringProperty(errors[i], "message").value)
       ==> GetStringProperty(errors[i], "message").value.value in r.value)
  {
    if errors == [] then Ok([]) else Prepend(GetStringProperty(errors[0], "message"), ErrorMessages(errors[1..]))
  }

  /** One error's `message` read before the rest: its exception first, then the rest's; a message
      that is null or white space is dropped. */
  function Prepend(message: Outcome<Option<string>>, rest: Outcome<seq<string>>): Outcome<seq<string>> {
    match message
    case Throws(e) => Throws(e)
    case Ok(m) =>
      match rest
      case Throws(e) => Throws(e)
      case Ok(ms) => Ok((if IsNullOrWhiteSpace(m) then [] else [m.value]) + ms)
  }

  /** Collecting over two runs of errors is collecting over each in turn: the first failing error
      decides the exception, and the kept messages stay in order. */
  lemma {:induction false} ErrorMessagesAppend(a: seq<Json>, b: seq<Json>)
    ensures ErrorMessages(a + b) == Sequenced(ErrorMessages(a), ErrorMessages(b))
  {
    if a == [] {
      assert a + b == b;
      match ErrorMessages(b)
      case Throws(e) =>
      case Ok(mb) => assert [] + mb == mb;
    } else {
      ErrorMessagesAppend(a[1..], b);
      ErrorMessagesAppendStep(a[0], a[1..], b);
      assert a == [a[0]] + a[1..];
    }
  }

  /** One error on its own: a `message` that is neither null nor white space is kept, a null or
      blank one is dropped, and a failed read is the exception. With `ErrorMessagesAppend` this
      fixes the collection over any list: every non-blank message, in order. */
  lemma ErrorMessagesOne(x: Json)
    ensures match GetStringProperty(x, "message")
      case Throws(e) => ErrorMessages([x]) == Throws(e)
      case Ok(m) => ErrorMessages([x]) == if IsNullOrWhiteSpace(m) then Ok([]) else Ok([m.value])
  {
    assert [x] + [] == [x];
    ErrorMessagesCons(x, []);
    match GetStringProperty(x, "message")
    case Throws(e) =>
    case Ok(m) =>
      if !IsNullOrWhiteSpace(m) {
        assert [m.value] + [] == [m.value];
      }
  }

  /** The first outcome's exception, else the second's, else both message lists in order. */
  function Sequenced(x: Outcome<seq<string>>, y: Outcome<seq<string>>): Outcome<seq<string>> {
    match x
    case Throws(e) => Throws(e)
    case Ok(mx) =>
      match y
      case Throws(e) => Throws(e)
      case Ok(my) => Ok(mx + my)
  }

  /** The step of `ErrorMessagesAppend`, from the errors after `x` to `x` and those errors. */
  lemma ErrorMessagesAppendStep(x: Json, t: seq<Json>, b: seq<Json>)
    requires ErrorMessages(t + b) == Sequenced(ErrorMessages(t), ErrorMessages(b))
    ensures ErrorMessages([x] + t + b) == Sequenced(ErrorMessages([x] + t), ErrorMessages(b))
  {
    assert [x] + t + b == [x] + (t + b);
    ErrorMessagesCons(x, t + b);
    ErrorMessagesCons(x, t);
    PrependSequenced(GetStringProperty(x, "message"), ErrorMessages(t), ErrorMessages(b));
  }

  /** `ErrorMessages` on a list with a known first error. */
  lemma ErrorMessagesCons(x: Json, t: seq<Json>)
    ensures ErrorMessages([x] + t) == Prepend(GetStringProperty(x, "message"), ErrorMessages(t))
  {
    assert ([x] + t)[0] == x && ([x] + t)[1..] == t;
  }

  /** Reading one more message in front associates with sequencing. */
  lemma PrependSequenced(m: Outcome<Option<string>>, x: Outcome<seq<string>>, y: Outcome<seq<string>>)
    ensures Prepend(m, Sequenced(x, y)) == Sequenced(Prepend(m, x), y)
  {
    if m.Ok? && x.Ok? && y.Ok? {
      var kept := if IsNullOrWhiteSpace(m.value) then [] else [m.value.value];
      assert kept + (x.value + y.value) == (kept + x.value) + y.value;
    }
  }

  /** An error object without a `message` member makes the collection throw `KeyNotFound`, unless
      an earlier error already threw. */
  lemma {:induction false} MissingMessageThrows(errors: seq<Json>, i: int)
    requires 0 <= i < |errors| && errors[i].JObject? && Member(errors[i].members, "message").None?
    ensures ErrorMessages(errors).Throws?
    ensures (forall j :: 0 <= j < i ==> GetStringProperty(errors[j], "message").Ok?) ==>
      ErrorMessages(errors) == Throws(KeyNotFound)
    decreases i
  {
    assert GetStringProperty(errors[i], "message") == Throws(KeyNotFound);
    if i > 0 {
      MissingMessageThrows(errors[1..], i - 1);
      if forall j :: 0 <= j < i ==> GetStringProperty(errors[j], "message").Ok? {
        assert GetStringProperty(errors[0], "message").Ok?;
        assert forall j :: 0 <= j < i - 1 ==> GetStringProperty(errors[1..][j], "message").Ok?;
      }
    }
  }

  /** The reading of a parsed response: an `errors` array means no result (once its messages have
      been collected); otherwise the value of `data.<rootField>`, bound by `decode`, or no result
      when either member is missing. `TryGetProperty` on a non-object root or `data` throws. */
  function ReadEnvelope<T>(root: Json, rootField: string, decode: Json -> Outcome<Option<T>>): (r: Outcome<Option<T>>)
    ensures r.Ok? && r.value.Some? ==>
      && root.JObject?
      && !(Member(root.members, "errors").Some? && Member(root.members, "errors").value.JArray?)
      && Member(root.members, "data").Some? && Member(root.members, "data").value.JObject?
      && Member(Member(root.members, "data").value.members, rootField).Some?
      && r == decode(Member(Member(root.members, "data").value.members, rootField).value)
  {
    match TryGetProperty(root, "errors")
    case Throws(e) => Throws(e)
    case Ok(errors) =>
      if errors.Some? && errors.value.JArray? then
        match ErrorMessages(errors.value.items)
        case Throws(e) => Throws(e)
        case Ok(_) => Ok(None)
      else
        match TryGetProperty(root, "data")
        case Throws(e) => Throws(e)
        case Ok(None) => Ok(None)
        case Ok(Some(data)) =>
          match TryGetProperty(data, rootField)
          case Throws(e) => Throws(e)
          case Ok(None) => Ok(None)
          case Ok(Some(field)) => decode(field)
  }

  /** An `errors` array wins over `data`, whatever `data` holds, even when the array is empty. */
  lemma ErrorsWin<T>(members: seq<(string, Json)>, items: seq<Json>, rootField: string, decode: Json -> Outcome<Option<T>>)
    requires Member(members, "errors") == Some(JArray(items))
    ensures ReadEnvelope(JObject(members), rootField, decode) ==
      (if ErrorMessages(items).Ok? then Ok(None) else Throws(ErrorMessages(items).error))
    ensures items == [] ==> ReadEnvelope(JObject(members), rootField, decode) == Ok(None)
  {
  }

  /** The members without any named `name`. */
  function Without(members: seq<(string, Json)>, name: string): (r: seq<(string, Json)>)
    ensures Member(r, name) == None
    ensures forall other :: other != name ==> Member(r, other) == Member(members, other)
  {
    if members == [] then []
    else if members[|members| - 1].0 == name then Without(members[..|members| - 1], name)
    else Without(members[..|members| - 1], name) + [members[|members| - 1]]
  }

  /** An `errors` member that is not an array is ignored: the response reads as if it were absent. */
  lemma NonArrayErrorsIgnored<T>(members: seq<(string, Json)>, rootField: string, decode: Json -> Outcome<Option<T>>)
    requires Member(members, "errors").Some? && !Member(members, "errors").value.JArray?
    ensures ReadEnvelope(JObject(members), rootField, decode) ==
      ReadEnvelope(JObject(Without(members, "errors")), rootField, decode)
  {
  }

  /** Without an `errors` array, the result is the binding of exactly `data.<rootField>`; it is
      none when `data` or the field is missing, and an exception when `data` is not an object. */
  lemma DataFieldSelected<T>(members: seq<(string, Json)>, rootField: string, decode: Json -> Outcome<Option<T>>)
    requires Member(members, "errors").None? || !Member(members, "errors").value.JArray?
    ensures var r := ReadEnvelope(JObject(members), rootField, decode);
      match Member(members, "data")
      case None => r == Ok(None)
      case Some(data) =>
        if !data.JObject? then r == Throws(InvalidOperation)
        else match Member(data.members, rootField)
          case None => r == Ok(None)
          case Some(field) => r == decode(field)
  {
  }

  /** A root that is not an object throws `InvalidOperation`. */
  lemma NonObjectRootThrows<T>(root: Json, rootField: string, decode: Json -> Outcome<Option<T>>)
    requires !root.JObject?
    ensures ReadEnvelope(root, rootField, decode) == Throws(InvalidOperation)
  {
  }

  // ---------------------------------------------------------------- the request

  /** The bearer token a query is sent with: the stored access token, except that a token judged
      valid is exchanged for the result of a refresh, null included. The gate is inverted: a
      valid token is refreshed, an expired or unreadable one is sent as it is. */
  function BearerStep(s: Session, env: Environment): (r: (Outcome<Option<string>>, Session))
    ensures r.0.Ok? && r.0.value.Some? ==> r.0.value == Lookup(r.1.store, AccessTokenKey)
  {
    var token := Lookup(s.store, AccessTokenKey);
    if IsTokenValid(token, env.utcNowTicks, env.parsePayload) then RefreshStep(s, env)
    else (Ok(token), s)
  }

  /** The request body: a JSON object whose only member is `query`. */
  function QueryBody(query: string): Json {
    JObject([("query", JString(query))])
  }

  /** `ExecuteGraphQLQuery`: choose the bearer token, post the query, parse the body as JSON and
      read the envelope. The status code is never consulted. */
  function ExecuteStep<T>(s: Session, url: string, query: string, rootField: string, env: Environment,
                          decode: Json -> Outcome<Option<T>>): (r: (Outcome<Option<T>>, Session))
    ensures r.1.store == BearerStep(s, env).1.store
    ensures var (bearer, s1) := BearerStep(s, env);
      bearer.Ok? ==> r.1.trace == s1.trace + [Post(JsonPost(url, bearer.value, QueryBody(query)))]
  {
    var (bearer, s1) := BearerStep(s, env);
    if bearer.Throws? then (Throws(bearer.error), s1)
    else
      var request := JsonPost(url, bearer.value, QueryBody(query));
      var s2 := Posted(s1, request);
      match env.server(request)
      case Failed(e) => (Throws(e), s2)
      case Response(_, _, body) =>
        if body.None? then (Throws(JsonError), s2) else (ReadEnvelope(body.value, rootField, decode), s2)
  }

  /** The gate as written: a stored token that is valid triggers a refresh and is not sent; one
      that is not valid is sent unchanged, with no refresh and no change to the session. */
  lemma InvertedGate(s: Session, env: Environment)
    ensures IsTokenValid(Lookup(s.store, AccessTokenKey), env.utcNowTicks, env.parsePayload) ==>
      BearerStep(s, env) == RefreshStep(s, env)
    ensures !IsTokenValid(Lookup(s.store, AccessTokenKey), env.utcNowTicks, env.parsePayload) ==>
      BearerStep(s, env) == (Ok(Lookup(s.store, AccessTokenKey)), s)
  {
  }

  /** Hence a well-formed stored token whose payload binds no `Exp`, or an `Exp` at or before now,
      is sent as it is, with no refresh and no change to the session. */
  lemma ExpiredTokenSent(s: Session, env: Environment, header: string, payload: seq<Byte>, signature: string)
    requires '.' !in header && '.' !in signature
    requires Lookup(s.store, AccessTokenKey) == Some(header + "." + ToBase64UrlUnpadded(payload) + "." + signature)
    requires env.parsePayload(payload).Some? && env.parsePayload(payload).value.JObject?
    requires var bound := BindExp(env.parsePayload(payload).value.members, None);
      bound == Ok(None) || (bound.Ok? && bound.value.Some? && bound.value.value * TicksPerSecond <= env.utcNowTicks)
    ensures BearerStep(s, env) == (Ok(Lookup(s.store, AccessTokenKey)), s)
  {
    WellFormedToken(header, payload, signature, env.utcNowTicks, env.parsePayload);
    InvertedGate(s, env);
  }

  /** When a refresh yields null, for instance because it fell back to a login, the query is sent
      with a null bearer token. */
  lemma NullRefreshSentAsNull<T>(s: Session, url: string, query: string, rootField: string, env: Environment,
                                 decode: Json -> Outcome<Option<T>>)
    requires IsTokenValid(Lookup(s.store, AccessTokenKey), env.utcNowTicks, env.parsePayload)
    requires RefreshStep(s, env).0 == Ok(None)
    ensures ExecuteStep(s, url, query, rootField, env, decode).1 ==
      Posted(RefreshStep(s, env).1, JsonPost(url, None, QueryBody(query)))
  {
  }

  /** Whatever the status, a body that parses is read: an error status with a JSON body gives the
      same result as a success with that body. */
  lemma StatusIgnored<T>(s: Session, url: string, query: string, rootField: string, env: Environment,
                         decode: Json -> Outcome<Option<T>>, root: Json)
    requires BearerStep(s, env).0.Ok?
    requires env.server(JsonPost(url, BearerStep(s, env).0.value, QueryBody(query))).Response?
    requires env.server(JsonPost(url, BearerStep(s, env).0.value, QueryBody(query))).json == Some(root)
    ensures ExecuteStep(s, url, query, rootField, env, decode).0 == ReadEnvelope(root, rootField, decode)
  {
  }

  // ---------------------------------------------------------------- the class

  class GraphQLReader {
    const authentication: Authentication
    const storage: SecureStorage
    /** The bearer parameter of the shared client's default `Authorization` header. */
    var authorization: Option<string>

    constructor(authentication: Authentication, storage: SecureStorage)
      ensures this.authentication == authentication && this.storage == storage
      ensures authorization == None
    {
      this.authentication := authentication;
      this.storage := storage;
      authorization := None;
    }

    /** The header is set to the chosen token before the request is sent; the session evolves as
        `ExecuteStep` says. The reader and the session share one store. */
    method ExecuteGraphQLQuery<T>(url: string, query: string, rootFieldName: string, env: Environment,
                                  decode: Json -> Outcome<Option<T>>) returns (r: Outcome<Option<T>>)
      requires storage == authentication.storage
      modifies this, authentication, storage
      ensures (r, authentication.State()) ==
        ExecuteStep(old(authentication.State()), url, query, rootFieldName, env, decode)
      ensures var bearer := BearerStep(old(authentication.State()), env).0;
        authorization == if bearer.Ok? then bearer.value else old(authorization)
    {
      var token := storage.GetSecure(AccessTokenKey);
      if IsTokenValid(token, env.utcNowTicks, env.parsePayload) {
        var refreshed := authentication.RefreshAccessToken(env);
        if refreshed.Throws? {
          return Throws(refreshed.error);
        }
        token := refreshed.value;
      }
      authorization := token;
      var request := JsonPost(url, token, QueryBody(query));
      authentication.trace := authentication.trace + [Post(request)];
      var response := env.server(request);
      if response.Failed? {
        return Throws(response.error);
      }
      if response.json.None? {
        return Throws(JsonError);
      }
      r := ReadEnvelope(response.json.value, rootFieldName, decode);
    }
  }
}
