/**
 * The JWT expiry check: split a compact JWS (section 7.1 of RFC 7515) into its three parts,
 * decode the payload with base64url (section 5 of RFC 4648) after repairing its padding, bind
 * the `Exp` member and compare the expiry instant with the current UTC time. Every failure,
 * thrown or not, ends in `false`.
 */
module Tokens {
  import opened Wrappers
  import opened Text
  import opened Json
  import opened Base64

  /** `DateTime` ticks (100 ns) per second. */
  const TicksPerSecond := 10_000_000
  /** The range `DateTimeOffset.FromUnixTimeSeconds` accepts: 0001-01-01 to 9999-12-31T23:59:59. */
  const MinUnixSeconds := -62_135_596_800
  const MaxUnixSeconds := 253_402_300_799
  /** The range of `long`. */
  const MinLong := -0x8000_0000_0000_0000
  const MaxLong := 0x7FFF_FFFF_FFFF_FFFF

  /** The padding repair of `Base64UrlDecode`: back to the standard alphabet, then "==" or "=" when
      the length leaves 2 or 3 over four; a remainder of 0 or 1 is left alone. */
  function RepairPadding(input: string): (output: string)
    ensures |output| % 4 == 0 || |output| % 4 == 1
    ensures |output| % 4 == 1 <==> |input| % 4 == 1
    ensures |output| == |input| + (if |input| % 4 == 2 then 2 else if |input| % 4 == 3 then 1 else 0)
    ensures forall i :: 0 <= i < |input| ==>
      output[i] == (if input[i] == '-' then '+' else if input[i] == '_' then '/' else input[i])
    ensures forall i :: |input| <= i < |output| ==> output[i] == '='
  {
    var output := Replace(Replace(input, '-', '+'), '_', '/');
    if |output| % 4 == 2 then output + "=="
    else if |output| % 4 == 3 then output + "="
    else output
  }

  /** `Base64UrlDecode` up to the bytes: `None` where `Convert.FromBase64String` throws. */
  function Base64UrlDecode(input: string): (r: Option<seq<Byte>>)
    ensures |input| % 4 == 1 ==> r == None
  {
    FromBase64String(RepairPadding(input))
  }

  /** A length that leaves 1 over four cannot be repaired and always fails to decode. */
  lemma RemainderOneFails(input: string)
    requires |input| % 4 == 1
    ensures Base64UrlDecode(input) == None
  {
  }

  /** Round trip: the unpadded URL-safe text of any bytes repairs to their standard base 64 text,
      and so decodes to the same bytes. */
  lemma RepairRestoresStandard(b: seq<Byte>)
    ensures RepairPadding(ToBase64UrlUnpadded(b)) == ToBase64String(b)
    ensures Base64UrlDecode(ToBase64UrlUnpadded(b)) == Some(b)
  {
    TrimPadding(b);
    SwapBack(Body(b));
    BodyLength(b);
    DecodeEncode(b);
  }

  /** The payload type the claim binds to: a nullable `long` property named `Exp`. */
  datatype JwtPayload = JwtPayload(exp: Option<int>)

  /** A JSON value read as `long?`: null, or an integer number within `long`; anything else throws. */
  function ReadNullableLong(j: Json): (r: Outcome<Option<int>>)
    ensures r.Ok? && r.value.Some? ==> MinLong <= r.value.value <= MaxLong
    ensures j.JNull? ==> r == Ok(None)
    ensures j.JInt? && MinLong <= j.i <= MaxLong ==> r == Ok(Some(j.i))
    ensures r.Ok? <==> j.JNull? || (j.JInt? && MinLong <= j.i <= MaxLong)
    ensures r.Throws? ==> r.error == JsonError
  {
    match j
    case JNull => Ok(None)
    case JInt(i) => if MinLong <= i <= MaxLong then Ok(Some(i)) else Throws(JsonError)
    case _ => Throws(JsonError)
  }

  /** Binds the members of the payload object in order. Only the exact name `Exp` binds (default,
      case-sensitive options); every `Exp` must read as `long?` and the last one wins. */
  function BindExp(members: seq<(string, Json)>, bound: Option<int>): (r: Outcome<Option<int>>)
    ensures r.Throws? ==> r.error == JsonError
    ensures r.Ok? ==> r.value == bound || exists i :: 0 <= i < |members| && members[i].0 == "Exp" &&
                                                    ReadNullableLong(members[i].1) == Ok(r.value)
  {
    if members == [] then Ok(bound)
    else if members[0].0 == "Exp" then
      match ReadNullableLong(members[0].1)
      case Throws(e) => Throws(e)
      case Ok(v) => BindExp(members[1..], v)
    else BindExp(members[1..], bound)
  }

  /** `JsonSerializer.Deserialize<JwtPayload>` on already-parsed JSON: a JSON null gives a null
      payload; an object binds; any other value throws. */
  function DeserializePayload(j: Json): (r: Outcome<Option<JwtPayload>>)
    ensures r.Throws? ==> r.error == JsonError
    ensures r == Ok(None) <==> j.JNull?
    ensures r.Ok? && r.value.Some? && r.value.value.exp.Some? ==> MinLong <= r.value.value.exp.value <= MaxLong
  {
    match j
    case JNull => Ok(None)
    case JObject(members) =>
      (match BindExp(members, None)
       case Throws(e) => Throws(e)
       case Ok(exp) => Ok(Some(JwtPayload(exp))))
    case _ => Throws(JsonError)
  }

  /** The body of the `try` block: `Ok(false)` for the early returns, `Throws` where .NET throws. */
  function CheckExpiry(token: string, nowTicks: int, parse: seq<Byte> -> Option<Json>): (r: Outcome<bool>)
    ensures r.Throws? ==> r.error in {FormatError, JsonError, ArgumentOutOfRange}
    ensures r == Ok(true) ==> |Split(token, '.')| == 3
  {
    var parts := Split(token, '.');
    if |parts| != 3 then Ok(false)
    else match Base64UrlDecode(parts[1])
      case None => Throws(FormatError)
      case Some(bytes) =>
        match parse(bytes)
        case None => Throws(JsonError)
        case Some(json) =>
          match DeserializePayload(json)
          case Throws(e) => Throws(e)
          case Ok(payload) =>
            if payload.None? || payload.value.exp.None? then Ok(false)
            else
              var exp := payload.value.exp.value;
              if exp < MinUnixSeconds || exp > MaxUnixSeconds then Throws(ArgumentOutOfRange)
              else Ok(exp * TicksPerSecond > nowTicks)
  }

  /**
   * `TokenHelper.IsTokenValid`. `nowTicks` is `DateTime.UtcNow` in ticks since the Unix epoch;
   * `parse` stands for UTF-8 decoding followed by JSON parsing (`None` when the text is not JSON).
   */
  function IsTokenValid(token: Option<string>, nowTicks: int, parse: seq<Byte> -> Option<Json>): (valid: bool)
    ensures valid ==> !IsNullOrEmpty(token) && Occurrences(token.value, '.') == 2
  {
    if IsNullOrEmpty(token) then false
    else
      SplitCount(token.value, '.');
      match CheckExpiry(token.value, nowTicks, parse)
      case Ok(valid) => valid
      case Throws(_) => false
  }

  /** A null or empty token is invalid. */
  lemma NullOrEmptyInvalid(token: Option<string>, nowTicks: int, parse: seq<Byte> -> Option<Json>)
    requires IsNullOrEmpty(token)
    ensures !IsTokenValid(token, nowTicks, parse)
  {
  }

  /** A token with other than exactly two dots is invalid, extra dots included. */
  lemma DotCountInvalid(token: string, nowTicks: int, parse: seq<Byte> -> Option<Json>)
    requires Occurrences(token, '.') != 2
    ensures !IsTokenValid(Some(token), nowTicks, parse)
  {
    SplitCount(token, '.');
  }

  /** A payload object with no member spelled exactly `Exp` binds a null expiry. */
  lemma {:induction false} NoExpBindsNull(members: seq<(string, Json)>, bound: Option<int>)
    requires forall i :: 0 <= i < |members| ==> members[i].0 != "Exp"
    ensures BindExp(members, bound) == Ok(bound)
  {
    if members != [] {
      NoExpBindsNull(members[1..], bound);
    }
  }

  /** The last `Exp` wins: when every `Exp` member reads as `long?` and the last of them is an
      integer in range, that integer is bound, whatever came before. */
  lemma {:induction false} LastExpWins(members: seq<(string, Json)>, bound: Option<int>, i: int, e: int)
    requires 0 <= i < |members| && members[i] == ("Exp", JInt(e)) && MinLong <= e <= MaxLong
    requires forall j :: 0 <= j < |members| && members[j].0 == "Exp" ==> ReadNullableLong(members[j].1).Ok?
    requires forall j :: i < j < |members| ==> members[j].0 != "Exp"
    ensures BindExp(members, bound) == Ok(Some(e))
  {
    if i == 0 {
      NoExpBindsNull(members[1..], Some(e));
    } else {
      var next := if members[0].0 == "Exp" then ReadNullableLong(members[0].1).value else bound;
      assert BindExp(members, bound) == BindExp(members[1..], next);
      LastExpWins(members[1..], next, i - 1, e);
    }
  }

  /** The parts of a well-formed token come back out of `Split`, the payload part decoding to its bytes. */
  lemma WellFormedParts(header: string, payload: seq<Byte>, signature: string)
    requires '.' !in header && '.' !in signature
    ensures var middle := ToBase64UrlUnpadded(payload);
      && Split(header + "." + middle + "." + signature, '.') == [header, middle, signature]
      && Base64UrlDecode(middle) == Some(payload)
  {
    var middle := ToBase64UrlUnpadded(payload);
    UrlShape(payload);
    assert '.' !in middle by {
      forall i | 0 <= i < |middle| ensures middle[i] != '.' {
        assert InUrlAlphabet(middle[i]);
      }
    }
    SplitThree(header, middle, signature, '.');
    assert header + "." + middle + "." + signature == header + ['.'] + middle + ['.'] + signature;
    RepairRestoresStandard(payload);
  }

  /**
   * End to end on a well-formed token: header and signature without dots around the unpadded
   * base64url of the payload bytes. Validity is then decided by the payload's `Exp` alone.
   */
  lemma WellFormedToken(header: string, payload: seq<Byte>, signature: string, nowTicks: int,
                        parse: seq<Byte> -> Option<Json>)
    requires '.' !in header && '.' !in signature
    ensures var token := header + "." + ToBase64UrlUnpadded(payload) + "." + signature;
      IsTokenValid(Some(token), nowTicks, parse) <==>
        match parse(payload)
        case Some(JObject(members)) =>
          (match BindExp(members, None)
           case Ok(Some(exp)) => MinUnixSeconds <= exp <= MaxUnixSeconds && exp * TicksPerSecond > nowTicks
           case _ => false)
        case _ => false
  {
    WellFormedParts(header, payload, signature);
    ValidFromPayload(header + "." + ToBase64UrlUnpadded(payload) + "." + signature, payload, nowTicks, parse);
  }

  /** A non-empty token of three parts whose middle decodes to `payload` is judged on that payload. */
  lemma ValidFromPayload(token: string, payload: seq<Byte>, nowTicks: int, parse: seq<Byte> -> Option<Json>)
    requires token != "" && |Split(token, '.')| == 3 && Base64UrlDecode(Split(token, '.')[1]) == Some(payload)
    ensures IsTokenValid(Some(token), nowTicks, parse) <==>
        match parse(payload)
        case Some(JObject(members)) =>
          (match BindExp(members, None)
           case Ok(Some(exp)) => MinUnixSeconds <= exp <= MaxUnixSeconds && exp * TicksPerSecond > nowTicks
           case _ => false)
        case _ => false
  {
  }

  /** A token expiring exactly now is already invalid. */
  lemma ExpiringNowInvalid(header: string, payload: seq<Byte>, signature: string, exp: int,
                           parse: seq<Byte> -> Option<Json>)
    requires '.' !in header && '.' !in signature
    requires parse(payload) == Some(JObject([("Exp", JInt(exp))]))
    ensures !IsTokenValid(Some(header + "." + ToBase64UrlUnpadded(payload) + "." + signature),
                          exp * TicksPerSecond, parse)
  {
    WellFormedToken(header, payload, signature, exp * TicksPerSecond, parse);
  }

  /** The claim binds case-sensitively: a payload whose only expiry member is spelled `exp`
      leaves the token invalid whatever its value. */
  lemma LowercaseExpInvalid(header: string, payload: seq<Byte>, signature: string, exp: int,
                            nowTicks: int, parse: seq<Byte> -> Option<Json>)
    requires '.' !in header && '.' !in signature
    requires parse(payload) == Some(JObject([("exp", JInt(exp))]))
    ensures !IsTokenValid(Some(header + "." + ToBase64UrlUnpadded(payload) + "." + signature), nowTicks, parse)
  {
    WellFormedToken(header, payload, signature, nowTicks, parse);
    NoExpBindsNull([("exp", JInt(exp))], None);
  }
}
