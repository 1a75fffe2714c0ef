/**
 * Already-parsed JSON, as System.Text.Json's `JsonElement` exposes it. Text parsing is not
 * modelled: a parse failure is the `None` of whatever parser the caller supplies.
 */
module Json {
  import opened Wrappers

  /** A JSON value. `JInt` is a number written without fraction or exponent; `JReal` any other number. */
  datatype Json =
    | JNull
    | JBool(b: bool)
    | JInt(i: int)
    | JReal(r: real)
    | JString(s: string)
    | JArray(items: seq<Json>)
    | JObject(members: seq<(string, Json)>)

  /** The value of member `name`, compared ordinally; when the name repeats, the last one wins,
      as `JsonElement.TryGetProperty` documents. */
  function Member(members: seq<(string, Json)>, name: string): (r: Option<Json>)
    ensures r.None? <==> forall i :: 0 <= i < |members| ==> members[i].0 != name
    ensures r.Some? ==> exists i :: 0 <= i < |members| && members[i] == (name, r.value) &&
                                    forall j :: i < j < |members| ==> members[j].0 != name
  {
    if members == [] then None
    else if members[|members| - 1].0 == name then Some(members[|members| - 1].1)
    else Member(members[..|members| - 1], name)
  }

  /** `JsonElement.TryGetProperty`: throws unless the element is an object. */
  function TryGetProperty(j: Json, name: string): (r: Outcome<Option<Json>>)
    ensures r.Throws? <==> !j.JObject?
    ensures r.Throws? ==> r.error == InvalidOperation
    ensures r.Ok? ==> r.value == Member(j.members, name)
  {
    if j.JObject? then Ok(Member(j.members, name)) else Throws(InvalidOperation)
  }

  /** `JsonElement.GetProperty`: throws on a non-object and on a missing member. */
  function GetProperty(j: Json, name: string): (r: Outcome<Json>)
    ensures r.Ok? <==> j.JObject? && Member(j.members, name).Some?
    ensures r.Ok? ==> Member(j.members, name) == Some(r.value)
  {
    if !j.JObject? then Throws(InvalidOperation)
    else match Member(j.members, name)
      case None => Throws(KeyNotFound)
      case Some(v) => Ok(v)
  }

  /** `JsonElement.GetString`: the text of a string, `null` for a JSON null, throws otherwise. */
  function GetString(j: Json): (r: Outcome<Option<string>>)
    ensures r.Ok? <==> j.JString? || j.JNull?
    ensures j.JString? ==> r == Ok(Some(j.s))
    ensures j.JNull? ==> r == Ok(None)
    ensures r.Throws? ==> r.error == InvalidOperation
  {
    match j
    case JString(s) => Ok(Some(s))
    case JNull => Ok(None)
    case _ => Throws(InvalidOperation)
  }

  /** `GetProperty(name).GetString()`. */
  function GetStringProperty(j: Json, name: string): (r: Outcome<Option<string>>)
    ensures r.Ok? ==> j.JObject? && Member(j.members, name).Some?
  {
    match GetProperty(j, name)
    case Throws(e) => Throws(e)
    case Ok(v) => GetString(v)
  }

  /** On an object, a later member with the name overrides the earlier ones, and a member with
      another name leaves the answer as it was. */
  lemma TryGetPropertyLastWins(members: seq<(string, Json)>, name: string, other: string, value: Json)
    ensures TryGetProperty(JObject(members + [(name, value)]), name) == Ok(Some(value))
    ensures other != name ==>
      TryGetProperty(JObject(members + [(other, value)]), name) == TryGetProperty(JObject(members), name)
  {
    assert (members + [(other, value)])[..|members|] == members;
  }

  /** `GetProperty` agrees with `TryGetProperty`: it returns the member that one finds, throws
      `KeyNotFound` where that one finds none, and `InvalidOperation` where that one throws. */
  lemma GetPropertyAgrees(j: Json, name: string, v: Json)
    ensures GetProperty(j, name) == Ok(v) <==> TryGetProperty(j, name) == Ok(Some(v))
    ensures GetProperty(j, name) == Throws(KeyNotFound) <==> TryGetProperty(j, name) == Ok(None)
    ensures GetProperty(j, name) == Throws(InvalidOperation) <==> TryGetProperty(j, name).Throws?
  {
  }

  /** `GetProperty(name).GetString()` on an object: the text of a string member, null for a null
      member; `KeyNotFound` without the member, `InvalidOperation` for any other kind of value. */
  lemma StringPropertyValues(members: seq<(string, Json)>, name: string)
    ensures var r := GetStringProperty(JObject(members), name);
      match Member(members, name)
      case None => r == Throws(KeyNotFound)
      case Some(JString(s)) => r == Ok(Some(s))
      case Some(JNull) => r == Ok(None)
      case Some(_) => r == Throws(InvalidOperation)
  {
  }
}
