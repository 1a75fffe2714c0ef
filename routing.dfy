/** The position record the dashboard and the list show. */
module Models {
  /** `PositionVm`, reduced to the members the core reads: `Speed` and `DeviceDateTime` (in ticks),
      with the identifying `TransporterId` and `DeviceName`. */
  datatype PositionVm = PositionVm(transporterId: string, deviceName: string, speed: real, deviceDateTime: int)
}

/**
 * `Router`: the positions query, sent through the GraphQL reader, with a missing result read as
 * an empty sequence.
 */
module Routing {
  import opened Wrappers
  import opened Json
  import opened Externals
  import opened Auth
  import opened GraphQL
  import opened Models

  /** The root field the reader is asked for. */
  const RootField := "devicePositionsByUser"

  /** The positions query, as written: an anonymous query whose selection set opens with the
      root field, followed by that field's own selection of position members. */
  const QueryHead := "\n        query {\n          "
  const QueryTail :=
    " {\n"
    + "            attributes {\n"
    + "              temperature\n"
    + "              satellites\n"
    + "              mileage\n"
    + "              ignition\n"
    + "              hobbsMeter\n"
    + "            }\n"
    + "            altitude\n"
    + "            address\n"
    + "            deviceName\n"
    + "            transporterType\n"
    + "            state\n"
    + "            speed\n"
    + "            longitude\n"
    + "            latitude\n"
    + "            eventId\n"
    + "            transporterId\n"
    + "            deviceDateTime\n"
    + "            course\n"
    + "            country\n"
    + "            city\n"
    + "          }\n"
    + "        }"
  const DevicePositionsQuery := QueryHead + RootField + QueryTail

  /** The root field passed to the reader is the first field of the query's selection set, right
      after `query {`, and it opens a selection set of its own. */
  lemma RootFieldOpensQuery()
    ensures var k := |QueryHead|;
      && QueryHead == "\n        query {\n          "
      && DevicePositionsQuery[k..k + |RootField|] == RootField
      && DevicePositionsQuery[k + |RootField|..k + |RootField| + 2] == " {"
  {
    var k := |QueryHead|;
    assert DevicePositionsQuery[k + |RootField|..] == QueryTail;
    assert QueryTail[..2] == " {";
  }

  /** `response ?? []`: a missing result reads as the empty sequence, a present one unchanged. */
  function OrEmpty<T>(response: Option<seq<T>>): seq<T> {
    if response.None? then [] else response.value
  }

  /** `GetDevicePositionsByUserAsync` on the session: the reader's outcome with null mapped to
      the empty sequence; exceptions pass through. */
  function DevicePositionsStep(s: Session, url: string, env: Environment,
                               decode: Json -> Outcome<Option<seq<PositionVm>>>): (r: (Outcome<seq<PositionVm>>, Session))
    ensures r.1 == ExecuteStep(s, url, DevicePositionsQuery, RootField, env, decode).1
  {
    var (response, s1) := ExecuteStep(s, url, DevicePositionsQuery, RootField, env, decode);
    (if response.Throws? then Throws(response.error) else Ok(OrEmpty(response.value)), s1)
  }

  /** The router's result is never null: a null from the reader becomes the empty sequence, a
      sequence from it is returned unchanged, and its exceptions pass through unchanged. */
  lemma RouterNeverNull(s: Session, url: string, env: Environment, decode: Json -> Outcome<Option<seq<PositionVm>>>)
    ensures var (response, _) := ExecuteStep(s, url, DevicePositionsQuery, RootField, env, decode);
      var (r, _) := DevicePositionsStep(s, url, env, decode);
      && (r.Ok? <==> response.Ok?)
      && (response.Throws? ==> r == Throws(response.error))
      && (response == Ok(None) ==> r == Ok([]))
      && (response.Ok? && response.value.Some? ==> r == Ok(response.value.value))
  {
  }

  /** An `errors` array in the response shows as an empty list, not as an exception, once its
      messages read. */
  lemma ErrorsShowEmpty(s: Session, url: string, env: Environment, decode: Json -> Outcome<Option<seq<PositionVm>>>,
                        members: seq<(string, Json)>, items: seq<Json>)
    requires BearerStep(s, env).0.Ok?
    requires var request := JsonPost(url, BearerStep(s, env).0.value, QueryBody(DevicePositionsQuery));
      env.server(request).Response? && env.server(request).json == Some(JObject(members))
    requires Member(members, "errors") == Some(JArray(items)) && ErrorMessages(items).Ok?
    ensures DevicePositionsStep(s, url, env, decode).0 == Ok([])
  {
    ErrorsWin(members, items, RootField, decode);
  }

  class Router {
    const reader: GraphQLReader

    constructor(reader: GraphQLReader)
      ensures this.reader == reader
    {
      this.reader := reader;
    }

    method GetDevicePositionsByUser(url: string, env: Environment,
                                    decode: Json -> Outcome<Option<seq<PositionVm>>>) returns (r: Outcome<seq<PositionVm>>)
      requires reader.storage == reader.authentication.storage
      modifies reader, reader.authentication, reader.storage
      ensures (r, reader.authentication.State()) ==
        DevicePositionsStep(old(reader.authentication.State()), url, env, decode)
    {
      var response := reader.ExecuteGraphQLQuery(url, DevicePositionsQuery, RootField, env, decode);
      if response.Throws? {
        return Throws(response.error);
      }
      return Ok(OrEmpty(response.value));
    }
  }
}
