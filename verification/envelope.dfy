/**
  Wire-level values of the JSON-RPC client: correlation ids, JSON payloads,
  request and response envelopes, the client's error classes, and the outcome
  of one HTTP exchange as the transport reports it.
 */
module Envelope {

  /** A correlation id. The client mints UUID v4 values; the model treats an
      id as an opaque token that can only be compared. */
  type Id = nat

  /** A `serde_json::Value`. Numbers are integers: floating point is not modelled. */
  datatype Json =
    | Null
    | Bool(b: bool)
    | Number(n: int)
    | Str(s: string)
    | Array(items: seq<Json>)
    | Object(members: seq<(string, Json)>)

  datatype Option<+T> = None | Some(value: T)

  /** A request envelope `{method, params, id}` whose positional parameters
      have already been turned into JSON values. */
  datatype Request = Request(name: string, params: seq<Json>, id: Id)

  /** A response envelope as the decoder sees it: the result may be absent,
      the error is an arbitrary JSON value (often `null`), the id may be absent. */
  datatype Response<+T> = Response(result: Option<T>, error: Json, id: Option<Id>)

  /** The error classes a call or a batch operation can surface. */
  datatype Error =
    | Transport                                          // sending the HTTP request failed
    | BodyRead                                           // reading the response body failed
    | Decode                                             // a body or a value did not parse
    | Rpc(payload: Json)                                 // the server's `error` field
    | NoVariant(call: string)                            // no candidate shape parsed
    | WrongVariant(call: string, expected: string, got: string)

  datatype Result<+T> = Ok(value: T) | Err(error: Error)

  /** What one HTTP POST yields: the send failed, the body could not be read,
      or the body text arrived. */
  datatype Wire = SendFailed | ReadFailed | Delivered(body: string)

  /** The body text of an exchange, or the transport-class error it raised. */
  function Received(wire: Wire): (r: Result<string>)
    ensures r.Ok? <==> wire.Delivered?
    ensures r.Ok? ==> r.value == wire.body
    ensures wire == SendFailed ==> r == Err(Transport)
    ensures wire == ReadFailed ==> r == Err(BodyRead)
  {
    match wire
    case SendFailed => Err(Transport)
    case ReadFailed => Err(BodyRead)
    case Delivered(text) => Ok(text)
  }
}
