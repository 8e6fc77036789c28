/** Request bodies and responses of the API, as the handlers build them. */
module Http {
  import opened Wrappers
  import opened Models

  /** A parsed JSON request body. Numbers are integers here. */
  datatype Json =
    | JNull
    | JBool(b: bool)
    | JNumber(n: int)
    | JString(s: string)
    | JArray(items: seq<Json>)
    | JObject(fields: map<string, Json>)

  /** Python truthiness of the value `request.get_json()` returns. */
  predicate Truthy(j: Json)
  {
    match j
    case JNull => false
    case JBool(b) => b
    case JNumber(n) => n != 0
    case JString(s) => s != ""
    case JArray(items) => items != []
    case JObject(fields) => fields != map[]
  }

  /** The JSON payload of a response. `Message` is `{"message": ...}`,
      `Error` is `{"error": ...}`; `Uncaught` stands for the server error page
      of an exception that no handler catches. */
  datatype Body =
    | Message(message: string)
    | Error(error: string)
    | TokenIssued(token: string)
    | Record(observation: Observation)
    | Listing(data: seq<Observation>, total: int)
    | ValidationMessages(messages: string)
    | Empty
    | Uncaught(exception: Exception)

  datatype Response = Response(status: int, body: Body)

  function ServerError(e: Exception): Response
  {
    Response(500, Uncaught(e))
  }
}
