/**
 * The response envelope of config.php (`sendResponse`) and what an endpoint answers.
 * `sendResponse` ends the script (`exit()`), so every endpoint here returns the
 * envelope it would print, and nothing after that point runs.
 */
module Responses {
  import opened Wrappers
  import opened Store

  /** What the endpoints put under `data`. The coach payload is a constant whose contents are not modelled. */
  datatype Payload =
    | Account(id: int, name: string, email: string, token: string)
    | ProfileData(user: PublicUser, children: seq<ChildView>)
    | CoachPayload

  /** A value in the response array. */
  datatype Value = BoolValue(b: bool) | TextValue(text: string) | DataValue(payload: Payload)

  /**
   * `sendResponse($status, $message, $data = null)`: the array always carries `status`
   * and `message`, and carries `data` exactly when `data` is not null.
   */
  function SendResponse(status: bool, message: string, data: Option<Payload>): (r: map<string, Value>)
    ensures "status" in r && r["status"] == BoolValue(status)
    ensures "message" in r && r["message"] == TextValue(message)
    ensures "data" in r <==> data.Some?
    ensures data.Some? ==> r["data"] == DataValue(data.value)
    ensures r.Keys <= {"status", "message", "data"}
  {
    var response := map["status" := BoolValue(status), "message" := TextValue(message)];
    if data.Some? then response["data" := DataValue(data.value)] else response
  }

  /**
   * What a request gets back: the empty answer config.php gives an OPTIONS preflight
   * before any endpoint code runs, or a JSON envelope.
   */
  datatype Reply = Preflight | Json(body: map<string, Value>)

  /** `sendResponse(false, message)`. */
  function Failure(message: string): Reply
  {
    Json(SendResponse(false, message, None))
  }

  /** `sendResponse(true, message, data)`. */
  function Success(message: string, data: Payload): Reply
  {
    Json(SendResponse(true, message, Some(data)))
  }

  /** The reply is an envelope with `status` true. */
  predicate IsSuccess(r: Reply)
  {
    r.Json? && "status" in r.body && r.body["status"] == BoolValue(true)
  }

  /** Failures and successes are told apart by `status`, and failures carry no `data`. */
  lemma FailureIsNotSuccess(message: string, data: Payload)
    ensures !IsSuccess(Failure(message)) && IsSuccess(Success(message, data))
    ensures "data" !in Failure(message).body
  {
  }
}
