/**
 * The client side of the review-tracking API: how one long-polling GET is
 * shaped (get_long_polling_review in main.py) and the shape of the JSON body
 * it returns. The GET itself, raise_for_status and JSON decoding are not
 * modelled: what they yield reaches the polling loop as an outcome.
 */
module ReviewApi {
  import opened Wrappers

  /**
   * A scalar JSON value as the API returns it for a timestamp key; Null
   * stands for Python's None. The loop passes it on without looking inside.
   */
  datatype Value = Null | Flag(b: bool) | Number(x: real) | Text(s: string)

  const Endpoint: string := "https://dvmn.org/api/long_polling/"
  const TimeoutSeconds: nat := 5
  const TokenScheme: string := "Token "

  /** The arguments of one requests.get call. */
  datatype Request = Request(
    url: string,
    params: map<string, Value>,
    headers: map<string, string>,
    timeout: nat)

  /** The token an Authorization value of the form "Token <token>" carries. */
  function AuthToken(h: string): (r: Option<string>)
    ensures r.Some? ==> h == TokenScheme + r.value
  {
    if |h| >= |TokenScheme| && h[..|TokenScheme|] == TokenScheme
    then Some(h[|TokenScheme|..])
    else None
  }

  /** The Authorization header value for an API token. */
  function AuthHeader(token: string): (h: string)
    ensures AuthToken(h) == Some(token)
    ensures |h| == |TokenScheme| + |token| && h[..|TokenScheme|] == TokenScheme
  {
    TokenScheme + token
  }

  /** The single GET the client issues for a cursor and an API token. */
  function LongPollingRequest(cursor: Value, token: string): (r: Request)
    ensures r.url == Endpoint && r.timeout == TimeoutSeconds
    ensures r.params.Keys == {"timestamp"} && r.params["timestamp"] == cursor
    ensures r.headers.Keys == {"Authorization"}
    ensures AuthToken(r.headers["Authorization"]) == Some(token)
  {
    Request(Endpoint,
            map["timestamp" := cursor],
            map["Authorization" := AuthHeader(token)],
            TimeoutSeconds)
  }

  /** One element of `new_attempts`; None marks a key the record lacks. */
  datatype AttemptRecord = AttemptRecord(
    isNegative: Option<bool>,
    lessonTitle: Option<string>,
    lessonUrl: Option<string>)

  /** A decoded response body; None marks a key the body lacks. */
  datatype Body = Body(
    status: Option<string>,
    lastAttemptTimestamp: Option<Value>,
    timestampToRequest: Option<Value>,
    newAttempts: Option<seq<AttemptRecord>>)

  /**
   * The cursor a body moves the loop to: `last_attempt_timestamp` when the
   * status is "found", `timestamp_to_request` otherwise. None when the key
   * that branch reads is missing, which raises KeyError in the source.
   */
  function NewCursor(b: Body): (c: Option<Value>)
    ensures c.Some? <==> b.status.Some? &&
                         (if b.status.value == "found" then b.lastAttemptTimestamp.Some?
                          else b.timestampToRequest.Some?)
    ensures b.status == Some("found") ==> c == b.lastAttemptTimestamp
    ensures b.status.Some? && b.status != Some("found") ==> c == b.timestampToRequest
  {
    match b.status
    case None => None
    case Some(status) =>
      if status == "found" then b.lastAttemptTimestamp else b.timestampToRequest
  }
}
