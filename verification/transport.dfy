/** The generic POST of KYUtils.kt (`call`): how the request is composed and
    how the response is classified into a result, an exception, or no
    resumption at all. The HTTP exchange itself is not modelled: the response
    is an input, given as its status code, its body text and the outcome of
    decoding that body as a JSON object. */
module Transport {
  import opened Json
  import opened Optional
  import opened Text

  const LibraryVersion: string := "1.0.1"

  /** The fixed request headers sent on every `call`. */
  const Headers: map<string, string> :=
    map["User-Agent" := "kotlin-yggdrasil/" + LibraryVersion, "Content-Type" := "application/json"]

  /** A POST as `call` issues it: target URL, headers and the JSON payload. */
  datatype Post = Post(url: string, headers: map<string, string>, payload: map<string, Json>)

  /** Every exception an operation of the binding can end with. */
  datatype Failure =
    | ApiError(reason: Json)     // the server answered with an `error` field
    | Blocked                    // 403 page of the edge proxy: "Request blocked."
    | IpBanned                   // 403 page of the edge proxy: error code 1009
    | NotJson(status: int)       // any other undecodable body
    | ClientTokenMismatch        // refresh answered for another clientToken
    | CastFailed                 // a value did not have the type the code casts it to
    | VerifyFailed               // hasJoined answered without an id
    | Undecodable                // hasJoined body is not a JSON object

  /** How a suspended operation ends: resumed with a value, resumed with an
      exception, or never resumed. */
  datatype Outcome<+T> = Done(value: T) | Raised(failure: Failure) | NeverResumed

  /** What `call` resumes with on success: the empty string or the decoded object. */
  datatype Reply = EmptyReply | ObjectReply(fields: map<string, Json>)

  /** Decoding the body as `Map<String, Any>`. */
  datatype Decoded = Parsed(fields: map<string, Json>) | ParseFailed

  datatype Response = Response(status: int, body: string, decoded: Decoded)

  const BlockedMarker: string := "Request blocked."
  const BannedMarker: string := "cf-error-code\">1009"

  /** The request `call(host, path, data, _)` sends. */
  function BuildPost(host: string, path: string, data: map<string, Json>): (p: Post)
    ensures p.url == host + "/" + path
    ensures p.headers == Headers
    ensures p.headers.Keys == {"User-Agent", "Content-Type"}
    ensures p.headers["User-Agent"] == "kotlin-yggdrasil/1.0.1"
    ensures p.headers["Content-Type"] == "application/json"
    ensures p.payload == data
  {
    Post(host + "/" + path, Headers, data)
  }

  /** `body["errorMessage"]?.toString() ?: body["error"]?.toString()`: the
      server's `errorMessage` unless it is absent or null, then `error`; null
      only when both are. */
  function ErrorReason(fields: map<string, Json>): (r: Json)
    ensures "errorMessage" in fields && fields["errorMessage"] != JNull ==> r == fields["errorMessage"]
    ensures Get(fields, "errorMessage") == JNull ==> r == Get(fields, "error")
    ensures r == JNull <==> Get(fields, "errorMessage") == JNull && Get(fields, "error") == JNull
  {
    if Get(fields, "errorMessage") != JNull then Get(fields, "errorMessage") else Get(fields, "error")
  }

  /** The result `call` resumes its continuation with, for a given response. */
  function Classify(resp: Response): (r: Outcome<Reply>)
    ensures r == Done(EmptyReply) <==> |resp.body| == 0
    ensures (r.Done? && r.value.ObjectReply?) <==>
      |resp.body| > 0 && resp.decoded.Parsed? && "error" !in resp.decoded.fields
    ensures r.Done? && r.value.ObjectReply? ==> r.value.fields == resp.decoded.fields
    ensures r.Raised? && r.failure.ApiError? ==>
      resp.decoded.Parsed? && r.failure.reason == ErrorReason(resp.decoded.fields)
    ensures (r.Raised? && r.failure.ApiError?) <==>
      |resp.body| > 0 && resp.decoded.Parsed? && "error" in resp.decoded.fields
    ensures r == Raised(Blocked) <==>
      |resp.body| > 0 && resp.decoded.ParseFailed? && resp.status == 403
      && Occurs(resp.body, BlockedMarker)
    ensures r == Raised(IpBanned) <==>
      |resp.body| > 0 && resp.decoded.ParseFailed? && resp.status == 403
      && !Occurs(resp.body, BlockedMarker) && Occurs(resp.body, BannedMarker)
    ensures (r.Raised? && r.failure.NotJson?) <==>
      |resp.body| > 0 && resp.decoded.ParseFailed? && resp.status != 403
    ensures r.Raised? && r.failure.NotJson? ==> r.failure.status == resp.status
    ensures r.NeverResumed? <==>
      |resp.body| > 0 && resp.decoded.ParseFailed? && resp.status == 403
      && !Occurs(resp.body, BlockedMarker) && !Occurs(resp.body, BannedMarker)
    ensures r.Raised? ==> r.failure.ApiError? || r.failure.Blocked? || r.failure.IpBanned? || r.failure.NotJson?
  {
    if |resp.body| == 0 then
      Done(EmptyReply)
    else
      match resp.decoded
      case Parsed(fields) =>
        if "error" in fields then Raised(ApiError(ErrorReason(fields))) else Done(ObjectReply(fields))
      case ParseFailed =>
        if resp.status == 403 then
          if Contains(resp.body, BlockedMarker) then Raised(Blocked)
          else if Contains(resp.body, BannedMarker) then Raised(IpBanned)
          else NeverResumed
        else
          Raised(NotJson(resp.status))
  }

  /** An API error carries `errorMessage` when the server sent a non-null one,
      and otherwise the `error` value itself. */
  lemma ApiErrorReason(resp: Response)
    requires |resp.body| > 0 && resp.decoded.Parsed? && "error" in resp.decoded.fields
    ensures var fields := resp.decoded.fields;
      Classify(resp) == Raised(ApiError(
        if "errorMessage" in fields && fields["errorMessage"] != JNull then fields["errorMessage"]
        else fields["error"]))
  {
  }

  /** A 403 page holding both markers is reported as blocked: that test comes first. */
  lemma BlockedWinsOverBanned(body: string)
    requires Occurs(body, BlockedMarker) && Occurs(body, BannedMarker)
    ensures Classify(Response(403, body, ParseFailed)) == Raised(Blocked)
  {
    var _ := Contains(body, BlockedMarker);
  }

  /** The text of an exception, where the binding chooses it. API errors carry
      the server's own text (a JSON string, or null); the JVM's cast and
      decoder messages are not modelled. */
  function Message(f: Failure): (m: Option<string>)
    ensures f.ApiError? ==> (m.Some? <==> f.reason.JString?) && (m.Some? ==> m.value == f.reason.s)
    ensures f.Blocked? ==> m == Some("Request blocked by CloudFlare")
    ensures f.IpBanned? ==> m == Some("Your IP is banned by CloudFlare")
    ensures f.NotJson? ==> (m.Some? && |m.value| > 35
      && m.value[..35] == "Response is not JSON. Status code: "
      && m.value[35..] == Decimal(f.status))
    ensures f.ClientTokenMismatch? ==> m == Some("clientToken assertion failed")
    ensures f.VerifyFailed? ==> m == Some("Failed to verify username!")
    ensures f.CastFailed? || f.Undecodable? ==> m.None?
  {
    match f
    case ApiError(reason) => if reason.JString? then Some(reason.s) else None
    case Blocked => Some("Request blocked by CloudFlare")
    case IpBanned => Some("Your IP is banned by CloudFlare")
    case NotJson(status) => Some("Response is not JSON. Status code: " + Decimal(status))
    case ClientTokenMismatch => Some("clientToken assertion failed")
    case VerifyFailed => Some("Failed to verify username!")
    case CastFailed => None
    case Undecodable => None
  }

  /** The binding's own failures can be told apart by their messages alone. */
  lemma MessagesDistinguish(f: Failure, g: Failure)
    requires !f.ApiError? && !g.ApiError?
    ensures Message(f).Some? && Message(f) == Message(g) ==> f == g
  {
  }
}
