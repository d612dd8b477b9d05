/** KYClient.kt: the authentication lifecycle of a game client (authenticate,
    refresh, validate, signout, invalidate). Each operation composes one POST
    for `call`; refresh also checks what `call` resumed with. The fresh UUID
    that `auth` draws is an input. */
module Client {
  import opened Json
  import opened Optional
  import opened Transport

  const DefaultHost: string := "https://authserver.mojang.com"
  const DefaultAgent: string := "Minecraft"

  /** `ClientModuleOptions`; the agent object is passed to `call`, which ignores it. */
  datatype ClientOptions = ClientOptions(host: Option<string>, agent: Json)

  /** `moduleOptions.host ?: defaultHost`. */
  function Host(options: ClientOptions): (h: string)
    ensures options.host.Some? ==> h == options.host.value
    ensures options.host.None? ==> h == "https://authserver.mojang.com"
  {
    match options.host
    case Some(h) => h
    case None => DefaultHost
  }

  /** `mutableOptions["token"] as String? ?: UUID.randomUUID().toString()`:
      the supplied token, else the fresh UUID; None when the cast fails. */
  function AuthClientToken(options: map<string, Json>, uuid: string): (t: Option<string>)
    ensures t.None? <==> Get(options, "token") != JNull && !Get(options, "token").JString?
    ensures Get(options, "token") == JNull ==> t == Some(uuid)
    ensures Get(options, "token").JString? ==> t == Some(Get(options, "token").s)
  {
    match Get(options, "token")
    case JNull => Some(uuid)
    case JString(token) => Some(token)
    case _ => None
  }

  /** The `agent` object of `auth`: the name defaults to "Minecraft", whose
      version is always 1; any other name carries the caller's `version`.
      None when the supplied agent is not a string. */
  function AuthAgent(options: map<string, Json>): (a: Option<Json>)
    ensures a.None? <==> Get(options, "agent") != JNull && !Get(options, "agent").JString?
    ensures a.Some? ==> a.value.JObject? && a.value.fields.Keys == {"name", "version"}
    ensures a.Some? ==> (a.value.fields["name"] ==
      if Get(options, "agent") == JNull then JString("Minecraft") else Get(options, "agent"))
    ensures a.Some? ==> (a.value.fields["version"] ==
      if a.value.fields["name"] == JString("Minecraft") then JNumber(1) else Get(options, "version"))
  {
    var agent := Get(options, "agent");
    if agent != JNull && !agent.JString? then None
    else
      var name := if agent == JNull then DefaultAgent else agent.s;
      var version := if name == DefaultAgent then JNumber(1) else Get(options, "version");
      Some(JObject(map["name" := JString(name), "version" := version]))
  }

  /** `auth(options)`: the request it posts, or the cast failure raised before
      posting when `token` or `agent` is set to something other than a string. */
  function Auth(client: ClientOptions, options: map<string, Json>, uuid: string): (r: Outcome<Post>)
    ensures !r.NeverResumed?
    ensures r.Raised? <==> AuthClientToken(options, uuid).None? || AuthAgent(options).None?
    ensures r.Raised? ==> r.failure == CastFailed
    ensures r.Done? ==>
      var p := r.value.payload;
      && r.value.url == Host(client) + "/authenticate"
      && r.value.headers == Headers
      && p.Keys == {"agent", "username", "password", "clientToken", "requestUser"}
      && p["username"] == Get(options, "user")
      && p["password"] == Get(options, "pass")
      && p["clientToken"] == JString(AuthClientToken(options, uuid).value)
      && p["agent"] == AuthAgent(options).value
      && p["requestUser"] == JBool(Get(options, "requestUser") == JBool(true))
  {
    match (AuthClientToken(options, uuid), AuthAgent(options))
    case (Some(clientToken), Some(agent)) =>
      var payload := map[
        "agent" := agent,
        "username" := Get(options, "user"),
        "password" := Get(options, "pass"),
        "clientToken" := JString(clientToken),
        "requestUser" := JBool(IsTrue(Get(options, "requestUser")))
      ];
      Done(BuildPost(Host(client), "authenticate", payload))
    case _ => Raised(CastFailed)
  }

  /** A supplied token is sent as is: the fresh UUID then plays no part. */
  lemma AuthKeepsSuppliedToken(client: ClientOptions, options: map<string, Json>, u1: string, u2: string)
    requires Get(options, "token").JString?
    ensures Auth(client, options, u1) == Auth(client, options, u2)
  {
  }

  /** For the default agent the caller's `version` is ignored: it is always 1. */
  lemma AuthDefaultAgentIgnoresVersion(client: ClientOptions, options: map<string, Json>, uuid: string, v: Json)
    requires Get(options, "agent") == JNull || Get(options, "agent") == JString("Minecraft")
    ensures Auth(client, options, uuid) == Auth(client, options["version" := v], uuid)
  {
  }

  /** The request `refresh(accessToken, clientToken, requestUser)` posts. */
  function RefreshPost(client: ClientOptions, accessToken: string, clientToken: string, requestUser: bool): (p: Post)
    ensures p.url == Host(client) + "/refresh"
    ensures p.headers == Headers
    ensures p.payload.Keys == {"accessToken", "clientToken", "requestUser"}
    ensures p.payload["accessToken"] == JString(accessToken)
    ensures p.payload["clientToken"] == JString(clientToken)
    ensures p.payload["requestUser"] == JBool(requestUser)
  {
    BuildPost(Host(client), "refresh", map[
      "accessToken" := JString(accessToken),
      "clientToken" := JString(clientToken),
      "requestUser" := JBool(requestUser)])
  }

  /** What `refresh` returns once `call` has resumed: the new access token
      together with the whole response, provided the response names the same
      clientToken the request did. */
  function RefreshResult(clientToken: string, reply: Outcome<Reply>): (r: Outcome<(string, Reply)>)
    ensures reply.NeverResumed? <==> r.NeverResumed?
    ensures reply.Raised? ==> r == Raised(reply.failure)
    ensures r.Done? <==>
      && reply.Done? && reply.value.ObjectReply?
      && Get(reply.value.fields, "clientToken") == JString(clientToken)
      && Get(reply.value.fields, "accessToken").JString?
    ensures r.Done? ==> r.value == (reply.value.fields["accessToken"].s, reply.value)
    ensures reply.Done? ==> (r == Raised(ClientTokenMismatch) <==>
      reply.value.ObjectReply? && Get(reply.value.fields, "clientToken") != JString(clientToken))
    ensures reply == Done(EmptyReply) ==> r == Raised(CastFailed)
    ensures reply.Done? && !r.Done? && r != Raised(ClientTokenMismatch) ==> r == Raised(CastFailed)
  {
    match reply
    case NeverResumed => NeverResumed
    case Raised(f) => Raised(f)
    case Done(EmptyReply) => Raised(CastFailed)
    case Done(ObjectReply(fields)) =>
      if Get(fields, "clientToken") != JString(clientToken) then Raised(ClientTokenMismatch)
      else if !Get(fields, "accessToken").JString? then Raised(CastFailed)
      else Done((Get(fields, "accessToken").s, reply.value))
  }

  /** A successful refresh keeps the client token: the response it returns
      carries exactly the token that was sent. */
  lemma RefreshKeepsClientToken(client: ClientOptions, accessToken: string, clientToken: string,
                                requestUser: bool, resp: Response)
    requires RefreshResult(clientToken, Classify(resp)).Done?
    ensures var fields := RefreshResult(clientToken, Classify(resp)).value.1.fields;
      fields["clientToken"] == RefreshPost(client, accessToken, clientToken, requestUser).payload["clientToken"]
  {
  }

  /** The request `validate(accessToken)` posts. */
  function ValidatePost(client: ClientOptions, accessToken: string): (p: Post)
    ensures p.url == Host(client) + "/validate"
    ensures p.headers == Headers
    ensures p.payload == map["accessToken" := JString(accessToken)]
  {
    BuildPost(Host(client), "validate", map["accessToken" := JString(accessToken)])
  }

  /** The request `signout(username, password)` posts. */
  function SignoutPost(client: ClientOptions, username: string, password: string): (p: Post)
    ensures p.url == Host(client) + "/signout"
    ensures p.headers == Headers
    ensures p.payload.Keys == {"username", "password"}
    ensures p.payload["username"] == JString(username) && p.payload["password"] == JString(password)
  {
    BuildPost(Host(client), "signout", map["username" := JString(username), "password" := JString(password)])
  }

  /** The request `invalidate(accessToken, clientToken)` posts. */
  function InvalidatePost(client: ClientOptions, accessToken: string, clientToken: string): (p: Post)
    ensures p.url == Host(client) + "/invalidate"
    ensures p.headers == Headers
    ensures p.payload.Keys == {"accessToken", "clientToken"}
    ensures p.payload["accessToken"] == JString(accessToken)
    ensures p.payload["clientToken"] == JString(clientToken)
  {
    BuildPost(Host(client), "invalidate", map["accessToken" := JString(accessToken), "clientToken" := JString(clientToken)])
  }
}
