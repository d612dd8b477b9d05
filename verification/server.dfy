/** KYServer.kt: the join/hasJoined handshake. Both sides hash the same
    material (server id, shared secret, server public key) with SHA-1 and send
    the digest as plain lowercase hex. SHA-1, the string-to-bytes encoding and
    URL encoding are collaborators given as functions. */
module Server {
  import opened Bytes
  import opened HexText
  import opened Json
  import opened Optional
  import opened Transport
  import Client

  /** A SHA-1 digest: 20 bytes. */
  type Sha1Digest = s: seq<byte> | |s| == 20 witness Zeros(20)

  /** The library calls the server code makes and this model does not open up. */
  datatype Collaborators = Collaborators(
    sha1: seq<byte> -> Sha1Digest,    // MessageDigest.getInstance("SHA-1").digest
    encode: string -> seq<byte>,      // String.toByteArray()
    urlEncode: string -> string)      // URLEncoder.encode(_, "UTF-8")

  /** `ServerModuleOptions`; the agent is never used by the handshake. */
  datatype ServerOptions = ServerOptions(host: Option<string>, agent: Json)

  /** `moduleOptions.host ?: defaultHost`, with the client's default host. */
  function Host(options: ServerOptions): (h: string)
    ensures options.host.Some? ==> h == options.host.value
    ensures options.host.None? ==> h == "https://authserver.mojang.com"
  {
    match options.host
    case Some(h) => h
    case None => Client.DefaultHost
  }

  /** `createHash(data)`: the SHA-1 digest as plain lowercase hex, two digits
      per byte, no sign and no zero stripping; the digest can be read back. */
  function CreateHash(env: Collaborators, data: seq<byte>): (r: string)
    ensures |r| == 40 && IsHexText(r)
    ensures UnHex(r) == Some(env.sha1(data))
    ensures HexValue(r) == Value(env.sha1(data))
  {
    HexRoundTrip(env.sha1(data));
    Hex(env.sha1(data))
  }

  /** The server-id hash both handshake calls compute: the digest of the
      encoded concatenation `serverid + sharedsecret + serverkey`, in 40 hex digits. */
  function ServerIdHash(env: Collaborators, serverId: string, sharedSecret: string, serverKey: string): (r: string)
    ensures |r| == 40 && IsHexText(r)
    ensures UnHex(r) == Some(env.sha1(env.encode(serverId + sharedSecret + serverKey)))
  {
    CreateHash(env, env.encode(serverId + sharedSecret + serverKey))
  }

  /** The request `join(accessToken, selectedProfile, serverid, sharedsecret, serverkey)` posts. */
  function JoinPost(server: ServerOptions, env: Collaborators, accessToken: string, selectedProfile: string,
                    serverId: string, sharedSecret: string, serverKey: string): (p: Post)
    ensures p.url == Host(server) + "/session/minecraft/join"
    ensures p.headers == Headers
    ensures p.payload.Keys == {"accessToken", "selectedProfile", "serverId"}
    ensures p.payload["accessToken"] == JString(accessToken)
    ensures p.payload["selectedProfile"] == JString(selectedProfile)
    ensures p.payload["serverId"] == JString(ServerIdHash(env, serverId, sharedSecret, serverKey))
  {
    var hash := ServerIdHash(env, serverId, sharedSecret, serverKey);
    BuildPost(Host(server), "session/minecraft/join", map[
      "accessToken" := JString(accessToken),
      "selectedProfile" := JString(selectedProfile),
      "serverId" := JString(hash)])
  }

  const HasJoinedPrefix: string := "/session/minecraft/hasJoined?username="
  const ServerIdParam: string := "&serverId="

  /** The URL `hasJoined(username, serverid, sharedsecret, serverkey)` reads:
      the user name is URL-encoded, the hash is appended as is. */
  function HasJoinedUrl(server: ServerOptions, env: Collaborators, username: string,
                        serverId: string, sharedSecret: string, serverKey: string): (url: string)
    ensures url == Host(server) + "/session/minecraft/hasJoined?username=" + env.urlEncode(username)
                   + "&serverId=" + ServerIdHash(env, serverId, sharedSecret, serverKey)
    ensures |url| >= 40
    ensures UnHex(url[|url| - 40..]) == Some(env.sha1(env.encode(serverId + sharedSecret + serverKey)))
  {
    var hash := ServerIdHash(env, serverId, sharedSecret, serverKey);
    var url := Host(server) + HasJoinedPrefix + env.urlEncode(username) + ServerIdParam + hash;
    assert url[|url| - 40..] == hash;
    url
  }

  /** join and hasJoined agree on the hash: the server id `join` posts is
      exactly the last query parameter of the URL `hasJoined` reads. */
  lemma JoinAndHasJoinedAgree(server: ServerOptions, env: Collaborators, accessToken: string,
                              selectedProfile: string, username: string,
                              serverId: string, sharedSecret: string, serverKey: string)
    ensures var url := HasJoinedUrl(server, env, username, serverId, sharedSecret, serverKey);
      var join := JoinPost(server, env, accessToken, selectedProfile, serverId, sharedSecret, serverKey);
      url[|url| - 40..] == join.payload["serverId"].s
  {
    var url := HasJoinedUrl(server, env, username, serverId, sharedSecret, serverKey);
    var hash := ServerIdHash(env, serverId, sharedSecret, serverKey);
    assert url == Host(server) + HasJoinedPrefix + env.urlEncode(username) + ServerIdParam + hash;
    assert url[|url| - 40..] == hash;
  }

  /** The worked example of a join: the hash covers "srv1secretXkeyY". */
  lemma JoinExample(server: ServerOptions, env: Collaborators)
    ensures JoinPost(server, env, "token123", "profileA", "srv1", "secretX", "keyY").payload["serverId"]
      == JString(Hex(env.sha1(env.encode("srv1secretXkeyY"))))
  {
    assert "srv1" + "secretX" + "keyY" == "srv1secretXkeyY";
  }

  /** What `hasJoined` returns for the decoded response body: the body itself
      when it has a non-null `id`, the verification failure otherwise; a body
      that does not decode raises the decoder's exception. */
  function HasJoinedResult(decoded: Decoded): (r: Outcome<map<string, Json>>)
    ensures !r.NeverResumed?
    ensures r.Done? <==> decoded.Parsed? && "id" in decoded.fields && decoded.fields["id"] != JNull
    ensures r.Done? ==> r.value == decoded.fields
    ensures decoded.Parsed? && !r.Done? ==> r == Raised(VerifyFailed)
    ensures decoded.ParseFailed? ==> r == Raised(Undecodable)
  {
    match decoded
    case ParseFailed => Raised(Undecodable)
    case Parsed(fields) => if Get(fields, "id") != JNull then Done(fields) else Raised(VerifyFailed)
  }
}
