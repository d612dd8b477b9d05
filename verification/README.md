# kotlin-yggdrasil, modelled in Dafny

A model of the protocol layer of a Kotlin binding for Mojang's Yggdrasil
authentication scheme. It covers three pieces of pure logic that sit inside
the HTTP and coroutine plumbing:

- **Digest rendering** (`KYUtils.kt`, `KYServer.kt`). `performTwosCompliment`
  negates a big-endian byte buffer in place. `mcHexDigest` uses it to print a
  digest as a signed base-16 number, as `BigInteger.toString(16)` does on the
  JVM. `createHash` prints a SHA-1 digest as plain lowercase hex.
- **The generic POST `call`** (`KYUtils.kt`). Covers the URL and headers it sends, and how a
  response (status, body text, result of decoding the body) is classified.
  There are seven outcomes: empty success, object success, API error, blocked,
  IP-banned, non-JSON, and never resumed. The last is a 403 page that matches
  neither marker.
- **Client and server operations** (`KYClient.kt`, `KYServer.kt`). Covers the
  defaulting rules of `auth`, the clientToken check of `refresh`, and the fixed
  paths and payloads of `validate`, `signout` and `invalidate`. On the server
  side it covers the `join` payload, the URL of `hasJoined`, and its `id` check.

Modules (one file each): `Bytes` (unsigned bytes, big-endian value), `TwosComplement`,
`HexText` (hex digits, zero stripping, canonical base-16), `Digest`
(`mcHexDigest`), `Text` (`String.contains`, decimal rendering), `Json`,
`Optional`, `Transport` (`call`), `Client`, `Server`.

Bytes are integers in 0..255. A JVM byte is negative exactly when its unsigned
reading is at least 128, and `"%02x".format(b)` prints that unsigned reading.
An operation that needs the network takes the call's outcome, or the decoded
response, as a parameter. SHA-1, `String.toByteArray()`, `URLEncoder.encode` and
`UUID.randomUUID()` are also parameters.

Three behaviours of the code that the model keeps as written:

- An all-zero digest renders as `""`, not `"0"` (`KYUtils.kt:79`).
- A 403 response whose body decodes to nothing and holds neither marker leaves
  the continuation unresumed. It does not fall through to "not JSON"
  (`KYUtils.kt:54-59`). This is `Transport.Outcome.NeverResumed`.
- In `hasJoined`, a body that does not decode raises the decoder's exception.
  That exception is `Transport.Failure.Undecodable` (`KYServer.kt:52`).

## Model

| member | source | states |
|---|---|---|
| TwosComplement.Negate | src/main/kotlin/dev/vexor/ky/KYUtils.kt:87-99 | the right-to-left carry walk of `performTwosCompliment` as a function; the result has the input's length |
| TwosComplement.NegateValueCases | src/main/kotlin/dev/vexor/ky/KYUtils.kt:87-99 | a zero buffer stays zero; any other n-byte buffer of value v becomes one of value 256^n - v |
| TwosComplement.NegateValue | src/main/kotlin/dev/vexor/ky/KYUtils.kt:87-99 | length is preserved and value(result) = (256^n - value(input)) mod 256^n |
| TwosComplement.InvertValue | src/main/kotlin/dev/vexor/ky/KYUtils.kt:91 | inverting every byte maps value v to 256^n - 1 - v |
| TwosComplement.NegateInvolution | src/main/kotlin/dev/vexor/ky/KYUtils.kt:87-99 | negating twice restores the original buffer |
| TwosComplement.NegateAllZero | src/main/kotlin/dev/vexor/ky/KYUtils.kt:88-94 | an all-zero buffer is left all-zero |
| TwosComplement.NegateTrailingZeros | src/main/kotlin/dev/vexor/ky/KYUtils.kt:92-94 | trailing 0x00 bytes remain 0x00 while the carry crosses them; the bytes before them are negated on their own |
| TwosComplement.PerformTwosComplement | src/main/kotlin/dev/vexor/ky/KYUtils.kt:87-99 | the in-place array loop leaves the array holding the functional negation of its old contents |
| HexText.ByteHex | src/main/kotlin/dev/vexor/ky/KYUtils.kt:79 | `"%02x"` gives exactly two lowercase digits that denote the unsigned byte |
| HexText.Hex | src/main/kotlin/dev/vexor/ky/KYServer.kt:14 | two digits per byte, all lowercase hex, denoting the buffer's big-endian value |
| HexText.HexRoundTrip | src/main/kotlin/dev/vexor/ky/KYServer.kt:14 | reading the hex text back two digits at a time recovers the bytes |
| HexText.StripLeadingZeros | src/main/kotlin/dev/vexor/ky/KYUtils.kt:79 | `^0+` removal: the result is a suffix, everything removed is '0', and the result does not start with '0' |
| HexText.StripKeepsValue | src/main/kotlin/dev/vexor/ky/KYUtils.kt:79 | stripping keeps the text hex and keeps its value |
| HexText.CanonicalHexUnique | src/main/kotlin/dev/vexor/ky/KYUtils.kt:79 | a hex run without a leading zero is the canonical base-16 rendering of its value |
| HexText.StrippedHexIsCanonical | src/main/kotlin/dev/vexor/ky/KYUtils.kt:79 | the stripped per-byte rendering equals the canonical rendering of the value; a zero buffer strips to "" |
| Digest.McHexDigest | src/main/kotlin/dev/vexor/ky/KYUtils.kt:76-80 | text starts with '-' iff the first byte is negative; no '0' follows the optional sign; for a non-zero digest the text is `BigInteger.toString(16)` of the buffer read as a two's-complement integer; a zero digest gives ""; the caller's array ends up negated iff negative |
| Digest.Magnitude | src/main/kotlin/dev/vexor/ky/KYUtils.kt:79 | the rendered, zero-stripped buffer is hex with no leading '0': the canonical hex of the buffer's value, and "" for a zero buffer |
| Digest.NegativeMagnitude | src/main/kotlin/dev/vexor/ky/KYUtils.kt:77-78 | a digest whose first byte is negative has a negative signed value, and its negation holds that value's magnitude |
| Digest.McHexDigestBuffer | src/main/kotlin/dev/vexor/ky/KYUtils.kt:78 | a negative digest leaves its two's complement in the array, and negating that gives back the digest; a non-negative one is untouched |
| Digest.McHexDigestInPlace | src/main/kotlin/dev/vexor/ky/KYUtils.kt:76-80 | the array version returns the same text and leaves the same array contents as the functional one |
| Digest.ZeroDigestRendersEmpty | src/main/kotlin/dev/vexor/ky/KYUtils.kt:79 | an all-zero digest, such as 20 bytes 0x00, prints as "" where `BigInteger.toString(16)` prints "0" |
| Digest.McHexDigestCorrected | src/main/kotlin/dev/vexor/ky/KYUtils.kt:76-80 | with zero printed as "0", the text is `BigInteger.toString(16)` of the signed value for every digest |
| Text.Contains | src/main/kotlin/dev/vexor/ky/KYUtils.kt:55-57 | `String.contains` is true exactly when the needle occurs at some offset |
| Text.NatDecimal | src/main/kotlin/dev/vexor/ky/KYUtils.kt:61 | the status code's digits denote the status code, in shortest form: zero is "0" and any other number has no leading '0' |
| Text.Decimal | src/main/kotlin/dev/vexor/ky/KYUtils.kt:61 | `"$n"` of an `Int`: a leading '-' exactly for negative numbers, then the shortest decimal digits of the magnitude; zero is "0" |
| Text.DecimalInjective | src/main/kotlin/dev/vexor/ky/KYUtils.kt:61 | different status codes print differently |
| Transport.BuildPost | src/main/kotlin/dev/vexor/ky/KYUtils.kt:15-30 | the URL is host, '/', path; the headers are exactly `User-Agent: kotlin-yggdrasil/1.0.1` and `Content-Type: application/json`; the payload is the data |
| Transport.Classify | src/main/kotlin/dev/vexor/ky/KYUtils.kt:41-62 | for each of the seven outcomes, the exact condition on (body, decoding, status) that gives it: empty body is success ""; a decoded object with `error` is an API error carrying `ErrorReason` of the body, without it a success; an undecodable 403 body is blocked, else IP-banned, else never resumed; any other status is "not JSON" with that status |
| Transport.ErrorReason | src/main/kotlin/dev/vexor/ky/KYUtils.kt:48 | `errorMessage` unless it is absent or null, then `error`; null exactly when both are absent or null |
| Transport.Message | src/main/kotlin/dev/vexor/ky/KYUtils.kt:54-61 | the exception text per failure: the API error's own string; "Request blocked by CloudFlare"; "Your IP is banned by CloudFlare"; "Response is not JSON. Status code: " then the decimal status; also "clientToken assertion failed" (`KYClient.kt:50`) and "Failed to verify username!" (`KYServer.kt:56`); no text of the binding's own for cast and decoder failures |
| Transport.ApiErrorReason | src/main/kotlin/dev/vexor/ky/KYUtils.kt:47-48 | the API error carries `errorMessage` when present and non-null, otherwise `error` |
| Transport.BlockedWinsOverBanned | src/main/kotlin/dev/vexor/ky/KYUtils.kt:54-59 | a 403 body holding both markers is reported as blocked |
| Transport.MessagesDistinguish | src/main/kotlin/dev/vexor/ky/KYUtils.kt:54-62 | the binding's own exception messages tell its failure kinds, and the status codes, apart |
| Client.Host | src/main/kotlin/dev/vexor/ky/KYClient.kt:5-10 | the configured host, else `https://authserver.mojang.com` |
| Client.AuthClientToken | src/main/kotlin/dev/vexor/ky/KYClient.kt:18-19 | the supplied token when it is a string, the fresh UUID when it is null or absent, a cast failure otherwise |
| Client.AuthAgent | src/main/kotlin/dev/vexor/ky/KYClient.kt:20-29 | an object with exactly name and version; the name defaults to "Minecraft", in which case the version is 1, else it is the caller's version; a non-string agent is a cast failure |
| Client.Auth | src/main/kotlin/dev/vexor/ky/KYClient.kt:16-37 | posts to `authenticate` with exactly agent, username, password, clientToken, requestUser; username and password come from `user` and `pass`; requestUser only when the option is exactly true; a cast failure of token or agent is raised before posting |
| Client.AuthKeepsSuppliedToken | src/main/kotlin/dev/vexor/ky/KYClient.kt:18-19 | with a supplied token the fresh UUID has no influence on the request |
| Client.AuthDefaultAgentIgnoresVersion | src/main/kotlin/dev/vexor/ky/KYClient.kt:20-29 | for the default agent the caller's version has no influence on the request |
| Client.RefreshPost | src/main/kotlin/dev/vexor/ky/KYClient.kt:42-48 | posts to `refresh` with exactly accessToken, clientToken, requestUser |
| Client.RefreshResult | src/main/kotlin/dev/vexor/ky/KYClient.kt:49-51 | call errors propagate; a mismatched or missing clientToken is the assertion failure; an empty reply or a non-string accessToken is a cast failure; otherwise the pair (accessToken, whole reply) |
| Client.RefreshKeepsClientToken | src/main/kotlin/dev/vexor/ky/KYClient.kt:42-51 | a successful refresh returns a response whose clientToken is the one the request sent |
| Client.ValidatePost | src/main/kotlin/dev/vexor/ky/KYClient.kt:57-59 | posts to `validate` with exactly {accessToken} |
| Client.SignoutPost | src/main/kotlin/dev/vexor/ky/KYClient.kt:64-66 | posts to `signout` with exactly {username, password} |
| Client.InvalidatePost | src/main/kotlin/dev/vexor/ky/KYClient.kt:71-73 | posts to `invalidate` with exactly {accessToken, clientToken} |
| Server.Host | src/main/kotlin/dev/vexor/ky/KYServer.kt:18 | the configured host, else `https://authserver.mojang.com` |
| Server.CreateHash | src/main/kotlin/dev/vexor/ky/KYServer.kt:11-15 | 40 lowercase hex digits with no sign and no stripping, from which the SHA-1 digest reads back |
| Server.ServerIdHash | src/main/kotlin/dev/vexor/ky/KYServer.kt:25 | 40 hex digits that read back as the digest of the encoded serverid + sharedsecret + serverkey |
| Server.JoinPost | src/main/kotlin/dev/vexor/ky/KYServer.kt:24-35 | posts to `session/minecraft/join` with exactly accessToken, selectedProfile and serverId, the last being the server-id hash |
| Server.JoinExample | src/main/kotlin/dev/vexor/ky/KYServer.kt:24-35 | join("token123", "profileA", "srv1", "secretX", "keyY") sends the hex of the digest of "srv1secretXkeyY" |
| Server.HasJoinedUrl | src/main/kotlin/dev/vexor/ky/KYServer.kt:42-43 | host, `/session/minecraft/hasJoined?username=`, the URL-encoded name, `&serverId=`, then 40 unencoded hex digits that read back as the digest |
| Server.JoinAndHasJoinedAgree | src/main/kotlin/dev/vexor/ky/KYServer.kt:24-43 | for the same material, the serverId that join posts is the hash that ends the hasJoined URL |
| Server.HasJoinedResult | src/main/kotlin/dev/vexor/ky/KYServer.kt:50-58 | succeeds with the decoded body iff it has a non-null `id`; otherwise the verification failure; an undecodable body raises the decoder's exception |

## Left out

- Digest.McHexDigest: requires a non-empty digest; on an empty array `hash[0]` throws `ArrayIndexOutOfBoundsException` on the JVM, and that exception is not modelled. The same holds for `Digest.McHexDigestInPlace` and `Digest.McHexDigestCorrected`. The function is exported for callers that pass a SHA-1 digest, which is never empty.
- HTTP I/O: connections, stream reading and writing, and `use` blocks. Responses are inputs to `Transport.Classify` and `Server.HasJoinedResult`.
- Exceptions raised by the transport itself are not modelled. This includes a failed connection, the JDK throwing on a 4xx `inputStream`, and non-serialization exceptions rethrown at `KYUtils.kt:63-70`.
- Coroutine adaptation is not modelled: `suspendCoroutine`, `callbackify`, `runBlocking`, `Exported` and the `*Callback` fields. A continuation that is never resumed appears only as the `NeverResumed` outcome.
- SHA-1 (FIPS 180-4), `String.toByteArray()` and `URLEncoder.encode` are function parameters in `Server.Collaborators`. `UUID.randomUUID()` is the `uuid` parameter of `Client.Auth`.
- JSON encoding and decoding are abstract. A response comes with its decoding result (`Parsed(map)` or `ParseFailed`), and payloads are `Json` maps.
- `Transport.Message` does not model the text of API errors that are not JSON strings, because it depends on the decoder's `toString`. It also does not model the JVM's messages for cast and decoder failures.
- The `agent` option passed to `call` is not modelled: `call` never reads it.
- The empty `agent` branch of `hasJoined` (`KYServer.kt:46-48`) is not modelled: it does nothing.
- `build.gradle.kts` is not modelled: it holds only build configuration.

## Findings

| source | as written | input that shows it | evidently intended | confidence | as-written member | corrected member |
|---|---|---|---|---|---|---|
| src/main/kotlin/dev/vexor/ky/KYUtils.kt:79 | stripping `^0+` from an all-zero rendering leaves the empty string | a digest of 20 bytes 0x00 | "0", as `BigInteger.toString(16)` prints zero | not executed; medium (a real SHA-1 digest is practically never zero) | Digest.ZeroDigestRendersEmpty | Digest.McHexDigestCorrected |
