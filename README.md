# apixify tunnel: registry and agent, modelled in Dafny

The tunnel exposes a service running on a developer's machine through a
public broker. The **agent** (`client/cli.py`) registers a tunnel id with
the broker's HTTP API. It then opens a WebSocket to the broker and sends a
`register` frame. After that it loops: it receives request frames, replays
each one against the local service, and sends back one `response` frame,
which carries either the local answer or a 502 error. When the connection
drops, the agent reconnects. The **broker** keeps a `ClientManager`
(`app/manager.py`). This object has three tables:

- tunnel id → the agent's connection;
- tunnel id → expiry time;
- request id → the future its HTTP handler awaits.

The project has five modules:

- `PyJson` (`pyjson.dfy`) gives decoded JSON values Python's view of them:
  - truthiness;
  - `dict.get` and `dict.get` with a default;
  - type names as they appear in exception messages;
  - `str()` of scalars, including decimal rendering of integers.
- `Frames` (`frames.dfy`) covers the two frames the agent sends. It gives their JSON wire form, a decoder, and the 502 error frame.
- `Forward` (`forward.dfy`) handles one received frame; `Handle` is one iteration of the receive loop:
  - the request filter;
  - hop-by-hop header stripping, as a `for` loop method proved against a function;
  - building the local URL under `urljoin`'s appending case;
  - filtering the response headers;
  - the exception handler, including the reused stale `p`.
- `Agent` (`agent.dfy`) covers the session:
  - the registration call;
  - the WebSocket URL, both as written and as intended;
  - the receive loop as a specification function `Run` and a `while` method `Session`;
  - the reconnect loop `RunClient`.
- `Manager` (`manager.dfy`) models `ClientManager` as a class:
  - it has `map` fields and a `Valid()` invariant: every bound id has an expiry;
  - futures are single-assignment slot objects, shared between the table and the awaiting handler.

## Model

| member | source | states |
|---|---|---|
| PyJson.Digits | client/cli.py:54 | the decimal digits of a natural number: non-empty, all digits, no leading zero |
| PyJson.DigitsRoundTrip | client/cli.py:54 | reading the rendered digits back gives the number (the rendering loses nothing) |
| PyJson.Decimal | client/cli.py:54 | `str(i)`: a minus sign exactly for negative numbers, followed by the digits of the magnitude |
| PyJson.PyStr | client/cli.py:54 | the f-string rendering of a scalar; a string renders as itself |
| Frames.HeadersJson | client/cli.py:68 | header maps are written as JSON objects with the same keys and string values |
| Frames.Encode | client/cli.py:63-71 | the wire shape of both frames: `{type: "register", tunnel_id}` and `{type: "response", payload: {id, status, headers, body}}` |
| Frames.HeadersFromJson | client/cli.py:68 | header objects read back exactly when every value is a string, with the same keys and values |
| Frames.Decode | client/cli.py:63-71 | a frame is read only from an object whose `type` tag names its kind |
| Frames.DecodeEncode | client/cli.py:63-71 | every frame the agent writes decodes back to the same frame (round trip) |
| Frames.ErrorFrame | client/cli.py:72-81 | the error frame has status 502 and `content-type: text/plain`. Its body is "upstream error: " followed by the message. Its id is the payload's `id` when that key is present (whatever its value), else "unknown" |
| Forward.ForwardedHeaders | client/cli.py:44-47 | forwarded headers are exactly the received ones minus the four hop-by-hop names (exact, case-sensitive match), values unchanged |
| Forward.StripHopByHop | client/cli.py:46-47 | the in-place pop loop yields exactly the forwarded headers |
| Forward.ReturnedHeaders | client/cli.py:58-61 | the headers returned are the local response's minus those whose lower-cased name is transfer-encoding or connection; values unchanged |
| Forward.HopByHopResponseHeadersDropped | client/cli.py:58-61 | a response header whose name is "connection" or "transfer-encoding" in any capitalisation of its letters is never returned; every other header is returned with its value |
| Forward.TrimLeadingSlashes | client/cli.py:52 | `lstrip("/")`: removes exactly the leading run of slashes, nothing else |
| Forward.WithSlash | client/cli.py:52 | the base with exactly one '/' added when it does not already end in one |
| Forward.DecimalIsAuthority | client/cli.py:98 | a rendered port number only holds characters allowed in a URL authority |
| Forward.LocalServiceUrlIsPlain | client/cli.py:98 | `LocalServiceUrl`, the local service URL the command line builds, is for any port a base that `urljoin` appends to |
| Forward.JoinedHasNoQueryMark | client/cli.py:52 | the joined base and path contain no '?' |
| Forward.LocalUrlShape | client/cli.py:52-54 | `LocalUrl`, the URL the request is sent to, starts with the slash-terminated base and contains '?' exactly when the query is truthy |
| Forward.QueryMarkOnlyBeforeQuery | client/cli.py:53-54 | `WithQuery`: appending the query keeps the URL as a prefix and adds a '?' exactly when the query is truthy |
| Forward.LocalUrlSplits | client/cli.py:52-54 | splitting `LocalUrl`'s result at its first '?' gives back the joined base and path, and the rendered query exactly when it was truthy (round trip) |
| Forward.Prepare | client/cli.py:40-56 | the request is issued exactly when headers (after `or {}`) are a dict, the body (after `or ""`) a string, and the path a string. It carries the payload's id, method and body, the forwarded headers and the local URL. Otherwise the failure is the message of the exception Python raises at the first check that fails, in source order: `pop` on the headers, `encode` on the body, `lstrip` on the path |
| Forward.MissingHeadersAndBodyDefault | client/cli.py:44-49 | `HeadersOf` and `BodyOf` (`or {}`, `or ""`): a payload with missing or empty headers and body is still forwarded, with no headers and an empty body |
| Forward.AnswerCarriesRequestId | client/cli.py:63-81 | `Answer`, the reply to an issued request, carries the payload's `id` whenever it has one, and the local status, filtered headers and text, or 502 and the error message if the call raised |
| Forward.Fallback | client/cli.py:72-81 | the exception handler replies exactly when the current `p` is a bound dict, with the error frame built from it; otherwise the exception escapes the receive loop (`Abort`) |
| Forward.Handle | client/cli.py:35-81 | one loop iteration. A decoded object that is not a request (`IsRequest`) is skipped, with `p` unchanged. A request binds `p` to its payload. A request with a dict payload is sent to the local service exactly when `Prepare` succeeds, and is always answered by one response frame: the local answer with the request's id, or a 502 text/plain error frame carrying the id (or "unknown") and the message of the exception raised. A non-dict payload ends the session. A message that does not decode, or decodes to something other than an object, goes to the exception handler (`Fallback`) with `p` unchanged |
| Forward.IssuedRequestIsForwarded | client/cli.py:40-56 | an issued request carries the payload's method and body and no hop-by-hop header. Its URL lies under the base and has a query exactly when the payload's query is truthy |
| Agent.Registration | client/cli.py:14-17 | a truthy username posts `{username, ttl_seconds}` to /register; otherwise `{ttl_seconds}` goes to /random |
| Agent.WsUrlAsWrittenRewritesHost | client/cli.py:24 | `WsUrlAsWritten`, the URL as the source computes it: "http://httpbin.org" becomes "ws://wsbin.org/ws": the host is rewritten too |
| Agent.RewritesHttpInHost | client/cli.py:24 | as written, a host starting with "http" loses it along with the scheme |
| Agent.KeepsPrefix | client/cli.py:24 | `ReplaceAll`, Python's `str.replace`, copies a prefix holding no first letter of the target unchanged |
| Agent.NoOccurrenceUnchanged | client/cli.py:24 | `str.replace` leaves a string without the target unchanged |
| Agent.WsUrlAgreesWithoutHttpInHost | client/cli.py:24 | the written and the corrected URL agree whenever "http" occurs only in the scheme |
| Agent.WsUrlOfHttp | client/cli.py:24 | the corrected URL rewrites only the scheme's leading "http" |
| Agent.WsUrlSchemes | client/cli.py:24 | `WsUrl`, the corrected URL, maps http://host to ws://host/ws and https://host to wss://host/ws |
| Agent.BodyWellBehaved | client/cli.py:35-81 | the loop body accepts every modelled message, replies only with response frames, skips non-requests, and answers every request with a dict payload by one frame carrying its id |
| Agent.RequestsIn | client/cli.py:35-38 | the requests among the first messages, in arrival order: no more than the messages, and all of them requests |
| Agent.RequestsAnswered | client/cli.py:33-81 | no request is dropped: when every message decodes to an object and every request has a dict payload, the connection stays up and sends exactly one frame per request, in arrival order, each carrying its request's id |
| Agent.Run | client/cli.py:33-81 | one connection sends at most one frame per message, all of them responses |
| Agent.RunTo | client/cli.py:33-81 | the first n iterations send at most n frames, all of them responses |
| Agent.StaysAborted | client/cli.py:72-88 | once an exception escapes the receive loop, later messages are not read |
| Agent.AbortIsFinal | client/cli.py:72-88 | messages that would follow an escaped exception do not change what the connection sent |
| Agent.NoRequestNoReply | client/cli.py:37-38 | a connection that delivers only decoded objects, none of them a request, sends nothing after registering and leaves `p` alone |
| Agent.Session | client/cli.py:28-81 | a connection sends the register frame first, then exactly the frames of `Run`, at most one per message, all of them responses |
| Agent.RunClient | client/cli.py:24-88 | dials the URL as the source computes it (`WsUrlAsWritten`), which equals the intended `WsUrl` when "http" occurs only in the scheme. Every connection that opens sends the register frame for the same id first, then only responses; a refused attempt sends nothing |
| Manager.Future.constructor | app/manager.py:46 | a new future is pending |
| Manager.Future.SetResult | app/manager.py:55 | completing a pending future stores the payload |
| Manager.ClientManager.constructor | app/manager.py:8-12 | all three tables start empty and the invariant holds |
| Manager.ClientManager.RegisterTunnelId | app/manager.py:14-19 | a non-empty id is kept, an absent or empty one replaced by the generated id. Its expiry becomes now + ttl, overwriting any earlier one. The other tables are unchanged and the invariant is kept |
| Manager.ClientManager.AddClient | app/manager.py:21-25 | binds the id to the connection, replacing any earlier binding. Keeps an existing expiry and sets a missing one to now + 21600 |
| Manager.ClientManager.RemoveClient | app/manager.py:28-33 | unbinds exactly the ids bound to the connection; other bindings and the expiry table are unchanged |
| Manager.ClientManager.GetWs | app/manager.py:35-43 | an id whose expiry is recorded, non-zero and strictly before now is evicted (binding and expiry) and reported unbound. Otherwise the binding is returned and nothing changes. A connection handed out always has a live expiry entry |
| Manager.ClientManager.CreateRequestFuture | app/manager.py:45-49 | installs a fresh pending future under the request id, overwriting any earlier entry |
| Manager.ClientManager.ResolveRequest | app/manager.py:51-55 | removes the entry and completes its future only if it was still pending. An unknown or finished request changes nothing else |
| Manager.ResolveTwiceDeliversOnce | app/manager.py:51-55 | a response delivered twice completes the future once, with the first payload |
| Manager.ExpiredIsForgotten | app/manager.py:38-42 | an id found expired loses both binding and expiry, and stays unbound on the next lookup |
| Manager.ReconnectSurvivesOldTeardown | app/manager.py:21-33 | an agent that reconnects under the same id keeps its new binding when the old connection is torn down |

## Left out

- Concurrency: `asyncio.Lock`, awaiting, cancellation and timeouts.
  - Each `ClientManager` method is one atomic step.
  - A future is a single-assignment slot.
  - Concurrent interleavings of the agent are not modelled.
- Wall-clock time is a float in the source and an integer `now` here, so sub-second expiry comparisons are not modelled.
- Randomness: `secrets.token_urlsafe(6)` is the `generated` input.
- Manager.ClientManager.RegisterTunnelId: requires `generated` to be non-empty, since `token_urlsafe(6)` always yields eight characters.
- Logging: the `print` calls in both files.
- Network I/O:
  - The HTTP registration call and its response fields (`tunnel_id`, `public_url`) are not part of this model. `Agent.Registration` states only the request.
  - The WebSocket connect, send and receive are replaced by input sequences of messages.
  - The local HTTP call is replaced by an input outcome: an answer, or an exception message. What httpx does with the issued request (a non-string method, redirects, the 20-second timeout, decoding `resp.text`, merging repeated response headers) is folded into that input.
  - JSON text is not parsed or printed. Messages arrive decoded, or as text that fails to decode, and frames are datatypes with an explicit JSON form.
- JSON numbers other than integers (floats) are not modelled.
- The body's UTF-8 encoding (client/cli.py:49) is not modelled: the body is kept as a string, and encoding errors on lone surrogates are left out.
- The reconnect delay (`asyncio.sleep(5)`) and the distinction between the two outer `except` clauses are left out. Both only log and reconnect.
- Agent.RunClient: runs over a finite sequence of attempts; the source loops forever.
- Agent.RequestsAnswered: covers traffic in which every message decodes to an object and every request has a dict payload. Otherwise `Forward.Handle` states each step: an error frame for undecodable input when a dict payload was seen earlier, or the end of the session.
- `main` and its argument parsing. Only the local service URL it builds is modelled (`Forward.LocalServiceUrl`).
- Forward.LocalUrl: `urljoin` is modelled only for a base of the form `http://host[:port][/]` and a stripped path with:
  - no ':' or ';' anywhere (so neither a scheme nor parameters, but also no path such as `v1/items:batch`), and no '?' or '#';
  - no control or space characters;
  - no empty interior segment and no dot segments.

  For these, `urljoin` appends the reference. Other paths are outside the model.
- Forward.LocalUrl: a truthy query that is a list or dict is outside the model; only scalar queries are rendered.
- Forward.Handle, Forward.Prepare, Agent.Run, Agent.Session: require every message to satisfy `Modelled`, meaning its path and query lie in the URL subset above.
- Header order: headers are maps, so the order in which they are sent is not modelled.
- Agent.RunClient: states what is dialled and sent, not the messages' contents beyond their kinds. `Agent.Session`'s contract ties each connection to `Run`.
- Frames.Decode: its own contract states only the type tag; `Frames.DecodeEncode` states the round trip.
- `app/routes.py` is not part of this model. It calls `get_next_client`, which `ClientManager` does not define.
- `app/websocket.py` is not part of this model. It calls `add_client` with one argument.
- `app/main.py` is not part of this model: it is framework wiring only.
- The broker's request gateway (timeout, 504 status, OpenAPI rewrite) is not part of this model.
- The model keeps these behaviours of the code:
  - `register_tunnel_id` accepts any TTL, including zero or negative ones.
  - `create_request_future` overwrites an existing entry without checking.
  - `add_client` keeps an existing expiry instead of renewing it.
  - An expiry of zero never expires, because it is falsy.
  - Expiry is strict: an id whose expiry equals `now` is still live.

## Findings

| source | as written | input that shows it | evidently intended | confidence | as-written member | corrected member |
|---|---|---|---|---|---|---|
| client/cli.py:24 | `server.replace("http", "ws") + "/ws"` rewrites every occurrence of "http", not only the scheme | server "http://httpbin.org" gives "ws://wsbin.org/ws", a different host | rewrite only the scheme: http://host to ws://host/ws, https://host to wss://host/ws | not executed; high | Agent.WsUrlAsWrittenRewritesHost | Agent.WsUrlSchemes |
