/**
 * The frames the agent sends over its broker connection (client/cli.py),
 * as values, and the JSON objects `json.dumps` writes for them.
 */
module Frames {
  import opened Wrappers
  import opened PyJson

  datatype Frame =
    | Register(tunnelId: string)
    | Response(id: Json, status: int, headers: map<string, string>, body: string)

  /** The status the agent reports when it could not get an answer from the local service. */
  const UpstreamStatus: int := 502

  const UpstreamErrorPrefix: string := "upstream error: "

  /** Header values become JSON strings. */
  function HeadersJson(h: map<string, string>): (j: map<string, Json>)
    ensures j.Keys == h.Keys
    ensures forall k | k in j :: j[k] == JStr(h[k])
  {
    map k | k in h :: JStr(h[k])
  }

  /**
   * The wire form of a frame: `{type: "register", tunnel_id}` or
   * `{type: "response", payload: {id, status, headers, body}}`.
   */
  function Encode(f: Frame): (j: Json)
    ensures j.JObject?
    ensures f.Register? ==> j.fields == map["type" := JStr("register"), "tunnel_id" := JStr(f.tunnelId)]
    ensures f.Response? ==>
      j.fields.Keys == {"type", "payload"} && j.fields["type"] == JStr("response") &&
      j.fields["payload"] == JObject(map[
        "id" := f.id,
        "status" := JInt(f.status),
        "headers" := JObject(HeadersJson(f.headers)),
        "body" := JStr(f.body)])
  {
    match f
    case Register(t) => JObject(map["type" := JStr("register"), "tunnel_id" := JStr(t)])
    case Response(id, status, headers, body) =>
      JObject(map[
        "type" := JStr("response"),
        "payload" := JObject(map[
          "id" := id,
          "status" := JInt(status),
          "headers" := JObject(HeadersJson(headers)),
          "body" := JStr(body)])])
  }

  /** Reads header values back from JSON: defined when every value is a string. */
  function HeadersFromJson(j: map<string, Json>): (h: Option<map<string, string>>)
    ensures h.Some? <==> forall k | k in j :: j[k].JStr?
    ensures h.Some? ==> h.value.Keys == j.Keys && forall k | k in j :: JStr(h.value[k]) == j[k]
  {
    if forall k | k in j :: j[k].JStr? then Some(map k | k in j :: j[k].s) else None
  }

  /**
   * How the receiving side reads a frame: the `type` tag selects the shape
   * and every field must have the expected JSON type.
   */
  function Decode(j: Json): (f: Option<Frame>)
    ensures f.Some? ==> j.JObject? && "type" in j.fields
    ensures f.Some? && f.value.Register? ==> j.fields["type"] == JStr("register")
    ensures f.Some? && f.value.Response? ==> j.fields["type"] == JStr("response")
  {
    if !j.JObject? || "type" !in j.fields then None
    else if j.fields["type"] == JStr("register") then
      if "tunnel_id" in j.fields && j.fields["tunnel_id"].JStr? then Some(Register(j.fields["tunnel_id"].s)) else None
    else if j.fields["type"] == JStr("response") && "payload" in j.fields && j.fields["payload"].JObject? then
      var p := j.fields["payload"].fields;
      if "id" in p && "status" in p && p["status"].JInt? && "headers" in p && p["headers"].JObject?
         && "body" in p && p["body"].JStr? then
        match HeadersFromJson(p["headers"].fields)
        case Some(h) => Some(Response(p["id"], p["status"].i, h, p["body"].s))
        case None => None
      else None
    else None
  }

  /** Every frame the agent writes reads back as the same frame. */
  lemma DecodeEncode(f: Frame)
    ensures Decode(Encode(f)) == Some(f)
  {
    if f.Response? {
      var h := HeadersFromJson(HeadersJson(f.headers));
      assert h.Some?;
      assert h.value == f.headers;
    }
  }

  /**
   * The best-effort answer to a request that failed: status 502, a
   * plain-text content type, the error message after a fixed prefix, and
   * the payload's `id` when it has that key (whatever its value, None
   * included), else "unknown".
   */
  function ErrorFrame(payload: map<string, Json>, message: string): (f: Frame)
    ensures f.Response? && f.status == UpstreamStatus
    ensures f.headers == map["content-type" := "text/plain"]
    ensures |f.body| >= |UpstreamErrorPrefix| && f.body[..|UpstreamErrorPrefix|] == UpstreamErrorPrefix
    ensures f.body[|UpstreamErrorPrefix|..] == message
    ensures "id" in payload ==> f.id == payload["id"]
    ensures "id" !in payload ==> f.id == JStr("unknown")
  {
    Response(GetOr(payload, "id", JStr("unknown")), UpstreamStatus,
             map["content-type" := "text/plain"], UpstreamErrorPrefix + message)
  }
}
