/**
 * The agent's handling of one frame received from the broker (the body of
 * the receive loop in client/cli.py). The call to the local service is not
 * made here: the request that would be sent is part of the result, and
 * what the service did is the input `outcome`.
 */
module Forward {
  import opened Wrappers
  import opened PyJson
  import opened Frames

  // ---------------------------------------------------------------------------
  // Request headers
  // ---------------------------------------------------------------------------

  /** Hop-by-hop request headers, popped in this order, matched exactly (case-sensitively). */
  const HopByHop: seq<string> := ["host", "connection", "transfer-encoding", "content-length"]

  /** The request headers forwarded to the local service. */
  function ForwardedHeaders(h: map<string, Json>): (r: map<string, Json>)
    ensures forall k :: k in r <==> k in h && k !in HopByHop
    ensures forall k | k in r :: r[k] == h[k]
  {
    h - {"host", "connection", "transfer-encoding", "content-length"}
  }

  /** The in-place `for k in [...]: headers.pop(k, None)` loop. */
  method StripHopByHop(headers: map<string, Json>) returns (h: map<string, Json>)
    ensures h == ForwardedHeaders(headers)
  {
    h := headers;
    for i := 0 to |HopByHop|
      invariant forall k :: k in h <==> k in headers && k !in HopByHop[..i]
      invariant forall k | k in h :: h[k] == headers[k]
    {
      h := h - {HopByHop[i]};
    }
    assert HopByHop[..|HopByHop|] == HopByHop;
  }

  // ---------------------------------------------------------------------------
  // Response headers
  // ---------------------------------------------------------------------------

  /**
   * ASCII lower-casing. Python's `str.lower` also maps some non-ASCII
   * characters, but none of them to a string made only of the ASCII letters
   * and '-' of the two names compared against below, so the filter is the same.
   */
  function AsciiLower(s: string): (r: string)
    ensures |r| == |s|
    ensures forall k | 0 <= k < |s| ::
      r[k] == if 'A' <= s[k] <= 'Z' then (s[k] as int + 32) as char else s[k]
    ensures forall k | 0 <= k < |r| :: !('A' <= r[k] <= 'Z')
  {
    seq(|s|, k requires 0 <= k < |s| => if 'A' <= s[k] <= 'Z' then (s[k] as int + 32) as char else s[k])
  }

  /** The response headers returned to the broker: all but those named transfer-encoding or connection in any case. */
  function ReturnedHeaders(h: map<string, string>): (r: map<string, string>)
    ensures forall k :: k in r <==> k in h && AsciiLower(k) != "transfer-encoding" && AsciiLower(k) != "connection"
    ensures forall k | k in r :: r[k] == h[k]
  {
    map k | k in h && AsciiLower(k) !in {"transfer-encoding", "connection"} :: h[k]
  }

  /** Lower-casing twice is lower-casing once. */
  lemma AsciiLowerIdempotent(s: string)
    ensures AsciiLower(AsciiLower(s)) == AsciiLower(s)
  {
  }

  /** Names that differ from `name` only in the case of ASCII letters lower-case to the same string. */
  predicate CaseVariant(k: string, name: string)
  {
    |k| == |name| &&
    forall i | 0 <= i < |k| ::
      k[i] == name[i] || ('a' <= name[i] <= 'z' && k[i] as int == name[i] as int - 32)
  }

  lemma CaseVariantLowers(k: string, name: string)
    requires CaseVariant(k, name) && AsciiLower(name) == name
    ensures AsciiLower(k) == name
  {
    forall i | 0 <= i < |k| ensures AsciiLower(k)[i] == name[i] {
      assert AsciiLower(name)[i] == name[i];
    }
  }

  /**
   * However the local service capitalises them ("Connection",
   * "TRANSFER-ENCODING", ...), the two hop-by-hop response headers are never
   * returned, and every other header is.
   */
  lemma HopByHopResponseHeadersDropped(h: map<string, string>, k: string)
    requires k in h
    ensures CaseVariant(k, "connection") || CaseVariant(k, "transfer-encoding") ==> k !in ReturnedHeaders(h)
    ensures !CaseVariant(k, "connection") && !CaseVariant(k, "transfer-encoding") ==>
      k in ReturnedHeaders(h) && ReturnedHeaders(h)[k] == h[k]
  {
    if CaseVariant(k, "connection") {
      CaseVariantLowers(k, "connection");
    } else if CaseVariant(k, "transfer-encoding") {
      CaseVariantLowers(k, "transfer-encoding");
    } else {
      LowersOnlyToVariant(k, "connection");
      LowersOnlyToVariant(k, "transfer-encoding");
    }
  }

  /** Conversely, only a case variant of a lower-case name lower-cases to it. */
  lemma LowersOnlyToVariant(k: string, name: string)
    ensures AsciiLower(k) == name ==> CaseVariant(k, name)
  {
    if AsciiLower(k) == name {
      forall i | 0 <= i < |k|
        ensures k[i] == name[i] || ('a' <= name[i] <= 'z' && k[i] as int == name[i] as int - 32)
      {
        assert AsciiLower(k)[i] == name[i];
      }
    }
  }

  // ---------------------------------------------------------------------------
  // The local URL
  // ---------------------------------------------------------------------------

  /** `s.lstrip("/")` */
  function TrimLeadingSlashes(s: string): (r: string)
    ensures |r| <= |s| && r == s[|s| - |r|..]
    ensures r == [] || r[0] != '/'
    ensures forall k | 0 <= k < |s| - |r| :: s[k] == '/'
  {
    if s != [] && s[0] == '/' then TrimLeadingSlashes(s[1..]) else s
  }

  /** The base URL with exactly one '/' added when it does not already end in one. */
  function WithSlash(u: string): (r: string)
    ensures |r| >= 1 && r[|r| - 1] == '/'
    ensures u != [] && u[|u| - 1] == '/' ==> r == u
    ensures (u == [] || u[|u| - 1] != '/') ==> r == u + "/"
  {
    if u != [] && u[|u| - 1] == '/' then u else u + "/"
  }

  /** `pat` occurs somewhere in `t`. */
  predicate Occurs(pat: string, t: string)
    decreases |t|
  {
    |pat| <= |t| && (pat <= t || (t != [] && Occurs(pat, t[1..])))
  }

  const HttpScheme: string := "http://"

  predicate AuthorityChar(c: char)
  {
    '!' <= c <= '~' && c != '/' && c != '?' && c != '#' && c != ';' && c != '@' &&
    c != '[' && c != ']' && c != '\\'
  }

  predicate RefChar(c: char)
  {
    ' ' < c && c != ':' && c != '?' && c != '#' && c != ';'
  }

  predicate PlainAuthority(a: string)
  {
    a != [] && forall k | 0 <= k < |a| :: AuthorityChar(a[k])
  }

  /**
   * A base URL of the form `http://host[:port]`, optionally followed by one
   * '/': the form for which `urljoin` resolves a plain reference by appending it.
   */
  predicate PlainBase(u: string)
  {
    |u| > |HttpScheme| && u[..|HttpScheme|] == HttpScheme &&
    (PlainAuthority(u[|HttpScheme|..]) ||
     (u[|u| - 1] == '/' && PlainAuthority(u[|HttpScheme|..|u| - 1])))
  }

  /**
   * A reference that `urljoin` appends to such a base unchanged: no scheme,
   * query, fragment or parameters, no control or space characters, no empty
   * interior segment (urljoin drops those) and no "." or ".." segment.
   */
  predicate PlainRef(r: string)
  {
    (forall k | 0 <= k < |r| :: RefChar(r[k])) &&
    !Occurs("//", r) && !Occurs("/./", "/" + r + "/") && !Occurs("/../", "/" + r + "/")
  }

  /** Values whose f-string rendering is modelled, when truthy. */
  predicate Renderable(q: Json)
  {
    !Truthy(q) || Scalar(q)
  }

  /** `http://127.0.0.1:{port}`, the local service URL the command line builds. */
  function LocalServiceUrl(port: int): string
  {
    HttpScheme + "127.0.0.1:" + Decimal(port)
  }

  lemma DecimalIsAuthority(i: int)
    ensures forall k | 0 <= k < |Decimal(i)| :: AuthorityChar(Decimal(i)[k])
  {
    var d := Decimal(i);
    forall k | 0 <= k < |d| ensures AuthorityChar(d[k]) {
      if i >= 0 {
        assert IsDigit(Digits(i)[k]);
      } else if k > 0 {
        assert d[k] == Digits(-i)[k - 1];
        assert IsDigit(Digits(-i)[k - 1]);
      }
    }
  }

  /** Whatever the port, the local service URL is a plain base. */
  lemma LocalServiceUrlIsPlain(port: int)
    ensures PlainBase(LocalServiceUrl(port))
  {
    var d := Decimal(port);
    var host := "127.0.0.1:";
    var a := host + d;
    var u := LocalServiceUrl(port);
    assert u == HttpScheme + a;
    assert u[..|HttpScheme|] == HttpScheme;
    assert u[|HttpScheme|..] == a;
    DecimalIsAuthority(port);
    forall k | 0 <= k < |a| ensures AuthorityChar(a[k]) {
      if k >= |host| {
        assert a[k] == d[k - |host|];
      } else {
        assert a[k] == host[k];
      }
    }
  }

  /**
   * `urljoin(base-with-slash, path.lstrip("/"))`, then `"?" + query` when the
   * query is truthy. For a plain base and reference urljoin resolves the
   * reference by appending it to the base.
   */
  function LocalUrl(base: string, path: string, query: Json): string
    requires PlainBase(base) && PlainRef(TrimLeadingSlashes(path)) && Renderable(query)
  {
    WithQuery(WithSlash(base) + TrimLeadingSlashes(path), query)
  }

  /** The URL starts with the base and its trailing slash, and carries a '?' exactly when the query is truthy. */
  lemma LocalUrlShape(base: string, path: string, query: Json)
    requires PlainBase(base) && PlainRef(TrimLeadingSlashes(path)) && Renderable(query)
    ensures var url := LocalUrl(base, path, query);
      |url| >= |WithSlash(base)| && url[..|WithSlash(base)|] == WithSlash(base) &&
      (Truthy(query) <==> !NoQueryMark(url))
  {
    JoinedHasNoQueryMark(base, path);
    QueryMarkOnlyBeforeQuery(WithSlash(base) + TrimLeadingSlashes(path), query);
  }

  /** `f"{url}?{query}"` when the query is truthy, the URL itself otherwise. */
  function WithQuery(url: string, query: Json): string
    requires Renderable(query)
  {
    if Truthy(query) then url + "?" + PyStr(query) else url
  }

  lemma QueryMarkOnlyBeforeQuery(url: string, query: Json)
    requires Renderable(query) && NoQueryMark(url)
    ensures |WithQuery(url, query)| >= |url| && WithQuery(url, query)[..|url|] == url
    ensures Truthy(query) <==> !NoQueryMark(WithQuery(url, query))
  {
    if Truthy(query) {
      assert WithQuery(url, query)[|url|] == '?';
    }
  }

  predicate NoQueryMark(s: string)
  {
    forall k | 0 <= k < |s| :: s[k] != '?'
  }

  lemma PlainRefHasNoQueryMark(r: string)
    requires PlainRef(r)
    ensures NoQueryMark(r)
  {
    forall k | 0 <= k < |r| ensures r[k] != '?' {
      assert RefChar(r[k]);
    }
  }

  lemma PlainBaseHasNoQueryMark(base: string)
    requires PlainBase(base)
    ensures NoQueryMark(WithSlash(base))
  {
    var w := WithSlash(base);
    var auth := if PlainAuthority(base[|HttpScheme|..]) then base[|HttpScheme|..] else base[|HttpScheme|..|base| - 1];
    assert PlainAuthority(auth);
    assert w == HttpScheme + auth + "/";
    forall k | 0 <= k < |w| ensures w[k] != '?' {
      if k < |HttpScheme| {
        assert w[k] == HttpScheme[k];
      } else if k < |HttpScheme| + |auth| {
        assert w[k] == auth[k - |HttpScheme|];
        assert AuthorityChar(auth[k - |HttpScheme|]);
      }
    }
  }

  lemma NoQueryMarkConcat(a: string, b: string)
    requires NoQueryMark(a) && NoQueryMark(b)
    ensures NoQueryMark(a + b)
  {
    forall k | 0 <= k < |a + b| ensures (a + b)[k] != '?' {
      if k >= |a| {
        assert (a + b)[k] == b[k - |a|];
      }
    }
  }

  /** Neither a plain base nor a plain reference contains '?'. */
  lemma JoinedHasNoQueryMark(base: string, path: string)
    requires PlainBase(base) && PlainRef(TrimLeadingSlashes(path))
    ensures NoQueryMark(WithSlash(base) + TrimLeadingSlashes(path))
  {
    PlainBaseHasNoQueryMark(base);
    PlainRefHasNoQueryMark(TrimLeadingSlashes(path));
    NoQueryMarkConcat(WithSlash(base), TrimLeadingSlashes(path));
  }

  /** Splits a URL at its first '?': the part before, and the query after it if there is one. */
  function SplitQuery(url: string): (r: (string, Option<string>))
  {
    if url == [] then ([], None)
    else if url[0] == '?' then ([], Some(url[1..]))
    else ([url[0]] + SplitQuery(url[1..]).0, SplitQuery(url[1..]).1)
  }

  lemma {:induction false} SplitQueryAfter(s: string, rest: string)
    requires NoQueryMark(s)
    ensures SplitQuery(s + rest) == (s + SplitQuery(rest).0, SplitQuery(rest).1)
  {
    if s != [] {
      var t := s + rest;
      assert t[0] == s[0] && t[0] != '?';
      assert t[1..] == s[1..] + rest;
      SplitQueryAfter(s[1..], rest);
      assert [s[0]] + (s[1..] + SplitQuery(rest).0) == s + SplitQuery(rest).0;
    } else {
      assert s + rest == rest;
      assert s + SplitQuery(rest).0 == SplitQuery(rest).0;
    }
  }

  /**
   * The local service can take the URL apart again: up to the first '?' is
   * the base joined with the stripped path, and the query follows it exactly
   * when the query was truthy.
   */
  lemma LocalUrlSplits(base: string, path: string, query: Json)
    requires PlainBase(base) && PlainRef(TrimLeadingSlashes(path)) && Renderable(query)
    ensures SplitQuery(LocalUrl(base, path, query)) ==
      (WithSlash(base) + TrimLeadingSlashes(path), if Truthy(query) then Some(PyStr(query)) else None)
  {
    var joined := WithSlash(base) + TrimLeadingSlashes(path);
    var url := LocalUrl(base, path, query);
    assert url == WithQuery(joined, query);
    JoinedHasNoQueryMark(base, path);
    if Truthy(query) {
      var q := PyStr(query);
      assert url == joined + "?" + q;
      assert joined + "?" + q == joined + ("?" + q);
      SplitQueryWithTail(joined, q);
    } else {
      assert url == joined;
      SplitQueryPlain(joined);
    }
  }

  lemma SplitQueryWithTail(s: string, q: string)
    requires NoQueryMark(s)
    ensures SplitQuery(s + ("?" + q)) == (s, Some(q))
  {
    SplitQueryAfter(s, "?" + q);
    assert ("?" + q)[1..] == q;
    assert s + [] == s;
  }

  lemma SplitQueryPlain(s: string)
    requires NoQueryMark(s)
    ensures SplitQuery(s) == (s, None)
  {
    SplitQueryAfter(s, []);
    assert s + [] == s;
  }

  // ---------------------------------------------------------------------------
  // One received frame
  // ---------------------------------------------------------------------------

  /** A message off the connection: a decoded JSON document, or text `json.loads` rejects. */
  datatype Message = Text(data: Json) | Garbled(error: string)

  /** What the local service did with the request: answered, or raised (unreachable, timeout, ...). */
  datatype HttpOutcome =
    | Answered(status: int, headers: map<string, string>, text: string)
    | Raised(error: string)

  /** The request the agent issues to the local service; `body` is sent as its UTF-8 encoding. */
  datatype LocalRequest = LocalRequest(verb: Json, url: string, headers: map<string, Json>, body: string)

  /** The loop variable `p`: unbound until the first request frame, then its last payload. */
  datatype PState = Unbound | Bound(payload: Json)

  /** What the loop does after one frame: nothing, send one frame, or let the exception end the session. */
  datatype Reaction = Ignored | Reply(frame: Frame) | Abort

  datatype StepResult = StepResult(p: PState, reaction: Reaction, issued: Option<LocalRequest>)

  datatype Prepared = Ready(rid: Json, req: LocalRequest) | Failed(error: string)

  predicate IsRequest(m: Message)
  {
    m.Text? && m.data.JObject? && Get(m.data.fields, "type") == JStr("request")
  }

  function PayloadOf(m: Message): Json
    requires IsRequest(m)
  {
    Get(m.data.fields, "payload")
  }

  /** `p.get("headers") or {}` */
  function HeadersOf(payload: map<string, Json>): Json
  {
    var h := Get(payload, "headers");
    if Truthy(h) then h else JObject(map[])
  }

  /** `p.get("body") or ""` */
  function BodyOf(payload: map<string, Json>): Json
  {
    var b := Get(payload, "body");
    if Truthy(b) then b else JStr("")
  }

  /** The URL can be modelled for this payload: a string path whose stripped form is plain, and a renderable query. */
  predicate UrlModelled(payload: map<string, Json>)
  {
    (Get(payload, "path").JStr? ==> PlainRef(TrimLeadingSlashes(Get(payload, "path").s))) &&
    Renderable(Get(payload, "query"))
  }

  predicate Modelled(m: Message)
  {
    IsRequest(m) && PayloadOf(m).JObject? ==> UrlModelled(PayloadOf(m).fields)
  }

  /** The error `headers.pop(k, None)` raises on a truthy value that is not a dict. */
  function PopError(h: Json): string
  {
    if h.JList? then "pop expected at most 1 argument, got 2" else NoAttribute(h, "pop")
  }

  /**
   * Reads the request out of a payload, in the source's order: headers must
   * be a dict, the body a string, the path a string; the first that is not
   * raises, and the message of that exception is the failure.
   */
  function Prepare(payload: map<string, Json>, base: string): (r: Prepared)
    requires PlainBase(base) && UrlModelled(payload)
    ensures r.Ready? <==> HeadersOf(payload).JObject? && BodyOf(payload).JStr? && Get(payload, "path").JStr?
    ensures r.Ready? ==>
      r.rid == Get(payload, "id") &&
      r.req.verb == Get(payload, "method") &&
      r.req.headers == ForwardedHeaders(HeadersOf(payload).fields) &&
      r.req.body == BodyOf(payload).s &&
      r.req.url == LocalUrl(base, Get(payload, "path").s, Get(payload, "query"))
    ensures !HeadersOf(payload).JObject? ==> r == Failed(PopError(HeadersOf(payload)))
    ensures HeadersOf(payload).JObject? && !BodyOf(payload).JStr? ==>
      r == Failed(NoAttribute(BodyOf(payload), "encode"))
    ensures HeadersOf(payload).JObject? && BodyOf(payload).JStr? && !Get(payload, "path").JStr? ==>
      r == Failed(NoAttribute(Get(payload, "path"), "lstrip"))
  {
    var headers := HeadersOf(payload);
    var body := BodyOf(payload);
    var path := Get(payload, "path");
    if !headers.JObject? then Failed(PopError(headers))
    else if !body.JStr? then Failed(NoAttribute(body, "encode"))
    else if !path.JStr? then Failed(NoAttribute(path, "lstrip"))
    else
      var url := LocalUrl(base, path.s, Get(payload, "query"));
      Ready(Get(payload, "id"), LocalRequest(Get(payload, "method"), url, ForwardedHeaders(headers.fields), body.s))
  }

  /**
   * The exception handler: an error frame built from the current `p` if it
   * is a dict; otherwise `p.get` raises again (or `p` is unbound) and the
   * exception escapes the receive loop.
   */
  function Fallback(p: PState, message: string): (r: Reaction)
    ensures r.Reply? <==> p.Bound? && p.payload.JObject?
    ensures r.Reply? ==> r.frame == ErrorFrame(p.payload.fields, message)
    ensures !r.Reply? ==> r == Abort
  {
    if p.Bound? && p.payload.JObject? then Reply(ErrorFrame(p.payload.fields, message)) else Abort
  }

  /** The frame sent back once the local request was issued. */
  function Answer(payload: map<string, Json>, rid: Json, outcome: HttpOutcome): Frame
  {
    match outcome
    case Answered(status, headers, text) => Response(rid, status, ReturnedHeaders(headers), text)
    case Raised(e) => ErrorFrame(payload, e)
  }

  /**
   * The reply to an issued request answers that request: it carries the
   * payload's `id` whenever the payload has one, and the local service's
   * status, filtered headers and text, or status 502 if the call raised.
   */
  lemma AnswerCarriesRequestId(payload: map<string, Json>, outcome: HttpOutcome)
    ensures var f := Answer(payload, Get(payload, "id"), outcome);
      f.Response? &&
      ("id" in payload ==> f.id == payload["id"]) &&
      (outcome.Answered? ==>
        f.status == outcome.status && f.headers == ReturnedHeaders(outcome.headers) && f.body == outcome.text) &&
      (outcome.Raised? ==> f.status == UpstreamStatus && f.body == UpstreamErrorPrefix + outcome.error)
  {
  }

  /**
   * `or {}` and `or ""`: a payload without headers or body (or with empty
   * ones) is still forwarded, with no headers and an empty body.
   */
  lemma MissingHeadersAndBodyDefault(payload: map<string, Json>, base: string)
    requires PlainBase(base) && UrlModelled(payload)
    ensures !Truthy(Get(payload, "headers")) && !Truthy(Get(payload, "body")) && Get(payload, "path").JStr? ==>
      Prepare(payload, base).Ready?
    ensures Prepare(payload, base).Ready? && !Truthy(Get(payload, "headers")) ==> Prepare(payload, base).req.headers == map[]
    ensures Prepare(payload, base).Ready? && !Truthy(Get(payload, "body")) ==> Prepare(payload, base).req.body == ""
  {
  }

  /**
   * One iteration of the receive loop, from the frame received to the frame
   * sent (if any). Frames that are not requests are skipped; a request with
   * a dict payload is always answered by exactly one response frame, which
   * carries the local answer or a 502 error.
   */
  function Handle(p: PState, m: Message, base: string, outcome: HttpOutcome): (r: StepResult)
    requires PlainBase(base) && Modelled(m)
    ensures r.reaction.Reply? ==> r.reaction.frame.Response?
    ensures m.Text? && m.data.JObject? && !IsRequest(m) ==> r == StepResult(p, Ignored, None)
    ensures IsRequest(m) ==> r.p == Bound(PayloadOf(m))
    ensures IsRequest(m) ==> (r.reaction.Abort? <==> !PayloadOf(m).JObject?)
    ensures IsRequest(m) && PayloadOf(m).JObject? && r.issued.Some? && outcome.Answered? ==>
      r.reaction == Reply(Response(Get(PayloadOf(m).fields, "id"), outcome.status,
                                   ReturnedHeaders(outcome.headers), outcome.text))
    ensures IsRequest(m) && PayloadOf(m).JObject? && !(r.issued.Some? && outcome.Answered?) ==>
      r.reaction.Reply? &&
      r.reaction.frame.status == UpstreamStatus &&
      r.reaction.frame.id == GetOr(PayloadOf(m).fields, "id", JStr("unknown")) &&
      r.reaction.frame.headers == map["content-type" := "text/plain"] &&
      |r.reaction.frame.body| >= |UpstreamErrorPrefix| &&
      r.reaction.frame.body[..|UpstreamErrorPrefix|] == UpstreamErrorPrefix
    ensures IsRequest(m) && PayloadOf(m).JObject? ==>
      (r.issued.Some? <==> Prepare(PayloadOf(m).fields, base).Ready?)
    ensures IsRequest(m) && PayloadOf(m).JObject? && Prepare(PayloadOf(m).fields, base).Failed? ==>
      r.reaction == Reply(ErrorFrame(PayloadOf(m).fields, Prepare(PayloadOf(m).fields, base).error))
    ensures IsRequest(m) && PayloadOf(m).JObject? && r.issued.Some? && outcome.Raised? ==>
      r.reaction == Reply(ErrorFrame(PayloadOf(m).fields, outcome.error))
    ensures r.issued.Some? ==>
      (IsRequest(m) && PayloadOf(m).JObject? &&
       Prepare(PayloadOf(m).fields, base) == Ready(Get(PayloadOf(m).fields, "id"), r.issued.value))
    ensures !IsRequest(m) ==> r.p == p && r.issued == None
    ensures m.Garbled? ==> r == StepResult(p, Fallback(p, m.error), None)
    ensures m.Text? && !m.data.JObject? ==> r == StepResult(p, Fallback(p, NoAttribute(m.data, "get")), None)
  {
    match m
    case Garbled(e) => StepResult(p, Fallback(p, e), None)
    case Text(data) =>
      if !data.JObject? then StepResult(p, Fallback(p, NoAttribute(data, "get")), None)
      else if Get(data.fields, "type") != JStr("request") then StepResult(p, Ignored, None)
      else
        var cur := Get(data.fields, "payload");
        if !cur.JObject? then StepResult(Bound(cur), Abort, None)
        else
          match Prepare(cur.fields, base)
          case Failed(e) => StepResult(Bound(cur), Reply(ErrorFrame(cur.fields, e)), None)
          case Ready(rid, req) => StepResult(Bound(cur), Reply(Answer(cur.fields, rid, outcome)), Some(req))
  }

  /**
   * The request issued to the local service carries the payload's method and
   * body, its headers without any hop-by-hop header, and a URL under the base.
   */
  lemma IssuedRequestIsForwarded(p: PState, m: Message, base: string, outcome: HttpOutcome)
    requires PlainBase(base) && Modelled(m)
    ensures var r := Handle(p, m, base, outcome);
      r.issued.Some? ==>
        var req := r.issued.value;
        var payload := PayloadOf(m).fields;
        req.verb == Get(payload, "method") &&
        req.body == BodyOf(payload).s &&
        (forall k :: k in req.headers <==> k in HeadersOf(payload).fields && k !in HopByHop) &&
        req.url[..|WithSlash(base)|] == WithSlash(base) &&
        (Truthy(Get(payload, "query")) <==> !NoQueryMark(req.url))
  {
    if Handle(p, m, base, outcome).issued.Some? {
      var payload := PayloadOf(m).fields;
      LocalUrlShape(base, Get(payload, "path").s, Get(payload, "query"));
    }
  }
}
