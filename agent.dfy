/**
 * The agent's session and reconnect loops (run_client in client/cli.py):
 * registration, the frame sent first on each connection, the receive loop
 * built from Forward.Handle, and reconnection. Network I/O is replaced by
 * inputs: the messages a connection delivers and what the local service
 * answers to each request.
 */
module Agent {
  import opened Wrappers
  import opened PyJson
  import opened Frames
  import opened Forward

  // ---------------------------------------------------------------------------
  // Registration with the broker's HTTP API
  // ---------------------------------------------------------------------------

  datatype RegistrationCall = RegistrationCall(endpoint: string, body: map<string, Json>)

  /**
   * The registration request: a truthy username asks for that id at
   * /register, otherwise /random hands out a generated one; the TTL is sent
   * either way.
   */
  function Registration(username: Option<string>, ttl: int): (c: RegistrationCall)
    ensures c.endpoint == "/register" <==> username.Some? && username.value != ""
    ensures c.endpoint == "/register" || c.endpoint == "/random"
    ensures "ttl_seconds" in c.body && c.body["ttl_seconds"] == JInt(ttl)
    ensures "username" in c.body <==> c.endpoint == "/register"
    ensures "username" in c.body ==> c.body["username"] == JStr(username.value)
    ensures c.body.Keys <= {"username", "ttl_seconds"}
  {
    if username.Some? && username.value != "" then
      RegistrationCall("/register", map["username" := JStr(username.value), "ttl_seconds" := JInt(ttl)])
    else
      RegistrationCall("/random", map["ttl_seconds" := JInt(ttl)])
  }

  // ---------------------------------------------------------------------------
  // The broker's connection URL
  // ---------------------------------------------------------------------------

  /** Python's `s.replace(target, replacement)`: every non-overlapping occurrence, left to right. */
  function ReplaceAll(s: string, target: string, replacement: string): string
    requires target != []
    decreases |s|
  {
    if |s| < |target| then s
    else
      var hit := target <= s;
      (if hit then replacement else [s[0]]) + ReplaceAll(s[if hit then |target| else 1..], target, replacement)
  }

  /** The connection URL as the source computes it: every "http" in the server URL becomes "ws". */
  function WsUrlAsWritten(server: string): string
  {
    ReplaceAll(server, "http", "ws") + "/ws"
  }

  /** The connection URL with only the scheme rewritten (http to ws, https to wss). */
  function WsUrl(server: string): string
  {
    if "http" <= server then "ws" + server[4..] + "/ws" else server + "/ws"
  }

  /** A host whose name contains "http" is rewritten too, so the agent dials a different host. */
  lemma WsUrlAsWrittenRewritesHost()
    ensures WsUrlAsWritten("http://httpbin.org") == "ws://wsbin.org/ws"
  {
    NoHttpInBinOrg();
    RewritesHttpInHost("bin.org");
    HttpbinSpelling();
  }

  lemma HttpbinSpelling()
    ensures "http://httpbin.org" == "http://http" + "bin.org"
    ensures "ws://ws" + "bin.org" + "/ws" == "ws://wsbin.org/ws"
  {
  }

  lemma NoHttpInBinOrg()
    ensures !Occurs("http", "bin.org")
  {
    var tail := "bin.org";
    ShortNoOccurrence(tail[4..]);
    NoOccurrenceBefore('.', tail[4..]);
    assert tail[3..] == ['.'] + tail[4..];
    NoOccurrenceBefore('n', tail[3..]);
    assert tail[2..] == ['n'] + tail[3..];
    NoOccurrenceBefore('i', tail[2..]);
    assert tail[1..] == ['i'] + tail[2..];
    NoOccurrenceBefore('b', tail[1..]);
    assert tail == ['b'] + tail[1..];
  }

  lemma ShortNoOccurrence(t: string)
    requires |t| < 4
    ensures !Occurs("http", t)
  {
  }

  /** A character other than 'h' cannot start an occurrence of "http". */
  lemma NoOccurrenceBefore(c: char, t: string)
    requires c != 'h' && !Occurs("http", t)
    ensures !Occurs("http", [c] + t)
  {
    var u := [c] + t;
    assert u[1..] == t;
    if |u| >= 4 {
      assert u[..4][0] == c;
    }
  }

  /** With an http scheme and a host name starting with "http", both are rewritten. */
  lemma RewritesHttpInHost(tail: string)
    requires !Occurs("http", tail)
    ensures WsUrlAsWritten("http://http" + tail) == "ws://ws" + tail + "/ws"
  {
    assert forall k | 0 <= k < |"://"| :: "://"[k] != "http"[0];
    RewritesBoth("http", "ws", "://", tail);
    assert "http" + ("://" + ("http" + tail)) == "http://http" + tail;
    assert "ws" + ("://" + ("ws" + tail)) == "ws://ws" + tail;
  }

  /** A target at the start and again right after a separator free of its first letter is replaced both times. */
  lemma RewritesBoth(target: string, replacement: string, sep: string, tail: string)
    requires target != [] && !Occurs(target, tail)
    requires forall k | 0 <= k < |sep| :: sep[k] != target[0]
    ensures ReplaceAll(target + (sep + (target + tail)), target, replacement) == replacement + (sep + (replacement + tail))
  {
    ReplaceAllAfterHit(target, sep + (target + tail), replacement);
    KeepsPrefix(sep, target + tail, target, replacement);
    ReplaceAllAfterHit(target, tail, replacement);
    NoOccurrenceUnchanged(tail, target, replacement);
  }

  /** A string that starts with the target: the target is replaced and the rest is scanned on its own. */
  lemma ReplaceAllAfterHit(target: string, rest: string, replacement: string)
    requires target != []
    ensures ReplaceAll(target + rest, target, replacement) == replacement + ReplaceAll(rest, target, replacement)
  {
    assert target <= target + rest;
    ReplaceAllHit(target + rest, target, replacement);
    assert (target + rest)[|target|..] == rest;
  }

  /** A prefix without the first letter of the target is copied unchanged. */
  lemma {:induction false} KeepsPrefix(pre: string, s: string, target: string, replacement: string)
    requires target != [] && forall k | 0 <= k < |pre| :: pre[k] != target[0]
    ensures ReplaceAll(pre + s, target, replacement) == pre + ReplaceAll(s, target, replacement)
  {
    if pre != [] {
      calc {
        ReplaceAll(pre + s, target, replacement);
        { ReplaceAllMiss(pre + s, target, replacement);
          assert (pre + s)[0] == pre[0] && (pre + s)[1..] == pre[1..] + s; }
        [pre[0]] + ReplaceAll(pre[1..] + s, target, replacement);
        { KeepsPrefix(pre[1..], s, target, replacement); }
        [pre[0]] + (pre[1..] + ReplaceAll(s, target, replacement));
        { assert [pre[0]] + pre[1..] == pre; }
        pre + ReplaceAll(s, target, replacement);
      }
    } else {
      assert pre + s == s;
    }
  }

  /** One step of the replacement where the target starts here. */
  lemma ReplaceAllHit(s: string, target: string, replacement: string)
    requires target != [] && target <= s
    ensures ReplaceAll(s, target, replacement) == replacement + ReplaceAll(s[|target|..], target, replacement)
  {
  }

  /** One step of the replacement where the target does not start here. */
  lemma ReplaceAllMiss(s: string, target: string, replacement: string)
    requires target != [] && s != [] && s[0] != target[0]
    ensures ReplaceAll(s, target, replacement) == [s[0]] + ReplaceAll(s[1..], target, replacement)
  {
    if |s| >= |target| {
      assert s[..|target|][0] != target[0];
    }
  }

  /** Replacing a string that does not occur changes nothing. */
  lemma {:induction false} NoOccurrenceUnchanged(s: string, target: string, replacement: string)
    requires target != [] && !Occurs(target, s)
    ensures ReplaceAll(s, target, replacement) == s
    decreases |s|
  {
    if |s| >= |target| {
      NoOccurrenceUnchanged(s[1..], target, replacement);
      assert [s[0]] + s[1..] == s;
    }
  }

  /** For a scheme of http or https and a host and path free of "http", both forms agree. */
  lemma {:induction false} WsUrlAgreesWithoutHttpInHost(server: string)
    requires "http" <= server && !Occurs("http", server[4..])
    ensures WsUrlAsWritten(server) == WsUrl(server)
  {
    NoOccurrenceUnchanged(server[4..], "http", "ws");
  }

  lemma WsUrlAgreesWhenSchemeOnly(server: string)
    ensures "http" <= server && !Occurs("http", server[4..]) ==> WsUrlAsWritten(server) == WsUrl(server)
  {
    if "http" <= server && !Occurs("http", server[4..]) {
      WsUrlAgreesWithoutHttpInHost(server);
    }
  }

  /** Only the four letters of the scheme's "http" are rewritten. */
  lemma WsUrlOfHttp(rest: string)
    ensures WsUrl("http" + rest) == "ws" + rest + "/ws"
  {
    assert "http" <= "http" + rest;
    assert ("http" + rest)[4..] == rest;
  }

  /** Correct scheme rewriting for both schemes the server URL can have. */
  lemma WsUrlSchemes(host: string)
    ensures WsUrl("http://" + host) == "ws://" + host + "/ws"
    ensures WsUrl("https://" + host) == "wss://" + host + "/ws"
  {
    WsUrlOfHttp("://" + host);
    WsUrlOfHttp("s://" + host);
    assert "http" + ("://" + host) == "http://" + host;
    assert "http" + ("s://" + host) == "https://" + host;
  }

  // ---------------------------------------------------------------------------
  // One connection
  // ---------------------------------------------------------------------------

  /** What one connection produced: the frames sent after registration, the final `p`, and whether an exception ended it. */
  datatype Trace = Trace(sent: seq<Frame>, p: PState, aborted: bool)

  /** Every message on the connection and every local answer can be modelled. */
  predicate ConnectionModelled(msgs: seq<Message>, outcomes: seq<HttpOutcome>)
  {
    |outcomes| == |msgs| && forall k | 0 <= k < |msgs| :: Modelled(msgs[k])
  }

  /**
   * The body of the receive loop, as a value: given `p`, the message received
   * and the local service's answer, what the iteration does.
   */
  type Handler = (PState, Message, HttpOutcome) --> StepResult

  /** The loop body of the source for a given local base URL. */
  function Body(base: string): Handler
  {
    (p: PState, m: Message, o: HttpOutcome) requires PlainBase(base) && Modelled(m) => Handle(p, m, base, o)
  }

  /** What the loop needs from its body: it accepts every modelled message and replies only with response frames. */
  ghost predicate WellBehaved(h: Handler)
  {
    forall p, m, o | Modelled(m) :: h.requires(p, m, o) && (h(p, m, o).reaction.Reply? ==> h(p, m, o).reaction.frame.Response?)
  }

  /** A body that skips every decoded frame that is not a request, leaving `p` alone. */
  ghost predicate SkipsNonRequests(h: Handler)
  {
    forall p, m, o | Modelled(m) && m.Text? && m.data.JObject? && !IsRequest(m) ::
      h.requires(p, m, o) && h(p, m, o) == StepResult(p, Ignored, None)
  }

  /** `f` is the reply to the request `m`: a response carrying the request's `id` whenever its payload has one. */
  predicate Answers(f: Frame, m: Message)
  {
    IsRequest(m) && PayloadOf(m).JObject? && f.Response? &&
    ("id" in PayloadOf(m).fields ==> f.id == PayloadOf(m).fields["id"])
  }

  /** A body that answers every request with a dict payload by exactly one frame for it. */
  ghost predicate AnswersRequests(h: Handler)
  {
    forall p, m, o | Modelled(m) && IsRequest(m) && PayloadOf(m).JObject? ::
      h.requires(p, m, o) && h(p, m, o).reaction.Reply? && Answers(h(p, m, o).reaction.frame, m)
  }

  /** The source's loop body has all three properties. */
  lemma BodyWellBehaved(base: string)
    requires PlainBase(base)
    ensures WellBehaved(Body(base)) && SkipsNonRequests(Body(base)) && AnswersRequests(Body(base))
  {
  }

  /**
   * The receive loop over the messages of one connection, `outcomes[k]`
   * being the local service's answer if message k leads to a request. The
   * loop stops at the first exception that escapes its body.
   */
  function Run(h: Handler, p0: PState, msgs: seq<Message>, outcomes: seq<HttpOutcome>): (t: Trace)
    requires WellBehaved(h) && ConnectionModelled(msgs, outcomes)
    ensures |t.sent| <= |msgs|
    ensures forall k | 0 <= k < |t.sent| :: t.sent[k].Response?
  {
    RunTo(h, p0, msgs, outcomes, |msgs|)
  }

  /** The loop after it has taken the first `n` messages. */
  function RunTo(h: Handler, p0: PState, msgs: seq<Message>, outcomes: seq<HttpOutcome>, n: nat): (t: Trace)
    requires WellBehaved(h) && ConnectionModelled(msgs, outcomes) && n <= |msgs|
    ensures |t.sent| <= n
    ensures forall k | 0 <= k < |t.sent| :: t.sent[k].Response?
  {
    if n == 0 then Trace([], p0, false)
    else
      var t := RunTo(h, p0, msgs, outcomes, n - 1);
      if t.aborted then t else Extend(t, h(t.p, msgs[n - 1], outcomes[n - 1]))
  }

  /** The trace after one more iteration of the loop. */
  function Extend(t: Trace, step: StepResult): (r: Trace)
    requires step.reaction.Reply? ==> step.reaction.frame.Response?
    ensures r.p == step.p && r.aborted == step.reaction.Abort?
    ensures r.sent == if step.reaction.Reply? then t.sent + [step.reaction.frame] else t.sent
  {
    match step.reaction
    case Ignored => Trace(t.sent, step.p, false)
    case Reply(f) => Trace(t.sent + [f], step.p, false)
    case Abort => Trace(t.sent, step.p, true)
  }

  /** After the loop has been left at message `i`, the messages after it are not looked at. */
  lemma {:induction false} StaysAborted(h: Handler, p0: PState, msgs: seq<Message>, outcomes: seq<HttpOutcome>, i: nat, n: nat)
    requires WellBehaved(h) && ConnectionModelled(msgs, outcomes) && i <= n <= |msgs|
    requires RunTo(h, p0, msgs, outcomes, i).aborted
    ensures RunTo(h, p0, msgs, outcomes, n) == RunTo(h, p0, msgs, outcomes, i)
    decreases n
  {
    if n > i {
      StaysAborted(h, p0, msgs, outcomes, i, n - 1);
    }
  }

  /** The first `n` iterations depend only on the first `n` messages and answers. */
  lemma {:induction false} RunToPrefix(h: Handler, p0: PState, msgs: seq<Message>, outcomes: seq<HttpOutcome>,
                                       msgs': seq<Message>, outcomes': seq<HttpOutcome>, n: nat)
    requires WellBehaved(h) && ConnectionModelled(msgs, outcomes) && ConnectionModelled(msgs', outcomes')
    requires n <= |msgs| && n <= |msgs'| && msgs[..n] == msgs'[..n] && outcomes[..n] == outcomes'[..n]
    ensures RunTo(h, p0, msgs, outcomes, n) == RunTo(h, p0, msgs', outcomes', n)
    decreases n
  {
    if n > 0 {
      assert msgs[..n - 1] == msgs[..n][..n - 1] && msgs'[..n - 1] == msgs'[..n][..n - 1];
      assert outcomes[..n - 1] == outcomes[..n][..n - 1] && outcomes'[..n - 1] == outcomes'[..n][..n - 1];
      assert msgs[n - 1] == msgs[..n][n - 1] && msgs'[n - 1] == msgs'[..n][n - 1];
      assert outcomes[n - 1] == outcomes[..n][n - 1] && outcomes'[n - 1] == outcomes'[..n][n - 1];
      RunToPrefix(h, p0, msgs, outcomes, msgs', outcomes', n - 1);
    }
  }

  /** Once the loop has been left, messages that would have come later change nothing. */
  lemma AbortIsFinal(h: Handler, p0: PState, msgs: seq<Message>, outcomes: seq<HttpOutcome>,
                     more: seq<Message>, moreOutcomes: seq<HttpOutcome>)
    requires WellBehaved(h) && ConnectionModelled(msgs, outcomes) && ConnectionModelled(more, moreOutcomes)
    requires Run(h, p0, msgs, outcomes).aborted
    ensures ConnectionModelled(msgs + more, outcomes + moreOutcomes)
    ensures Run(h, p0, msgs + more, outcomes + moreOutcomes) == Run(h, p0, msgs, outcomes)
  {
    var all, allOutcomes := msgs + more, outcomes + moreOutcomes;
    assert forall k | 0 <= k < |all| :: all[k] == if k < |msgs| then msgs[k] else more[k - |msgs|];
    assert all[..|msgs|] == msgs[..|msgs|] && allOutcomes[..|msgs|] == outcomes[..|msgs|];
    RunToPrefix(h, p0, all, allOutcomes, msgs, outcomes, |msgs|);
    StaysAborted(h, p0, all, allOutcomes, |msgs|, |all|);
  }

  /**
   * With a body that skips non-requests, a connection that delivers no
   * request sends nothing after registering and leaves `p` as it was.
   */
  lemma NoRequestNoReply(h: Handler, p0: PState, msgs: seq<Message>, outcomes: seq<HttpOutcome>)
    requires WellBehaved(h) && SkipsNonRequests(h) && ConnectionModelled(msgs, outcomes)
    requires forall k | 0 <= k < |msgs| :: msgs[k].Text? && msgs[k].data.JObject? && !IsRequest(msgs[k])
    ensures Run(h, p0, msgs, outcomes) == Trace([], p0, false)
  {
    NoRequestNoReplyTo(h, p0, msgs, outcomes, |msgs|);
  }

  lemma {:induction false} NoRequestNoReplyTo(h: Handler, p0: PState, msgs: seq<Message>, outcomes: seq<HttpOutcome>, n: nat)
    requires WellBehaved(h) && SkipsNonRequests(h) && ConnectionModelled(msgs, outcomes) && n <= |msgs|
    requires forall k | 0 <= k < |msgs| :: msgs[k].Text? && msgs[k].data.JObject? && !IsRequest(msgs[k])
    ensures RunTo(h, p0, msgs, outcomes, n) == Trace([], p0, false)
    decreases n
  {
    if n > 0 {
      NoRequestNoReplyTo(h, p0, msgs, outcomes, n - 1);
    }
  }

  /** The request frames among the first `n` messages, in the order they arrived. */
  function RequestsIn(msgs: seq<Message>, n: nat): (rs: seq<Message>)
    requires n <= |msgs|
    ensures |rs| <= n
    ensures forall j | 0 <= j < |rs| :: IsRequest(rs[j])
  {
    if n == 0 then []
    else RequestsIn(msgs, n - 1) + (if IsRequest(msgs[n - 1]) then [msgs[n - 1]] else [])
  }

  /** Every message decodes to an object, and every request in it carries a dict payload. */
  predicate WellFormedTraffic(msgs: seq<Message>)
  {
    forall k | 0 <= k < |msgs| ::
      msgs[k].Text? && msgs[k].data.JObject? && (IsRequest(msgs[k]) ==> PayloadOf(msgs[k]).JObject?)
  }

  /**
   * No request is dropped: on well-formed traffic the connection stays up,
   * and the frames it sends are exactly one reply per request, in the order
   * the requests arrived.
   */
  lemma RequestsAnswered(h: Handler, p0: PState, msgs: seq<Message>, outcomes: seq<HttpOutcome>)
    requires WellBehaved(h) && SkipsNonRequests(h) && AnswersRequests(h) && ConnectionModelled(msgs, outcomes)
    requires WellFormedTraffic(msgs)
    ensures var t := Run(h, p0, msgs, outcomes);
      var rs := RequestsIn(msgs, |msgs|);
      !t.aborted && |t.sent| == |rs| && forall j | 0 <= j < |rs| :: Answers(t.sent[j], rs[j])
  {
    RequestsAnsweredTo(h, p0, msgs, outcomes, |msgs|);
  }

  lemma {:induction false} RequestsAnsweredTo(h: Handler, p0: PState, msgs: seq<Message>, outcomes: seq<HttpOutcome>, n: nat)
    requires WellBehaved(h) && SkipsNonRequests(h) && AnswersRequests(h) && ConnectionModelled(msgs, outcomes)
    requires WellFormedTraffic(msgs) && n <= |msgs|
    ensures var t := RunTo(h, p0, msgs, outcomes, n);
      var rs := RequestsIn(msgs, n);
      !t.aborted && |t.sent| == |rs| && forall j | 0 <= j < |rs| :: Answers(t.sent[j], rs[j])
    decreases n
  {
    if n > 0 {
      RequestsAnsweredTo(h, p0, msgs, outcomes, n - 1);
      var t := RunTo(h, p0, msgs, outcomes, n - 1);
      var rs := RequestsIn(msgs, n - 1);
      var m := msgs[n - 1];
      assert Modelled(m);
      var step := h(t.p, m, outcomes[n - 1]);
      if IsRequest(m) {
        var f := step.reaction.frame;
        assert Answers(f, m);
        assert RequestsIn(msgs, n) == rs + [m];
        assert RunTo(h, p0, msgs, outcomes, n).sent == t.sent + [f];
      } else {
        assert step == StepResult(t.p, Ignored, None);
        assert RequestsIn(msgs, n) == rs;
      }
    }
  }

  /**
   * One connection: the registration frame first, then one frame per
   * answered message, until the messages run out or an exception ends the
   * session.
   */
  method Session(tunnelId: string, h: Handler, p0: PState, msgs: seq<Message>, outcomes: seq<HttpOutcome>)
    returns (sent: seq<Frame>, p: PState, aborted: bool)
    requires WellBehaved(h) && ConnectionModelled(msgs, outcomes)
    ensures |sent| >= 1 && sent[0] == Register(tunnelId)
    ensures Trace(sent[1..], p, aborted) == Run(h, p0, msgs, outcomes)
    ensures |sent| <= |msgs| + 1 && forall j | 1 <= j < |sent| :: sent[j].Response?
  {
    sent := [Register(tunnelId)];
    p, aborted := p0, false;
    var i := 0;
    while i < |msgs| && !aborted
      invariant 0 <= i <= |msgs|
      invariant |sent| >= 1 && sent[0] == Register(tunnelId)
      invariant Trace(sent[1..], p, aborted) == RunTo(h, p0, msgs, outcomes, i)
    {
      var step := h(p, msgs[i], outcomes[i]);
      p := step.p;
      match step.reaction {
        case Ignored =>
        case Reply(f) =>
          assert (sent + [f])[1..] == sent[1..] + [f];
          sent := sent + [f];
        case Abort =>
          aborted := true;
      }
      i := i + 1;
    }
    if aborted {
      StaysAborted(h, p0, msgs, outcomes, i, |msgs|);
    }
    assert forall j | 1 <= j < |sent| :: sent[j] == sent[1..][j - 1];
  }

  /** One try of the outer loop: the connection was refused, or it delivered these messages. */
  datatype Attempt = Refused | Connected(msgs: seq<Message>, outcomes: seq<HttpOutcome>)

  predicate AttemptModelled(a: Attempt)
  {
    a.Connected? ==> ConnectionModelled(a.msgs, a.outcomes)
  }

  /**
   * What an attempt puts on the wire: nothing if refused; otherwise the
   * registration frame for the id, then at most one response frame per message.
   */
  predicate WireOf(a: Attempt, w: seq<Frame>, tunnelId: string)
  {
    && (a.Refused? ==> w == [])
    && (a.Connected? ==>
         |w| >= 1 && w[0] == Register(tunnelId) && |w| <= |a.msgs| + 1 &&
         forall j | 1 <= j < |w| :: w[j].Response?)
  }

  /**
   * The reconnect loop over a finite run of attempts. It dials the URL as
   * the source computes it, which is the intended one when "http" occurs
   * only in the scheme. Every connection that opens sends the registration
   * frame for the same id before anything else, and only response frames
   * after it. The loop variable `p` lives in
   * the enclosing function, so it carries over from one connection to the next.
   */
  method RunClient(server: string, tunnelId: string, attempts: seq<Attempt>, base: string)
    returns (target: string, wire: seq<seq<Frame>>)
    requires PlainBase(base)
    requires forall k | 0 <= k < |attempts| :: AttemptModelled(attempts[k])
    ensures target == WsUrlAsWritten(server)
    ensures "http" <= server && !Occurs("http", server[4..]) ==> target == WsUrl(server)
    ensures |wire| == |attempts|
    ensures forall k | 0 <= k < |attempts| :: WireOf(attempts[k], wire[k], tunnelId)
  {
    target := WsUrlAsWritten(server);
    WsUrlAgreesWhenSchemeOnly(server);
    BodyWellBehaved(base);
    wire := [];
    var p := Unbound;
    var i := 0;
    while i < |attempts|
      invariant 0 <= i <= |attempts|
      invariant |wire| == i
      invariant forall k | 0 <= k < i :: WireOf(attempts[k], wire[k], tunnelId)
    {
      var sent: seq<Frame> := [];
      match attempts[i] {
        case Refused =>
        case Connected(msgs, outcomes) =>
          assert AttemptModelled(attempts[i]);
          var p', aborted;
          sent, p', aborted := Session(tunnelId, Body(base), p, msgs, outcomes);
          p := p';
      }
      assert WireOf(attempts[i], sent, tunnelId);
      wire := wire + [sent];
      i := i + 1;
    }
  }
}
