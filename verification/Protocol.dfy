// The event loop on top of the response parser: one fresh connection per
// request, one buffer that every response overwrites.

module Protocol {
  import opened Wrappers
  import opened Decimal
  import opened HttpText
  import opened HttpParser
  import opened HttpReceive
  import opened HttpReference
  import Lines = HttpLines
  import opened Mapping

  const MAX_HEADER := 8192
  const INCOMING := 6 * 1048576 + 8192

  const NEXT_PATH := "/2018-06-01/runtime/invocation/next"
  const INVOCATION := "/2018-06-01/runtime/invocation/"
  const HANDLER_ERROR :=
    "{\"errorMessage\":\"handler returned a negative response length\"," +
    "\"errorType\":\"Runtime.HandlerError\",\"stackTrace\":[]}"

  // ----- texts -----

  // A %s argument ends at a NUL.
  function UpToNul(s: string): string {
    if s == [] || s[0] == '\0' then [] else [s[0]] + UpToNul(s[1..])
  }

  // snprintf into n bytes, the terminator included.
  function Cut(s: string, n: nat): string
    requires n > 0
  {
    if |s| < n then s else s[..n - 1]
  }

  // "%.*s" of a slice of the buffer; a negative precision counts as none.
  function SliceText(buf: seq<char>, s: Slice): string {
    var from := Min(s.off, |buf|);
    var to := if s.len < 0 then |buf| else Min(s.off + s.len, |buf|);
    UpToNul(buf[from..to])
  }

  function InvocationPath(id: string, suffix: string): string {
    Cut(INVOCATION + UpToNul(id) + suffix, 256)
  }

  function RequestHead(verb: string, path: string, host: string, length: nat): string {
    Cut((verb + " " + path + " HTTP/1.1") + "\r\n" + ("Host: " + host) + "\r\n" + "Content-Type: application/json"
        + "\r\n" + ("Content-Length: " + Text(length)) + "\r\n" + "\r\n", MAX_HEADER)
  }

  function RequestText(verb: string, path: string, host: string, content: string): string {
    RequestHead(verb, path, host, |content|) + content
  }

  lemma {:induction false} NoNul(s: string)
    ensures UpToNul(s) == s <==> '\0' !in s
    ensures |UpToNul(s)| <= |s|
  {
    if s != [] {
      NoNul(s[1..]);
      assert s == [s[0]] + s[1..];
    }
  }

  // The path names the invocation in full exactly if the id fits into the 256
  // bytes of the path buffer and has no NUL.
  lemma PathCarriesIdIff(id: string, suffix: string)
    requires suffix == "/response" || suffix == "/error"
    ensures InvocationPath(id, suffix) == INVOCATION + id + suffix
       <==> ('\0' !in id && |id| <= 255 - |INVOCATION| - |suffix|)
  {
    NoNul(id);
    var full := INVOCATION + id + suffix;
    if InvocationPath(id, suffix) == full {
      assert |InvocationPath(id, suffix)| <= 255;
      assert |UpToNul(id)| == |id|;
      UpToNulPrefix(id);
    }
  }

  lemma {:induction false} UpToNulPrefix(s: string)
    ensures UpToNul(s) <= s
  {
    if s != [] && s[0] != '\0' {
      UpToNulPrefix(s[1..]);
      assert s == [s[0]] + s[1..];
    }
  }

  function RequestLines(verb: string, path: string, host: string, length: nat): seq<string> {
    [verb + " " + path + " HTTP/1.1", "Host: " + host, "Content-Type: application/json",
     "Content-Length: " + Text(length)]
  }

  // A request is a message of four lines and its content, framed by its own
  // Content-Length field, exactly if the head fits into its buffer.
  lemma RequestFramedIff(verb: string, path: string, host: string, content: string)
    ensures var lines := RequestLines(verb, path, host, |content|);
      && (RequestText(verb, path, host, content) == Response(lines, content)
          <==> |Response(lines, "")| < MAX_HEADER)
      && Field(lines, LENGTH_NAME) == Some(Text(|content|))
      && AllDigits(Text(|content|)) && Value(Text(|content|)) == |content|
  {
    hide Digits, Response, Cut;
    var lines, value := RequestLines(verb, path, host, |content|), Text(|content|);
    HeadOfFour(lines);
    ResponseIs(lines, content);
    var full := lines[0] + "\r\n" + lines[1] + "\r\n" + lines[2] + "\r\n" + lines[3] + "\r\n" + "\r\n";
    assert full == Head(lines) + "\r\n";
    assert RequestHead(verb, path, host, |content|) == Cut(full, MAX_HEADER);
    CutIs(full, MAX_HEADER);
    LengthField(lines[3], value);
  }

  lemma HeadOfFour(lines: seq<string>)
    requires |lines| == 4
    ensures Head(lines) == lines[0] + "\r\n" + lines[1] + "\r\n" + lines[2] + "\r\n" + lines[3] + "\r\n"
  {
    assert lines[..3][..2] == lines[..2] && lines[..2][..1] == lines[..1] && lines[..1][..0] == [];
    assert Head(lines[..1]) == lines[0] + "\r\n";
    assert Head(lines[..2]) == Head(lines[..1]) + lines[1] + "\r\n";
    assert Head(lines[..3]) == Head(lines[..2]) + lines[2] + "\r\n";
  }

  lemma ResponseIs(lines: seq<string>, content: string)
    ensures Response(lines, "") == Head(lines) + "\r\n"
    ensures Response(lines, content) == Head(lines) + "\r\n" + content
  {
  }

  lemma CutIs(s: string, n: nat)
    requires n > 0
    ensures if |s| < n then Cut(s, n) == s else |Cut(s, n)| < |s|
  {
  }

  lemma LengthField(line: string, value: string)
    requires line == "Content-Length: " + value && AllDigits(value) && value != []
    ensures HasName(line, LENGTH_NAME) && FieldValue(line) == value
  {
    assert LENGTH_NAME + ": " == "Content-Length: ";
    assert IsDigit(value[0]) && IsDigit(value[|value| - 1]);
    SimpleFieldParts(line, LENGTH_NAME, value);
  }

  // ----- what a response says -----

  // A response that completes, fits, and is framed so that chunking is
  // irrelevant.
  predicate Orderly(data: seq<char>, capacity: nat) {
    && |data| < capacity
    && Determined(data)
    && OneShot(data, 0, NO_HEADER).Complete?
  }

  // A response to a poll also names the invocation.
  predicate OrderlyPoll(data: seq<char>) {
    && Orderly(data, INCOMING)
    && var id := OneShot(data, 0, NO_HEADER).requestId; id.Some? && id.value.len >= 0
  }

  function IdOf(data: seq<char>): string
    requires OrderlyPoll(data)
  {
    SliceText(data, OneShot(data, 0, NO_HEADER).requestId.value)
  }

  function BodyOf(data: seq<char>): string
    requires OrderlyPoll(data)
  {
    OneShotInside(data, 0, NO_HEADER);
    data[OneShot(data, 0, NO_HEADER).bodyStart..]
  }

  predicate SliceInside(data: seq<char>, s: Option<Slice>) {
    s.Some? ==> s.value.off + s.value.len <= |data|
  }

  // Body and request id lie inside the stream.
  lemma {:induction false} OneShotInside(data: seq<char>, pp: nat, h: Header)
    requires HeaderOk(h, pp) && SliceInside(data, h.requestId)
    ensures var o := OneShot(data, pp, h);
      o.Complete? ==> o.bodyStart <= |data| && SliceInside(data, o.requestId)
    decreases |data| - pp
  {
    if pp < |data| {
      if data[pp] == ':' {
        OneShotInside(data, pp + 1, h.(delimiter := Some(pp)));
      } else if data[pp] != '\n' {
        OneShotInside(data, pp + 1, h);
      } else {
        var b := LineBreak(data, |data|, pp, h);
        if b.NextLine? {
          OneShotInside(data, pp + 1, b.h);
        }
      }
    }
  }

  // For a response made of plain field lines, the invocation is named by the
  // field that the reference finds, and its body is the body.
  lemma PollSaysFields(lines: seq<string>, body: string)
    requires PlainLines(lines) && |Response(lines, body)| < INCOMING
    requires Field(lines, ID_NAME).Some? && '\0' !in Field(lines, ID_NAME).value
    requires var length := Field(lines, LENGTH_NAME);
      length.Some? && AllDigits(length.value) && |body| == Value(length.value)
    ensures OrderlyPoll(Response(lines, body))
    ensures IdOf(Response(lines, body)) == Field(lines, ID_NAME).value
    ensures BodyOf(Response(lines, body)) == body
  {
    hide PlainLine, FieldValue, OneShot, HeadersEnd, NumbersLocal;
    var data := Response(lines, body);
    var h := HeadersRead(lines, body);
    NumbersDetermined(data);
    NoNul(Field(lines, ID_NAME).value);
  }

  // ----- sending -----

  // One connection: what the peer answers and in which sizes, and how much
  // each send takes.
  datatype Exchange = Exchange(answer: seq<char>, sizes: seq<nat>, sends: seq<nat>)

  // The sending side of a socket: at least one byte goes out per call.
  class Outgoing {
    var delivered: seq<char>
    var sends: seq<nat>

    constructor (sends: seq<nat>)
      ensures delivered == []
    {
      delivered, this.sends := [], sends;
    }

    method Send(bytes: seq<char>) returns (n: nat)
      requires bytes != []
      modifies this
      ensures 0 < n <= |bytes| && delivered == old(delivered) + bytes[..n]
    {
      n := |bytes|;
      if sends != [] {
        n := if sends[0] == 0 then 1 else Min(sends[0], |bytes|);
        sends := sends[1..];
      }
      delivered := delivered + bytes[..n];
    }

    // Every byte, in order, whatever the single calls take.
    method SendAll(bytes: seq<char>)
      modifies this
      ensures delivered == old(delivered) + bytes
    {
      var total := 0;
      while total < |bytes|
        invariant 0 <= total <= |bytes|
        invariant delivered == old(delivered) + bytes[..total]
      {
        var n := Send(bytes[total..]);
        assert bytes[..total] + bytes[total..][..n] == bytes[..total + n];
        total := total + n;
      }
      assert bytes[..total] == bytes;
    }
  }

  // ----- the event loop -----

  // A handler: the number of the invocation and its body give a response, or
  // None for a negative length.  The number stands for the handler's state.
  type Handler = (nat, seq<char>) -> Option<seq<char>>

  datatype Stop = ConnectFailed | ResponseFailed(outcome: Outcome) | RequestIdMissing | NullBody

  // What the peers must have received from invocation i on: for each pair of
  // connections a poll, then a POST to the invocation that this poll named,
  // with the handler's result for this poll's body.
  function Expected(script: seq<Exchange>, handler: Handler, host: string, i: nat): seq<seq<char>>
    requires Playable(script)
  {
    if script == [] then []
    else
      [RequestText("GET", NEXT_PATH, host, ""), Reply(script[0].answer, handler, host, i)]
      + Expected(script[2..], handler, host, i + 1)
  }

  function Reply(data: seq<char>, handler: Handler, host: string, i: nat): seq<char>
    requires OrderlyPoll(data)
  {
    match handler(i, BodyOf(data))
    case Some(response) => RequestText("POST", InvocationPath(IdOf(data), "/response"), host, response)
    case None => RequestText("POST", InvocationPath(IdOf(data), "/error"), host, HANDLER_ERROR)
  }

  // Polls and acknowledgements alternate.
  predicate Playable(script: seq<Exchange>) {
    script == [] ||
    (&& |script| >= 2 && OrderlyPoll(script[0].answer) && Orderly(script[1].answer, MAX_HEADER)
     && Playable(script[2..]))
  }

  // The part of a script that is played before an exchange goes wrong.
  function Good(script: seq<Exchange>): (g: seq<Exchange>)
    ensures Playable(g) && g <= script && (Playable(script) ==> g == script)
    decreases |script|
  {
    if |script| >= 2 && OrderlyPoll(script[0].answer) && Orderly(script[1].answer, MAX_HEADER) then
      var g := [script[0], script[1]] + Good(script[2..]);
      assert g[2..] == Good(script[2..]);
      g
    else []
  }

  lemma GoodStep(script: seq<Exchange>, handler: Handler, host: string, i: nat, log: seq<seq<char>>)
    requires Good(script) != []
    ensures |script| >= 2 && OrderlyPoll(script[0].answer) && Orderly(script[1].answer, MAX_HEADER)
    ensures log + Expected(Good(script), handler, host, i) ==
      log + [RequestText("GET", NEXT_PATH, host, "")] + [Reply(script[0].answer, handler, host, i)]
      + Expected(Good(script[1..][1..]), handler, host, i + 1)
    ensures Playable(script) ==> Playable(script[1..][1..])
  {
    assert script[1..][1..] == script[2..] && Good(script)[2..] == Good(script[2..]);
  }

  lemma GoodEnds(script: seq<Exchange>, handler: Handler, host: string, i: nat)
    requires Good(script) == []
    ensures Expected(Good(script), handler, host, i) == [] && (Playable(script) ==> script == [])
  {
  }

  // ----- what the peers see of a run -----

  // A head and the content; the head begins as given.
  ghost predicate Message(text: seq<char>, start: string, content: seq<char>) {
    exists head :: start <= head && text == head + content
  }

  ghost predicate PollSent(text: seq<char>) {
    Message(text, "GET " + "/2018-06-01/runtime/invocation/next" + " HTTP/1.1\r\n", "")
  }

  // How a request to an endpoint of an invocation begins.
  function PostLine(id: string, endpoint: string): string {
    "POST " + "/2018-06-01/runtime/invocation/" + id + endpoint
  }

  // The request that answers a poll: to the error endpoint of its invocation
  // exactly if there is no result, and to the response endpoint with the result
  // exactly if there is one; for ids that fit with them into the path, which has
  // 255 bytes in all.
  ghost predicate ResultSent(id: string, result: Option<seq<char>>, text: seq<char>) {
    var toError, toResponse := PostLine(id, "/error HTTP/1.1\r\n"), PostLine(id, "/response HTTP/1.1\r\n");
    && (|id| <= 218 ==>
          && (toError <= text <==> result.None?)
          && (result.None? ==> Message(text, toError, HANDLER_ERROR)))
    && (|id| <= 215 ==>
          && (toResponse <= text <==> result.Some?)
          && (result.Some? ==> Message(text, toResponse, result.value)))
  }

  // A poll, then its result, for one invocation after the other.
  ghost predicate LogSays(script: seq<Exchange>, handler: Handler, log: seq<seq<char>>) {
    && |log| == |script|
    && forall i {:trigger PairAt(script, handler, log, i)} :: 0 <= i && 2 * i + 1 < |log| ==>
         PairAt(script, handler, log, i)
  }

  ghost predicate PairAt(script: seq<Exchange>, handler: Handler, log: seq<seq<char>>, i: nat)
    requires 2 * i + 1 < |log| == |script|
  {
    var data := script[2 * i].answer;
    && PollSent(log[2 * i]) && OrderlyPoll(data)
    && ResultSent(IdOf(data), handler(i, BodyOf(data)), log[2 * i + 1])
  }

  lemma CutBegins(start: string, rest: string, n: nat)
    requires |start| < n
    ensures start <= Cut(start + rest, n)
  {
  }

  lemma HeadBegins(verb: string, path: string, host: string, content: string)
    requires |verb| + |path| < 1000
    ensures Message(RequestText(verb, path, host, content), verb + " " + path + " HTTP/1.1" + "\r\n", content)
  {
    hide Text, Cut;
    var start := verb + " " + path + " HTTP/1.1" + "\r\n";
    var b, c, d := "Host: " + host, "Content-Type: application/json", "Content-Length: " + Text(|content|);
    var rest := b + "\r\n" + c + "\r\n" + d + "\r\n" + "\r\n";
    LinesJoined(start, b, c, d, "\r\n");
    CutBegins(start, rest, MAX_HEADER);
    var head := RequestHead(verb, path, host, |content|);
    assert start <= head && RequestText(verb, path, host, content) == head + content;
  }

  lemma LinesJoined(start: string, b: string, c: string, d: string, end: string)
    ensures start + b + end + c + end + d + end + end == start + (b + end + c + end + d + end + end)
  {
  }

  // An id has no NUL in it.
  lemma {:induction false} UpToNulFree(s: string)
    ensures '\0' !in UpToNul(s)
  {
    if s != [] && s[0] != '\0' {
      UpToNulFree(s[1..]);
    }
  }

  lemma IdHasNoNul(data: seq<char>)
    requires OrderlyPoll(data)
    ensures '\0' !in IdOf(data)
  {
    var s := OneShot(data, 0, NO_HEADER).requestId.value;
    var from := Min(s.off, |data|);
    UpToNulFree(data[from..Min(s.off + s.len, |data|)]);
  }

  lemma PollBegins(host: string)
    ensures PollSent(RequestText("GET", NEXT_PATH, host, ""))
  {
    hide RequestText, Message;
    HeadBegins("GET", NEXT_PATH, host, "");
    LineJoined("GET", NEXT_PATH);
    assert "GET" + " " == "GET ";
  }

  lemma LineJoined(verb: string, path: string)
    ensures verb + " " + path + " HTTP/1.1" + "\r\n" == (verb + " ") + path + " HTTP/1.1\r\n"
  {
    assert " HTTP/1.1" + "\r\n" == " HTTP/1.1\r\n";
  }

  lemma PostBegins(id: string, suffix: string, host: string, content: string)
    requires suffix == "/response" || suffix == "/error"
    requires '\0' !in id && |id| <= 224 - |suffix|
    ensures Message(RequestText("POST", InvocationPath(id, suffix), host, content),
                    PostLine(id, suffix + " HTTP/1.1\r\n"), content)
  {
    hide RequestText, Message, InvocationPath;
    assert |INVOCATION| == 31;
    PathCarriesIdIff(id, suffix);
    var path := InvocationPath(id, suffix);
    HeadBegins("POST", path, host, content);
    LineJoined("POST", path);
    assert "POST" + " " == "POST ";
    PathJoined("POST ", INVOCATION, id, suffix, " HTTP/1.1\r\n");
  }

  lemma PathJoined(a: string, b: string, c: string, d: string, e: string)
    ensures a + (b + c + d) + e == a + b + c + (d + e)
  {
  }

  // No text goes to both.
  lemma TwoEndpoints(id: string, text: string)
    ensures !(PostLine(id, "/error HTTP/1.1\r\n") <= text && PostLine(id, "/response HTTP/1.1\r\n") <= text)
    ensures "/error" + " HTTP/1.1\r\n" == "/error HTTP/1.1\r\n"
    ensures "/response" + " HTTP/1.1\r\n" == "/response HTTP/1.1\r\n"
  {
    var n := |PostLine(id, "")|;
    assert PostLine(id, "/error HTTP/1.1\r\n")[n + 1] == 'e';
    assert PostLine(id, "/response HTTP/1.1\r\n")[n + 1] == 'r';
  }

  lemma MessageBegins(text: seq<char>, start: string, content: seq<char>)
    requires Message(text, start, content)
    ensures start <= text
  {
  }

  // A response is never sent to the error endpoint, not even where the path is
  // cut off.
  lemma ResponseNotError(id: string, host: string, content: string)
    requires '\0' !in id && |id| <= 218
    ensures !(PostLine(id, "/error HTTP/1.1\r\n") <=
              RequestText("POST", InvocationPath(id, "/response"), host, content))
  {
    hide RequestText;
    var path, n := InvocationPath(id, "/response"), |INVOCATION| + |id|;
    assert |INVOCATION| == 31;
    NoNul(id);
    assert path[n + 1] == (INVOCATION + id + "/response")[n + 1] == 'r';
    HeadBegins("POST", path, host, content);
    assert ("POST" + " " + path + " HTTP/1.1" + "\r\n")[n + 6] == path[n + 1];
    assert PostLine(id, "/error HTTP/1.1\r\n")[n + 6] == 'e';
  }

  lemma ReplySent(data: seq<char>, handler: Handler, host: string, i: nat)
    requires OrderlyPoll(data)
    ensures ResultSent(IdOf(data), handler(i, BodyOf(data)), Reply(data, handler, host, i))
  {
    hide OrderlyPoll, RequestText, InvocationPath, BodyOf, IdOf, PostLine, Message;
    var id, result, text := IdOf(data), handler(i, BodyOf(data)), Reply(data, handler, host, i);
    IdHasNoNul(data);
    TwoEndpoints(id, text);
    if result.Some? {
      if |id| <= 218 {
        ResponseNotError(id, host, result.value);
      }
      if |id| <= 215 {
        PostBegins(id, "/response", host, result.value);
        MessageBegins(text, PostLine(id, "/response HTTP/1.1\r\n"), result.value);
      }
    } else if |id| <= 218 {
      PostBegins(id, "/error", host, HANDLER_ERROR);
      MessageBegins(text, PostLine(id, "/error HTTP/1.1\r\n"), HANDLER_ERROR);
    }
  }

  lemma {:induction false} ExpectedAt(script: seq<Exchange>, handler: Handler, host: string, i: nat, j: nat)
    requires Playable(script) && 2 * j + 1 < |script|
    ensures var log := Expected(script, handler, host, i);
      && |log| == |script| && OrderlyPoll(script[2 * j].answer)
      && log[2 * j] == RequestText("GET", NEXT_PATH, host, "")
      && log[2 * j + 1] == Reply(script[2 * j].answer, handler, host, i + j)
    decreases j
  {
    hide RequestText, Reply, OrderlyPoll, Orderly;
    ExpectedLength(script, handler, host, i);
    if j > 0 {
      ExpectedAt(script[2..], handler, host, i + 1, j - 1);
      assert script[2..][2 * (j - 1)] == script[2 * j];
    }
  }

  lemma {:induction false} ExpectedLength(script: seq<Exchange>, handler: Handler, host: string, i: nat)
    requires Playable(script)
    ensures |Expected(script, handler, host, i)| == |script|
    decreases |script|
  {
    if script != [] {
      ExpectedLength(script[2..], handler, host, i + 1);
    }
  }

  lemma ExpectedSays(script: seq<Exchange>, handler: Handler, host: string)
    requires Playable(script)
    ensures LogSays(script, handler, Expected(script, handler, host, 0))
  {
    hide Expected, Playable, ResultSent, PollSent, Reply, OrderlyPoll;
    var log := Expected(script, handler, host, 0);
    ExpectedLength(script, handler, host, 0);
    forall i: nat | 2 * i + 1 < |log|
      ensures PairAt(script, handler, log, i)
    {
      ExpectedAt(script, handler, host, 0, i);
      PollBegins(host);
      ReplySent(script[2 * i].answer, handler, host, i);
    }
  }

  // How a response can end the runtime.  A response whose headers use up the
  // capacity is good enough for an acknowledgement; a poll goes on with a null
  // body, which no handler can use.
  function StopOf(ending: (Outcome, Option<Slice>), poll: bool): Option<Stop> {
    var (o, id) := ending;
    if !o.Complete? && !o.NoHeaders? then Some(ResponseFailed(o))
    else if poll && id.None? then Some(RequestIdMissing)
    else if poll && o.NoHeaders? then Some(NullBody)
    else None
  }

  // What the parser makes of an exchange, in a buffer with stale bytes: the
  // outcome, and the request id if it came to an end.
  function EndingOf(stale: seq<char>, x: Exchange, capacity: nat): (Outcome, Option<Slice>) {
    var (o, p) := Run(Start(stale, capacity), Net(x.answer, x.sizes), capacity);
    (o, if o.Complete? || o.NoHeaders? then p.h.requestId else None)
  }

  // The runtime is asked to shut down by the status line of an answer, and by
  // nothing else in it.
  ghost predicate GoneAnswer(answer: seq<char>, capacity: nat) {
    Lines.StopsWith(answer, capacity, Lines.Gone410)
  }

  lemma ShutdownStops(stale: seq<char>, x: Exchange, capacity: nat, poll: bool)
    requires capacity < |stale|
    ensures var stop := StopOf(EndingOf(stale, x, capacity), poll);
      && (stop == Some(ResponseFailed(Shutdown)) ==> GoneAnswer(x.answer, capacity))
      && (GoneAnswer(x.answer, capacity) && |x.answer| < capacity ==> stop == Some(ResponseFailed(Shutdown)))
  {
    hide Run, Lines.StopsWith;
    Lines.GoneOnlyRuns(stale, Net(x.answer, x.sizes), capacity);
  }

  class Runtime {
    const host: string
    const buffer: array<char>
    var script: seq<Exchange>
    var log: seq<seq<char>>
    var requestId: Option<Slice>
    var bodyStart: nat
    var total: nat

    // With pages of 2^k bytes.
    constructor (host: string, script: seq<Exchange>, k: nat)
      ensures this.host == host && this.script == script && log == []
      ensures buffer.Length == Usable(INCOMING, k) > INCOMING && fresh(buffer)
    {
      this.host, this.script, log := host, script, [];
      requestId, bodyStart, total := None, 0, 0;
      buffer := new char[Usable(INCOMING, k)](i => '\0');
    }

    // One request over a fresh connection.  The id and body of the previous
    // response are dropped before the answer comes in.
    method HttpCall(verb: string, path: string, content: string, capacity: nat) returns (o: Option<Outcome>)
      requires capacity < buffer.Length
      modifies this, buffer
      ensures old(script) == [] ==> o == None && log == old(log) && script == []
      ensures old(script) != [] ==> o.Some? && script == old(script)[1..]
      ensures o.Some? && o.value.Complete? ==> bodyStart <= total <= buffer.Length
      ensures old(script) != [] ==> log == old(log) + [RequestText(verb, path, host, content)]
      ensures old(script) != [] ==> (o.value, requestId) == EndingOf(old(buffer[..]), old(script)[0], capacity)
      ensures old(script) != [] && Orderly(old(script)[0].answer, capacity) ==>
        var data := old(script)[0].answer;
        && o == Some(OneShot(data, 0, NO_HEADER)) && o.value.Complete?
        && requestId == o.value.requestId && bodyStart == o.value.bodyStart
        && total == |data| < buffer.Length && buffer[..total] == data
    {
      if script == [] {
        return None;
      }
      var x := script[0];
      script := script[1..];
      var sent := SendRequest(x.sends, verb, path, content);
      log := log + [sent];
      bodyStart, total := 0, 0;
      var outcome, received, id := Receive(x.answer, x.sizes, capacity);
      requestId := id;
      if outcome.Complete? {
        bodyStart, total := outcome.bodyStart, received;
      }
      o := Some(outcome);
    }

    // What the peer gets: the head, then the content if there is any.
    method SendRequest(sends: seq<nat>, verb: string, path: string, content: string) returns (sent: seq<char>)
      ensures sent == RequestText(verb, path, host, content)
    {
      var socket := new Outgoing(sends);
      socket.SendAll(RequestHead(verb, path, host, |content|));
      if |content| > 0 {
        socket.SendAll(content);
      }
      sent := socket.delivered;
      assert content == [] ==> sent + content == sent;
    }

    method Receive(answer: seq<char>, sizes: seq<nat>, capacity: nat)
      returns (o: Outcome, received: nat, id: Option<Slice>)
      requires capacity < buffer.Length
      modifies buffer
      ensures forall sends :: (o, id) == EndingOf(old(buffer[..]), Exchange(answer, sizes, sends), capacity)
      ensures o.Complete? ==> o.bodyStart <= received <= buffer.Length && id == o.requestId
      ensures Orderly(answer, capacity) ==>
        && o == OneShot(answer, 0, NO_HEADER) && o.Complete?
        && received == |answer| && buffer[..received] == answer
    {
      hide OneShot, Determined;
      var conn := new Connection(answer, sizes);
      ghost var stale := buffer[..];
      o, received, id := Http(conn, buffer, capacity);
      if Orderly(answer, capacity) {
        ChunkingIrrelevant(stale, answer, sizes, capacity);
      }
    }

    // None on success.
    method GetNextRequest() returns (stop: Option<Stop>)
      requires buffer.Length > INCOMING
      modifies this, buffer
      ensures old(script) == [] ==> stop == Some(ConnectFailed) && log == old(log)
      ensures old(script) != [] ==> script == old(script)[1..]
      ensures old(script) != [] ==>
        && log == old(log) + [RequestText("GET", NEXT_PATH, host, "")]
        && stop == StopOf(EndingOf(old(buffer[..]), old(script)[0], INCOMING), true)
        && (stop == Some(ResponseFailed(Shutdown)) ==> GoneAnswer(old(script)[0].answer, INCOMING))
        && (GoneAnswer(old(script)[0].answer, INCOMING) && |old(script)[0].answer| < INCOMING ==>
              stop == Some(ResponseFailed(Shutdown)))
      ensures old(script) != [] && OrderlyPoll(old(script)[0].answer) ==>
        var data := old(script)[0].answer;
        && stop == None
        && requestId.Some? && SliceText(buffer[..], requestId.value) == IdOf(data)
        && bodyStart <= total <= buffer.Length && buffer[bodyStart..total] == BodyOf(data)
      ensures stop == None ==> requestId.Some? && bodyStart <= total <= buffer.Length
      ensures old(script) == [] ==> script == []
    {
      hide GoneAnswer;
      ghost var polls := script;
      if polls != [] {
        ShutdownStops(buffer[..], polls[0], INCOMING, true);
      }
      var o := HttpCall("GET", NEXT_PATH, "", INCOMING);
      if polls != [] && OrderlyPoll(polls[0].answer) {
        var data := polls[0].answer;
        OneShotInside(data, 0, NO_HEADER);
        SliceOfPrefix(buffer[..], data, requestId.value);
        assert buffer[bodyStart..total] == data[bodyStart..] by {
          assert data == buffer[..total];
        }
      }
      if o.None? {
        return Some(ConnectFailed);
      }
      if !o.value.Complete? && !o.value.NoHeaders? {
        return Some(ResponseFailed(o.value));
      } else if requestId.None? {
        return Some(RequestIdMissing);
      }
      return if o.value.NoHeaders? then Some(NullBody) else None;
    }

    method SendResponse(response: seq<char>) returns (stop: Option<Stop>)
      requires buffer.Length > INCOMING && requestId.Some?
      modifies this, buffer
      ensures Posted(old(buffer[..]), old(script), script, old(log), log, stop,
                     RequestText("POST", InvocationPath(old(SliceText(buffer[..], requestId.value)), "/response"),
                                 host, response))
    {
      var path := InvocationPath(SliceText(buffer[..], requestId.value), "/response");
      stop := Post(path, response);
    }

    method SendErrorResponse() returns (stop: Option<Stop>)
      requires buffer.Length > INCOMING && requestId.Some?
      modifies this, buffer
      ensures Posted(old(buffer[..]), old(script), script, old(log), log, stop,
                     RequestText("POST", InvocationPath(old(SliceText(buffer[..], requestId.value)), "/error"),
                                 host, HANDLER_ERROR))
    {
      var path := InvocationPath(SliceText(buffer[..], requestId.value), "/error");
      stop := Post(path, HANDLER_ERROR);
    }

    ghost predicate Posted(stale: seq<char>, script0: seq<Exchange>, script1: seq<Exchange>, log0: seq<seq<char>>,
                           log1: seq<seq<char>>, stop: Option<Stop>, text: seq<char>)
    {
      && (script0 == [] ==> stop == Some(ConnectFailed) && log1 == log0)
      && (script0 != [] ==> script1 == script0[1..] && log1 == log0 + [text])
      && (script0 != [] ==> stop == StopOf(EndingOf(stale, script0[0], MAX_HEADER), false))
      && (script0 != [] && Orderly(script0[0].answer, MAX_HEADER) ==> stop == None)
    }

    method Post(path: string, content: string) returns (stop: Option<Stop>)
      requires buffer.Length > INCOMING
      modifies this, buffer
      ensures Posted(old(buffer[..]), old(script), script, old(log), log, stop,
                     RequestText("POST", path, host, content))
    {
      var o := HttpCall("POST", path, content, MAX_HEADER);
      if o.None? {
        return Some(ConnectFailed);
      }
      return if o.value.Complete? || o.value.NoHeaders? then None else Some(ResponseFailed(o.value));
    }

    // Runs until a request fails.  In whatever chunks the answers come and the
    // requests go out, the peers receive the expected requests as long as polls
    // and acknowledgements go well, and nothing else if they all do.
    method StartLambda(handler: Handler) returns (stop: Stop)
      requires buffer.Length > INCOMING
      modifies this, buffer
      ensures old(log) + Expected(Good(old(script)), handler, host, 0) <= log
      ensures Playable(old(script)) ==>
        && stop == ConnectFailed
        && log == old(log) + Expected(old(script), handler, host, 0)
        && LogSays(old(script), handler, log[|old(log)|..])
    {
      hide LogSays, Expected, Playable, OrderlyPoll, Orderly, Good, RequestText, InvocationPath, EndingOf, StopOf;
      if Playable(script) {
        ExpectedSays(script, handler, host);
      }
      var i := 0;
      ghost var target, good := log + Expected(Good(script), handler, host, 0), true;
      while true
        invariant good ==>
          && log + Expected(Good(script), handler, host, i) == target
          && (Playable(old(script)) ==> Playable(script))
        invariant !good ==> target <= log && !Playable(old(script))
        decreases |script|
      {
        ghost var here := script;
        if good && Good(here) != [] {
          GoodStep(here, handler, host, i, log);
        } else if Good(here) == [] {
          GoodEnds(here, handler, host, i);
          good := good && here == [];
        }
        var s := GetNextRequest();
        if s.Some? {
          return s.value;
        }
        var r := handler(i, buffer[bodyStart..total]);
        if r.None? {
          s := SendErrorResponse();
        } else {
          s := SendResponse(r.value);
        }
        if s.Some? {
          return s.value;
        }
        i := i + 1;
      }
    }
  }

  // A slice that lies within what was received.
  lemma SliceOfPrefix(buf: seq<char>, data: seq<char>, s: Slice)
    requires |data| <= |buf| && buf[..|data|] == data && s.len >= 0 && s.off + s.len <= |data|
    ensures SliceText(buf, s) == SliceText(data, s)
  {
    var to: nat := s.off + s.len;
    assert buf[s.off..to] == buf[..|data|][s.off..to];
  }
}
