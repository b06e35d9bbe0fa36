// The process around the compiled code: start-up, freezing, and the event loop
// over both arenas.  Every event is answered as a fresh process would.

module Shim {
  import opened Wrappers
  import opened Arena
  import opened Isolation
  import opened Mapping
  import E = Exchange
  import M = MachineInt
  import P = Protocol

  const MAX_RESPONSE := 6 * 1048576

  // What the handler makes of an event in process p: None if the process dies,
  // be it that the platform stops it after `budget` steps, or that its output
  // runs into the guard page behind `room` bytes.
  function Answer(h: Handler, p: Proc, budget: nat, room: nat, event: seq<char>): Option<seq<char>> {
    match Steps(h, event, Active(p, [], []), budget)
    case Stopped(Response(text), _) => if |text| <= room then Some(text) else None
    case _ => None
  }

  // What the peers must have received: for each pair of connections a poll,
  // then a POST to the invocation that this poll named, with the answer of p;
  // of p with its request arena reset from the second poll on.  A process that
  // dies leaves its last poll without a POST.
  function Transcript(h: Handler, p: Proc, budget: nat, room: nat, script: seq<P.Exchange>, host: string)
    : seq<seq<char>>
    requires P.Playable(script)
    decreases |script|
  {
    if script == [] then []
    else
      var poll := script[0].answer;
      [P.RequestText("GET", P.NEXT_PATH, host, "")] +
      match Answer(h, p, budget, room, P.BodyOf(poll))
      case None => []
      case Some(text) =>
        [P.RequestText("POST", P.InvocationPath(P.IdOf(poll), "/response"), host, text)]
        + Transcript(h, Reset(p), budget, room, script[2..], host)
  }

  lemma TranscriptStep(h: Handler, p: Proc, budget: nat, room: nat, script: seq<P.Exchange>, host: string,
                       log: seq<seq<char>>)
    requires P.Good(script) != []
    ensures |script| >= 2 && P.OrderlyPoll(script[0].answer) && P.Orderly(script[1].answer, P.MAX_HEADER)
    ensures P.Playable(script) ==> P.Playable(script[1..][1..])
    ensures var poll := script[0].answer;
      var all := log + Transcript(h, p, budget, room, P.Good(script), host);
      var polled := log + [P.RequestText("GET", P.NEXT_PATH, host, "")];
      match Answer(h, p, budget, room, P.BodyOf(poll))
      case None => all == polled
      case Some(text) =>
        all == polled + [P.RequestText("POST", P.InvocationPath(P.IdOf(poll), "/response"), host, text)]
               + Transcript(h, Reset(p), budget, room, P.Good(script[1..][1..]), host)
  {
    hide Answer, Reset, P.RequestText, P.InvocationPath, P.BodyOf, P.IdOf, P.OrderlyPoll, P.Orderly;
    assert script[1..][1..] == script[2..] && P.Good(script)[2..] == P.Good(script[2..]);
  }

  lemma TranscriptEnds(h: Handler, p: Proc, budget: nat, room: nat, script: seq<P.Exchange>, host: string)
    requires P.Good(script) == []
    ensures Transcript(h, p, budget, room, P.Good(script), host) == [] && (P.Playable(script) ==> script == [])
  {
  }

  // What has been sent is the transcript up to here, as long as every exchange
  // was orderly; afterwards it begins with the transcript.
  ghost predicate Due(h: Handler, p: Proc, budget: nat, room: nat, rest: seq<P.Exchange>, host: string,
                      log: seq<seq<char>>, target: seq<seq<char>>, playable: bool, good: bool)
  {
    if good then
      log + Transcript(h, p, budget, room, P.Good(rest), host) == target && (playable ==> P.Playable(rest))
    else
      target <= log && !playable
  }

  lemma DueStep(h: Handler, p: Proc, budget: nat, room: nat, rest: seq<P.Exchange>, host: string,
                log: seq<seq<char>>, target: seq<seq<char>>, playable: bool)
    requires Due(h, p, budget, room, rest, host, log, target, playable, true) && P.Good(rest) != []
    ensures |rest| >= 2 && P.OrderlyPoll(rest[0].answer) && P.Orderly(rest[1].answer, P.MAX_HEADER)
    ensures var poll := rest[0].answer;
      var polled := log + [P.RequestText("GET", P.NEXT_PATH, host, "")];
      match Answer(h, p, budget, room, P.BodyOf(poll))
      case None => target == polled
      case Some(text) =>
        Due(h, Reset(p), budget, room, rest[1..][1..], host,
            polled + [P.RequestText("POST", P.InvocationPath(P.IdOf(poll), "/response"), host, text)],
            target, playable, true)
  {
    hide Answer, Reset, P.RequestText, P.InvocationPath, P.BodyOf, P.IdOf, P.OrderlyPoll, P.Orderly, P.Good, Transcript,
      P.Playable;
    TranscriptStep(h, p, budget, room, rest, host, log);
  }

  // Out of step, or done.
  lemma DueEnds(h: Handler, p: Proc, budget: nat, room: nat, rest: seq<P.Exchange>, host: string,
                log: seq<seq<char>>, target: seq<seq<char>>, playable: bool, good: bool)
    requires Due(h, p, budget, room, rest, host, log, target, playable, good) && (good ==> P.Good(rest) == [])
    ensures target <= log && (playable ==> rest == [] && log == target)
  {
    if good {
      TranscriptEnds(h, p, budget, room, rest, host);
    }
  }

  lemma DueStarts(h: Handler, p: Proc, budget: nat, room: nat, script: seq<P.Exchange>, host: string)
    ensures var target := Transcript(h, p, budget, room, P.Good(script), host);
      && Due(h, p, budget, room, script, host, [], target, P.Playable(script), true)
      && (P.Playable(script) ==> P.Good(script) == script)
  {
    var target := Transcript(h, p, budget, room, P.Good(script), host);
    assert [] + target == target;
  }

  lemma OutOfStep(h: Handler, p: Proc, budget: nat, room: nat, rest: seq<P.Exchange>, host: string,
                  log: seq<seq<char>>, target: seq<seq<char>>, playable: bool)
    requires target <= log && !playable
    ensures Due(h, p, budget, room, rest, host, log, target, playable, false)
  {
  }

  ghost predicate Serving(p: Proc) {
    p.Valid() && p.frozen
  }

  // Nothing that a handler starting on p or on q can see tells them apart.
  ghost predicate Like(p: Proc, q: Proc) {
    && Serving(p) && Serving(q)
    && p.requests == q.requests && p.statics == q.statics && SameStatics(p, q)
  }

  lemma AnswersAlike(h: Handler, p: Proc, q: Proc, budget: nat, room: nat, event: seq<char>)
    requires Like(p, q)
    ensures Answer(h, p, budget, room, event) == Answer(h, q, budget, room, event)
  {
    forall k | p.InStatics(k)
      ensures p.Word(k) == q.Word(k)
    {
    }
    StepsAlike(h, event, p, Active(p, [], []), Active(q, [], []), budget);
  }

  // ----- what the answers are -----

  // The handler's exchange with the memory of p ends in t, and t fits.
  ghost predicate Answers(h: Handler, p: Proc, budget: nat, room: nat, event: seq<char>, t: seq<char>) {
    |t| <= room && exists turns :: E.EndsIn(h, event, p, budget, turns, t)
  }

  lemma AnswerIff(h: Handler, p: Proc, budget: nat, room: nat, event: seq<char>, t: seq<char>)
    requires p.Valid()
    ensures Answer(h, p, budget, room, event) == Some(t) <==> Answers(h, p, budget, room, event, t)
  {
    hide E.EndsIn, Steps;
    E.RespondsIff(h, event, p, budget, t);
  }

  // The process when poll number i has come in.
  function ProcessAt(p: Proc, i: nat): Proc {
    if i == 0 then p else Reset(p)
  }

  // Request 2i is a poll.  Request 2i + 1 is sent exactly if the handler's
  // exchange for this poll's body ends in an answer, and then carries this
  // answer to the invocation that the poll named.
  ghost predicate Carried(h: Handler, p: Proc, budget: nat, room: nat, script: seq<P.Exchange>, log: seq<seq<char>>,
                          i: nat)
    requires 2 * i < |log| <= |script|
  {
    var poll := script[2 * i].answer;
    && P.PollSent(log[2 * i]) && P.OrderlyPoll(poll)
    && (2 * i + 1 < |log| ==> exists t :: Answers(h, ProcessAt(p, i), budget, room, P.BodyOf(poll), t))
    && (forall t :: Answers(h, ProcessAt(p, i), budget, room, P.BodyOf(poll), t) ==>
          && 2 * i + 1 < |log|
          && (|P.IdOf(poll)| <= 215 ==>
                P.Message(log[2 * i + 1], P.PostLine(P.IdOf(poll), "/response HTTP/1.1\r\n"), t)))
  }

  // This holds of all requests; only a process that dies leaves exchanges over,
  // after its last poll.
  ghost predicate LogCarries(h: Handler, p: Proc, budget: nat, room: nat, script: seq<P.Exchange>,
                             log: seq<seq<char>>) {
    && |log| <= |script| && (|log| < |script| ==> |log| % 2 == 1)
    && forall i {:trigger Carried(h, p, budget, room, script, log, i)} :: 0 <= i && 2 * i < |log| ==>
         Carried(h, p, budget, room, script, log, i)
  }

  lemma TranscriptCarries(h: Handler, p: Proc, budget: nat, room: nat, script: seq<P.Exchange>, host: string)
    requires p.Valid() && P.Playable(script)
    ensures LogCarries(h, p, budget, room, script, Transcript(h, p, budget, room, script, host))
  {
    hide P.OrderlyPoll, P.Orderly, Answer, Carried;
    var log := Transcript(h, p, budget, room, script, host);
    TranscriptLength(h, p, budget, room, script, host);
    forall i: nat | 2 * i < |log|
      ensures Carried(h, p, budget, room, script, log, i)
    {
      TranscriptAt(h, p, budget, room, script, host, i);
    }
  }

  lemma {:induction false} TranscriptLength(h: Handler, p: Proc, budget: nat, room: nat, script: seq<P.Exchange>,
                                            host: string)
    requires P.Playable(script)
    ensures var log := Transcript(h, p, budget, room, script, host);
      |log| <= |script| && (|log| < |script| ==> |log| % 2 == 1)
    decreases |script|
  {
    hide P.OrderlyPoll, P.Orderly, Answer, P.RequestText, P.InvocationPath, P.BodyOf, P.IdOf, Reset;
    if script != [] {
      TranscriptLength(h, Reset(p), budget, room, script[2..], host);
    }
  }

  lemma {:induction false} TranscriptAt(h: Handler, p: Proc, budget: nat, room: nat, script: seq<P.Exchange>,
                                        host: string, i: nat)
    requires p.Valid() && P.Playable(script)
    requires 2 * i < |Transcript(h, p, budget, room, script, host)| <= |script|
    ensures Carried(h, p, budget, room, script, Transcript(h, p, budget, room, script, host), i)
    decreases i
  {
    hide P.OrderlyPoll, P.Orderly, P.RequestText, Answer, P.BodyOf, P.IdOf, P.InvocationPath, Answers, P.PollSent,
      P.Message, P.PostLine;
    var log := Transcript(h, p, budget, room, script, host);
    var poll := script[0].answer;
    if i == 0 {
      AnswerCarried(h, p, budget, room, script, log, host);
    } else {
      var rest := Transcript(h, Reset(p), budget, room, script[2..], host);
      assert log[2..] == rest;
      TranscriptLength(h, Reset(p), budget, room, script[2..], host);
      TranscriptAt(h, Reset(p), budget, room, script[2..], host, i - 1);
      CarriedLater(h, p, budget, room, script, log, i);
    }
  }

  lemma CarriedLater(h: Handler, p: Proc, budget: nat, room: nat, script: seq<P.Exchange>, log: seq<seq<char>>,
                     i: nat)
    requires i > 0 && 2 * i < |log| <= |script|
    requires Carried(h, Reset(p), budget, room, script[2..], log[2..], i - 1)
    ensures Carried(h, p, budget, room, script, log, i)
  {
    hide P.OrderlyPoll, P.BodyOf, P.IdOf, Answers, P.PollSent, P.Message, P.PostLine;
    assert script[2 * i] == script[2..][2 * (i - 1)] && log[2 * i] == log[2..][2 * (i - 1)];
    assert ProcessAt(Reset(p), i - 1) == ProcessAt(p, i);
    assert 2 * i + 1 < |log| ==> log[2 * i + 1] == log[2..][2 * (i - 1) + 1];
  }

  lemma AnswerCarried(h: Handler, p: Proc, budget: nat, room: nat, script: seq<P.Exchange>, log: seq<seq<char>>,
                      host: string)
    requires p.Valid() && 0 < |log| <= |script| && P.OrderlyPoll(script[0].answer)
    requires log[0] == P.RequestText("GET", P.NEXT_PATH, host, "")
    requires var poll := script[0].answer;
      match Answer(h, p, budget, room, P.BodyOf(poll))
      case None => |log| == 1
      case Some(text) =>
        |log| > 1 && log[1] == P.RequestText("POST", P.InvocationPath(P.IdOf(poll), "/response"), host, text)
    ensures Carried(h, p, budget, room, script, log, 0)
  {
    hide P.OrderlyPoll, P.RequestText, Answer, P.BodyOf, P.IdOf, P.InvocationPath, Answers, P.Message, P.PostLine,
      P.PollSent;
    P.PollBegins(host);
    var poll := script[0].answer;
    forall t
      ensures Answer(h, p, budget, room, P.BodyOf(poll)) == Some(t) <==> Answers(h, p, budget, room, P.BodyOf(poll), t)
    {
      AnswerIff(h, p, budget, room, P.BodyOf(poll), t);
    }
    assert P.PollSent(log[2 * 0]);
    var a := Answer(h, p, budget, room, P.BodyOf(poll));
    if a.Some? {
      assert Answers(h, ProcessAt(p, 0), budget, room, P.BodyOf(poll), a.value);
      if |P.IdOf(poll)| <= 215 {
        P.IdHasNoNul(poll);
        P.TwoEndpoints(P.IdOf(poll), "");
        P.PostBegins(P.IdOf(poll), "/response", host, a.value);
        assert P.Message(log[2 * 0 + 1], P.PostLine(P.IdOf(poll), "/response HTTP/1.1\r\n"), a.value);
      }
    }
  }

  // Serving a request comes down to resetting the request arena.
  lemma ServedLike(h: Handler, p: Proc, s: Served)
    requires Like(p, s.before) && Serves(h, s)
    ensures Like(Reset(p), Reset(s.after))
  {
    ServedKeeps(h, s);
    forall k | p.statics.base <= k < p.statics.limit
      ensures Reset(p).Word(k) == Reset(s.after).Word(k)
    {
      assert p.Word(k) == s.before.Word(k);
    }
  }

  // ----- start-up -----

  // Code compiled with the static arena as its current one.
  ghost predicate StaticOnly(h: Handler) {
    forall event, seen :: h(event, seen).New? ==> h(event, seen).tag.StaticTag?
  }

  // Such code leaves the request arena alone.
  lemma {:induction false} StaticOnlySteps(h: Handler, event: seq<char>, a: Activation, n: nat)
    requires StaticOnly(h) && a.Active?
    ensures Memory(Steps(h, event, a, n)).requests == a.p.requests
    decreases n
  {
    if n > 0 {
      var b := Take(h, event, a);
      if b.Active? {
        StaticOnlySteps(h, event, b, n - 1);
      }
    }
  }

  class Process {
    const statics: ArenaCell
    const requests: ArenaCell
    var words: map<nat, int>
    var frozen: bool
    ghost var kept: seq<Block>

    ghost function State(): Proc
      reads this, statics, requests
    {
      Proc(words, statics.State(), requests.State(), kept, frozen)
    }

    ghost predicate Apart()
      reads this
    {
      statics != requests
    }

    // Both arenas, at the addresses that the two mappings got.
    constructor (staticBase: nat, requestBase: nat)
      requires staticBase % 4096 == 0 && requestBase % 4096 == 0
      requires staticBase + STATIC_ARENA_SIZE <= requestBase || requestBase + REQ_ARENA_SIZE <= staticBase
      ensures Apart() && fresh(statics) && fresh(requests)
      ensures State().Valid() && State() == Initial(staticBase, requestBase)
    {
      statics := new ArenaCell.Init(staticBase, STATIC_ARENA_SIZE);
      requests := new ArenaCell.Init(requestBase, REQ_ARENA_SIZE);
      words, frozen, kept := map[], false, [];
    }

    static function Initial(staticBase: nat, requestBase: nat): Proc {
      Proc(map[], Bump(staticBase, staticBase, staticBase + STATIC_ARENA_SIZE),
           Bump(requestBase, requestBase, requestBase + REQ_ARENA_SIZE), [], false)
    }

    method ArenaAlloc(tag: Tag, size: nat) returns (at: Option<nat>)
      requires Apart()
      modifies statics, requests
      ensures words == old(words) && frozen == old(frozen) && kept == old(kept)
      ensures match Alloc(old(State()).Cell(tag), size)
        case None => at == None && State() == old(State())
        case Some((got, cell)) =>
          at == Some(got) && State() == (if tag.StaticTag? then old(State()).(statics := cell)
                                         else old(State()).(requests := cell))
    {
      if tag.StaticTag? {
        at := statics.ArenaAlloc(size);
      } else {
        at := requests.ArenaAlloc(size);
      }
    }

    // Write-protects the static arena as a whole, used or not.
    method ArenaFreeze()
      modifies this`frozen
      ensures State() == old(State()).(frozen := true)
    {
      frozen := true;
    }

    // The generated constructor: reference count first, then the fields.
    method WriteObject(at: nat, fields: seq<int>)
      modifies this`words
      ensures words == Construct(old(words), at, fields)
    {
      words := words[at := 1];
      var i := 0;
      while i < |fields|
        invariant 0 <= i <= |fields| && words == Construct(old(words), at, fields[..i])
      {
        assert fields[..i + 1][..i] == fields[..i];
        words := words[at + 8 * (i + 1) := fields[i]];
        i := i + 1;
      }
      assert fields[..i] == fields;
    }

    // Runs compiled code; None if it is still running after its budget.
    method Invoke(h: Handler, event: seq<char>, budget: nat) returns (end: Option<Isolation.Outcome>)
      requires Apart()
      modifies this, statics, requests
      ensures match Steps(h, event, Active(old(State()), [], []), budget)
        case Active(p, _, _) => end == None && State() == p
        case Stopped(o, q) => end == Some(o) && State() == q
    {
      hide Construct, Alloc;
      var live: seq<Block>, seen: seq<int>, n: nat := [], [], budget;
      while n > 0
        invariant n <= budget
        invariant Steps(h, event, Active(old(State()), [], []), budget)
               == Steps(h, event, Active(State(), live, seen), n)
      {
        ghost var p := State();
        match h(event, seen) {
          case Finish(response) =>
            return Some(Response(response));
          case Load(at) =>
            var inStatics := at % 8 == 0 && statics.base <= at < statics.cursor;
            if !inStatics && !InLive(live, at) {
              return Some(Unsafe);
            }
            seen := seen + [if at in words then words[at] else 0];
          case New(tag, fields) =>
            var at := ArenaAlloc(tag, ObjectSize(fields));
            if at.None? {
              return Some(Exhausted);
            }
            if tag.StaticTag? && frozen {
              return Some(Crashed);
            }
            WriteObject(at.value, fields);
            seen := seen + [at.value];
            if tag.StaticTag? {
              kept := kept + [Block(at.value, ObjectSize(fields))];
            } else {
              live := live + [Block(at.value, ObjectSize(fields))];
            }
        }
        n := n - 1;
      }
      return None;
    }

    // Runs the handler on an event, leaves its output in the response buffer,
    // and resets the request arena.  None if the process dies.
    method Handle(h: Handler, budget: nat, event: seq<char>, response: array<char>, ghost p0: Proc)
      returns (position: Option<nat>)
      requires Apart() && Like(p0, State())
      modifies this, statics, requests, response
      ensures match Answer(h, p0, budget, response.Length, event)
        case None => position == None
        case Some(text) => position == Some(|text|) && |text| <= response.Length && response[..|text|] == text
                           && Like(Reset(p0), State())
    {
      ghost var p := State();
      AnswersAlike(h, p0, p, budget, response.Length, event);
      var end := Invoke(h, event, budget);
      if end.None? || !end.value.Response? || |end.value.text| > response.Length {
        return None;
      }
      var text := end.value.text;
      ServedLike(h, p0, Served(event, text, budget, p, State()));
      WriteResponse(response, text);
      requests.ArenaReset();
      return Some(|text|);
    }

    // Polls, runs the handler and posts its output, until a connection fails
    // or the process dies.  Pages have 2^k bytes.
    method LambdaEventLoop(h: Handler, budget: nat, host: string, script: seq<P.Exchange>, k: nat)
      returns (log: seq<seq<char>>)
      requires Apart() && Serving(State())
      modifies this, statics, requests
      ensures Transcript(h, old(State()), budget, Usable(MAX_RESPONSE, k), P.Good(script), host) <= log
      ensures P.Playable(script) ==>
        && log == Transcript(h, old(State()), budget, Usable(MAX_RESPONSE, k), script, host)
        && LogCarries(h, old(State()), budget, Usable(MAX_RESPONSE, k), script, log)
    {
      hide LogCarries, Due, Transcript, Answer, P.Playable, P.Orderly, P.OrderlyPoll, P.Good, Like, P.RequestText,
        P.InvocationPath, P.EndingOf, P.StopOf, Usable, Reset, P.BodyOf, P.IdOf;
      var runtime := new P.Runtime(host, script, k);
      var room := Usable(MAX_RESPONSE, k);
      var response := new char[room];
      ghost var p := State();
      if P.Playable(script) {
        TranscriptCarries(h, p, budget, room, script, host);
      }
      ghost var target, good := Transcript(h, p, budget, room, P.Good(script), host), true;
      LikeItself(p);
      DueStarts(h, p, budget, room, script, host);
      while true
        invariant Like(p, State())
        invariant runtime.buffer != response && runtime.buffer.Length > P.INCOMING && runtime.host == host
        invariant Due(h, p, budget, room, runtime.script, host, runtime.log, target, P.Playable(script), good)
        decreases |runtime.script|
      {
        ghost var here := runtime.script;
        if good && P.Good(here) != [] {
          DueStep(h, p, budget, room, here, host, runtime.log, target, P.Playable(script));
        } else {
          DueEnds(h, p, budget, room, here, host, runtime.log, target, P.Playable(script), good);
          good := false;
        }
        var stop := runtime.GetNextRequest();
        if stop.Some? {
          return runtime.log;
        }
        var event := runtime.buffer[runtime.bodyStart..runtime.total];
        var position := Handle(h, budget, event, response, p);
        if position.None? {
          return runtime.log;
        }
        p := Reset(p);
        stop := runtime.SendResponse(response[..position.value]);
        if stop.Some? {
          return runtime.log;
        }
        if !good {
          OutOfStep(h, p, budget, room, runtime.script, host, runtime.log, target, P.Playable(script));
        }
      }
    }

    lemma LikeItself(p: Proc)
      requires Serving(p)
      ensures Like(p, p)
    {
    }

    method WriteResponse(buffer: array<char>, text: seq<char>)
      requires |text| <= buffer.Length
      modifies buffer
      ensures buffer[..|text|] == text
    {
      forall i | 0 <= i < |text| {
        buffer[i] := text[i];
      }
    }
  }
  // The start of the process: both arenas, the module's top-level statements,
  // the freeze, and the loop.
  method Start(staticBase: nat, requestBase: nat, init: Handler, h: Handler, budget: nat,
               host: string, script: seq<P.Exchange>, k: nat)
    returns (log: seq<seq<char>>)
    requires staticBase % 4096 == 0 && requestBase % 4096 == 0
    requires staticBase + STATIC_ARENA_SIZE <= requestBase || requestBase + REQ_ARENA_SIZE <= staticBase
    ensures match Initialised(init, budget, staticBase, requestBase)
      case None => log == []
      case Some(p) =>
        && Transcript(h, p, budget, Usable(MAX_RESPONSE, k), P.Good(script), host) <= log
        && (P.Playable(script) ==>
              && log == Transcript(h, p, budget, Usable(MAX_RESPONSE, k), script, host)
              && LogCarries(h, p, budget, Usable(MAX_RESPONSE, k), script, log))
  {
    var process := new Process(staticBase, requestBase);
    ghost var fresh0 := process.State();
    var end := process.Invoke(init, [], budget);
    if end.None? || !end.value.Response? {
      return [];
    }
    LastActive(init, [], fresh0, Active(fresh0, [], []), budget);
    process.ArenaFreeze();
    log := process.LambdaEventLoop(h, budget, host, script, k);
  }

  // The process that begins to poll, if the top-level statements get through.
  function Initialised(init: Handler, budget: nat, staticBase: nat, requestBase: nat): Option<Proc> {
    match Steps(init, [], Active(Process.Initial(staticBase, requestBase), [], []), budget)
    case Stopped(Response(_), q) => Some(q.(frozen := true))
    case _ => None
  }

  // The process begins to poll exactly if the exchange of the top-level
  // statements ends, with whatever result; it starts with the words that they
  // left, behind a frozen arena.
  lemma InitialisedIff(init: Handler, budget: nat, staticBase: nat, requestBase: nat)
    requires staticBase % 4096 == 0 && requestBase % 4096 == 0
    requires staticBase + STATIC_ARENA_SIZE <= requestBase || requestBase + REQ_ARENA_SIZE <= staticBase
    ensures var p := Process.Initial(staticBase, requestBase);
      var end := Initialised(init, budget, staticBase, requestBase);
      && (end.Some? <==> exists turns, t :: E.EndsIn(init, [], p, budget, turns, t))
      && (forall turns, t :: E.EndsIn(init, [], p, budget, turns, t) ==> end.Some? && Left(p, turns, end.value))
  {
    hide Steps, E.EndsIn, Left, Process.Initial;
    FreshValid(staticBase, requestBase);
    ExchangeEnds(init, budget, Process.Initial(staticBase, requestBase));
  }

  lemma FreshValid(staticBase: nat, requestBase: nat)
    requires staticBase % 4096 == 0 && requestBase % 4096 == 0
    requires staticBase + STATIC_ARENA_SIZE <= requestBase || requestBase + REQ_ARENA_SIZE <= staticBase
    ensures Process.Initial(staticBase, requestBase).Valid()
  {
    PageAligned(staticBase);
    PageAligned(requestBase);
  }

  lemma PageAligned(at: nat)
    requires at % 4096 == 0
    ensures at % 8 == 0
  {
    M.ModUnique(at, 512 * (at / 4096), 0, 8);
  }

  lemma ExchangeEnds(init: Handler, budget: nat, p: Proc)
    requires p.Valid()
    ensures var b := Steps(init, [], Active(p, [], []), budget);
      && (b.Stopped? && b.outcome.Response? <==> exists turns, t :: E.EndsIn(init, [], p, budget, turns, t))
      && (forall turns, t :: E.EndsIn(init, [], p, budget, turns, t) ==>
            b.Stopped? && Left(p, turns, b.q.(frozen := true)))
  {
    hide Steps, E.EndsIn, Left;
    var b := Steps(init, [], Active(p, [], []), budget);
    if b.Stopped? && b.outcome.Response? {
      E.RespondsIff(init, [], p, budget, b.outcome.text);
    }
    forall turns, t | E.EndsIn(init, [], p, budget, turns, t)
      ensures b.Stopped? && b.outcome.Response? && Left(p, turns, b.q.(frozen := true))
    {
      E.RespondsIff(init, [], p, budget, t);
      LeftBehind(init, budget, p, turns, t);
    }
  }

  // What an exchange leaves to the process q.
  ghost predicate Left(p: Proc, turns: seq<E.Turn>, q: Proc) {
    && q.frozen && (forall k: nat :: k % 8 == 0 ==> q.Word(k) == E.LastWritten(p, turns, k))
    && q.statics == p.statics.(cursor := p.statics.cursor + E.Handed(turns, StaticTag))
    && q.requests == p.requests.(cursor := p.requests.cursor + E.Handed(turns, ReqTag))
  }

  lemma LeftBehind(init: Handler, budget: nat, p: Proc, turns: seq<E.Turn>, t: seq<char>)
    requires p.Valid() && E.EndsIn(init, [], p, budget, turns, t)
    ensures var b := Steps(init, [], Active(p, [], []), budget); b.Stopped? && Left(p, turns, b.q.(frozen := true))
  {
    hide E.Exchanged, Take, E.LastWritten, E.Handed, E.Built;
    var start := Active(p, [], []);
    E.ExchangeRuns(init, [], p, turns);
    E.TakeTurn(init, [], p, turns, Steps(init, [], start, |turns|));
    E.StepsSnoc(init, [], start, |turns|);
    StepsMore(init, [], start, |turns| + 1, budget);
  }

  // The pair of requests number i of a transcript: a poll, and a POST with the
  // answer of p.
  predicate Pair(h: Handler, p: Proc, budget: nat, room: nat, poll: seq<char>, host: string,
                 get: seq<char>, post: seq<char>)
    requires P.OrderlyPoll(poll)
  {
    && get == P.RequestText("GET", P.NEXT_PATH, host, "")
    && match Answer(h, p, budget, room, P.BodyOf(poll))
       case None => false
       case Some(text) => post == P.RequestText("POST", P.InvocationPath(P.IdOf(poll), "/response"), host, text)
  }

  // A process that a reset leaves as it is gives every answer itself.
  lemma {:induction false} SameProcessAnswers(h: Handler, p: Proc, budget: nat, room: nat, script: seq<P.Exchange>,
                                              host: string, i: nat)
    requires P.Playable(script) && Reset(p) == p
    requires 2 * i + 1 < |Transcript(h, p, budget, room, script, host)|
    ensures var t := Transcript(h, p, budget, room, script, host);
      && 2 * i < |script| && P.OrderlyPoll(script[2 * i].answer)
      && Pair(h, p, budget, room, script[2 * i].answer, host, t[2 * i], t[2 * i + 1])
    decreases i
  {
    hide P.OrderlyPoll, P.Orderly, P.RequestText, Answer, P.BodyOf, P.IdOf, P.InvocationPath;
    if i > 0 {
      var t, rest := Transcript(h, p, budget, room, script, host), Transcript(h, p, budget, room, script[2..], host);
      assert t[2..] == rest;
      SameProcessAnswers(h, p, budget, room, script[2..], host, i - 1);
      assert script[2 * i] == script[2..][2 * (i - 1)];
    }
  }

  // Top-level statements that allocate with their own tag only leave a process
  // that answers every event, not just from the second on, as if nothing had
  // been served before.
  lemma EveryEventAnsweredAsFirst(init: Handler, h: Handler, budget: nat, staticBase: nat, requestBase: nat,
                                  room: nat, script: seq<P.Exchange>, host: string, i: nat)
    requires StaticOnly(init) && Initialised(init, budget, staticBase, requestBase).Some? && P.Playable(script)
    requires var p := Initialised(init, budget, staticBase, requestBase).value;
      2 * i + 1 < |Transcript(h, p, budget, room, script, host)|
    ensures var p := Initialised(init, budget, staticBase, requestBase).value;
      var t := Transcript(h, p, budget, room, script, host);
      && 2 * i < |script| && P.OrderlyPoll(script[2 * i].answer)
      && Pair(h, p, budget, room, script[2 * i].answer, host, t[2 * i], t[2 * i + 1])
  {
    hide Transcript, Steps, Pair;
    var p := Initialised(init, budget, staticBase, requestBase).value;
    InitLeavesRequests(init, budget, staticBase, requestBase);
    SameProcessAnswers(h, p, budget, room, script, host, i);
  }

  lemma InitLeavesRequests(init: Handler, budget: nat, staticBase: nat, requestBase: nat)
    requires StaticOnly(init) && Initialised(init, budget, staticBase, requestBase).Some?
    ensures var p := Initialised(init, budget, staticBase, requestBase).value; Reset(p) == p
  {
    StaticOnlySteps(init, [], Active(Process.Initial(staticBase, requestBase), [], []), budget);
  }
}
