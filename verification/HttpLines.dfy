// What each line break of a response makes the parser do, read off the bytes of
// its line: which streams shut the runtime down, and which are refused.

module HttpLines {
  import opened Wrappers
  import opened HttpText
  import opened HttpParser
  import Limits = HttpLimits

  // Where the line of byte k begins.
  function LineBegin(data: seq<char>, k: nat): (s: nat)
    requires k <= |data|
    ensures s <= k && '\n' !in data[s..k] && (s == 0 || data[s - 1] == '\n')
  {
    if k == 0 || data[k - 1] == '\n' then k
    else
      var s := LineBegin(data, k - 1);
      assert data[s..k] == data[s..k - 1] + [data[k - 1]];
      s
  }

  datatype Ending = Early | NoReturn | Empty | Gone410 | Ordinary

  // The line that a line feed ends: there is no room for a line in front of it,
  // there is no carriage return, the line is empty, or it is the status line of
  // a container that is being shut down.
  function LineEnding(data: seq<char>, k: nat): Ending
    requires k < |data|
  {
    if k < 3 then Early
    else if data[k - 1] != '\r' then NoReturn
    else if data[k - 2] == '\n' then Empty
    else
      var line := data[LineBegin(data, k)..k];
      if "HTTP/1.0 410" <= line && ':' !in line then Gone410 else Ordinary
  }

  predicate Stops(data: seq<char>, k: nat)
    requires k < |data|
  {
    data[k] == '\n' && !LineEnding(data, k).Ordinary?
  }

  // The first line feed that ends anything but an ordinary line.
  ghost predicate FirstStop(data: seq<char>, k: nat) {
    k < |data| && Stops(data, k) && forall j :: 0 <= j < k ==> !Stops(data, j)
  }

  // ----- the scan stops there -----

  // The header variables are those of the line that pp is on.
  ghost predicate OnLine(data: seq<char>, pp: nat, h: Header) {
    && pp <= |data| && HeaderOk(h, pp) && h.lineStart == LineBegin(data, pp)
    && (h.delimiter.None? <==> ':' !in data[h.lineStart..pp])
  }

  lemma BreakAt(data: seq<char>, pp: nat, h: Header)
    requires OnLine(data, pp, h) && pp < |data| && data[pp] == '\n'
    ensures var b := LineBreak(data, |data|, pp, h);
      match LineEnding(data, pp)
      case Early => b == Bad(EarlyLineBreak)
      case NoReturn => b == Bad(BareLineFeed)
      case Empty => BlankAt(data, pp) && b == (if h.contentLength < 0 then Bad(MissingContentLength) else BlankLine)
      case Gone410 => b == Gone
      case Ordinary => b.NextLine?
    ensures BlankAt(data, pp) <==> LineEnding(data, pp).Empty?
  {
    hide StrnEq, Atoi, GoneAt;
    if h.delimiter.None? {
      GoneLocal(data, |data|, pp, h.lineStart);
      assert GONE == "HTTP/1.0 410";
    }
  }

  lemma LineGoesOn(data: seq<char>, pp: nat, h: Header)
    requires OnLine(data, pp, h) && pp < |data|
    ensures data[pp] != '\n' ==> LineBegin(data, pp + 1) == h.lineStart
    ensures data[pp] != '\n' ==>
      (':' in data[h.lineStart..pp + 1] <==> data[pp] == ':' || ':' in data[h.lineStart..pp])
    ensures data[pp] == '\n' ==> LineBegin(data, pp + 1) == pp + 1
  {
    assert data[h.lineStart..pp + 1] == data[h.lineStart..pp] + [data[pp]];
  }

  // The scan stops at the first such line feed, with its outcome.
  lemma {:induction false} ScanStops(data: seq<char>, pp: nat, h: Header)
    requires OnLine(data, pp, h) && forall j :: 0 <= j < pp ==> !Stops(data, j)
    ensures match StopsAt(data, pp, h)
      case None => forall j :: 0 <= j < |data| ==> !Stops(data, j)
      case Some(k) =>
        && FirstStop(data, k) && (BlankAt(data, k) <==> LineEnding(data, k).Empty?)
        && StoppedBy(LineEnding(data, k), OneShot(data, pp, h))
    decreases |data| - pp
  {
    hide LineBreak, LineEnding, BlankAt;
    if pp < |data| {
      LineGoesOn(data, pp, h);
      if data[pp] == ':' {
        ScanStops(data, pp + 1, h.(delimiter := Some(pp)));
      } else if data[pp] != '\n' {
        ScanStops(data, pp + 1, h);
      } else {
        BreakAt(data, pp, h);
        var b := LineBreak(data, |data|, pp, h);
        if b.NextLine? {
          NextLineFresh(data, pp, h);
          ScanStops(data, pp + 1, b.h);
        }
      }
    }
  }

  lemma NextLineFresh(data: seq<char>, pp: nat, h: Header)
    requires pp < |data| && HeaderOk(h, pp) && LineBreak(data, |data|, pp, h).NextLine?
    ensures LineBreak(data, |data|, pp, h).h.delimiter.None?
  {
  }

  // What a stop in front of the body comes to.
  predicate StoppedBy(e: Ending, o: Outcome) {
    match e
    case Early => o == Fatal(EarlyLineBreak)
    case NoReturn => o == Fatal(BareLineFeed)
    case Gone410 => o == Shutdown
    case _ => o != Shutdown && o != Fatal(EarlyLineBreak) && o != Fatal(BareLineFeed)
  }

  // ----- every run does -----

  lemma {:induction false} BodyGoesOn(p: Parser, net: Net, capacity: nat)
    requires p.Valid() && p.bodyStart.Some?
    ensures StoppedBy(Empty, Run(p, net, capacity).0)
    decreases |net.pending| + p.total - p.pp
  {
    hide ScanByte, Recv;
    if p.remain != 0 && Turn(p, net, capacity).Continue? {
      BodyGoesOn(Turn(p, net, capacity).p, Turn(p, net, capacity).net, capacity);
    }
  }

  // How a run can end whose stream stops as c says.
  predicate Ended(o: Outcome, data: seq<char>, capacity: nat, c: Course) {
    match c.stop
    case None => o == Fatal(ConnectionClosed) || o == NoHeaders
    case Some(k) =>
      if k >= |data| || BlankAt(data, k) then StoppedBy(Empty, o)
      else (o == c.outcome && k < capacity) || (o == NoHeaders && capacity <= |data|)
  }

  lemma {:induction false} RunEnds(p: Parser, net: Net, data: seq<char>, capacity: nat, c: Course, h: Header)
    requires OnCourse(p, net, data, capacity, c, h) && p.bodyStart.None? && capacity < |p.buf|
    ensures Ended(Run(p, net, capacity).0, data, capacity, c)
    decreases |net.pending| + p.total - p.pp, 1
  {
    hide ScanByte, Recv, HeadersEnd, StopsAt, LastLength, LineBreak, OneShot, Sure, Alike;
    if p.remain != 0 {
      if p.pp < p.total {
        ByteEnds(p, net, p, net, data, capacity, c, h);
      } else {
        var (n, rest) := Recv(net, Wanted(p.remain, net));
        if n != 0 {
          ArriveOnCourse(p, net, rest, data, capacity, n, c, h);
          ByteEnds(p, net, Arrive(p, net.pending[..n]), rest, data, capacity, c, h);
        } else {
          AtTheEnd(data, p.pp, h, c);
        }
      }
    }
  }

  lemma AtTheEnd(data: seq<char>, pp: nat, h: Header, c: Course)
    requires Follows(data, pp, h, c) && pp == |data|
    ensures c.stop == None
  {
  }

  lemma {:induction false} ByteEnds(p: Parser, net: Net, q: Parser, rest: Net, data: seq<char>, capacity: nat,
                                    c: Course, h: Header)
    requires OnCourse(q, rest, data, capacity, c, h) && q.bodyStart.None? && q.pp < q.total && capacity < |q.buf|
    requires p.Valid() && p.remain != 0 && q.pp < capacity && Turn(p, net, capacity) == ScanByte(q, rest)
    ensures Ended(Run(p, net, capacity).0, data, capacity, c)
    decreases |rest.pending| + q.total - q.pp, 0
  {
    hide ScanByte, Recv, Turn, HeadersEnd, StopsAt, LastLength, LineBreak, OneShot, Sure, Alike, Follows, BlankAt;
    var h' := ByteOnCourse(q, rest, data, capacity, c, h);
    if ScanByte(q, rest).Continue? {
      var r := ScanByte(q, rest).p;
      if r.bodyStart.Some? {
        BodyGoesOn(r, rest, capacity);
      } else {
        RunEnds(r, rest, data, capacity, c, h');
      }
    }
  }

  // What any run over a stream can end in.
  lemma RunStops(buf: seq<char>, data: seq<char>, sizes: seq<nat>, capacity: nat, k: nat)
    requires capacity < |buf| && FirstStop(data, k)
    ensures var e, o := LineEnding(data, k), Limits.Result(buf, data, sizes, capacity);
      if e.Empty? then StoppedBy(e, o)
      else (k < capacity && StoppedBy(e, o)) || (o == NoHeaders && capacity <= |data|)
    ensures StopsAt(data, 0, NO_HEADER) == Some(k)
  {
    hide OneShot, StopsAt, OnCourse, Run, LineEnding, FirstStop, BlankAt;
    StartOnCourse(buf, data, sizes, capacity);
    RunEnds(Start(buf, capacity), Net(data, sizes), data, capacity, CourseOf(data), NO_HEADER);
    ScanStops(data, 0, NO_HEADER);
    OnlyOne(data, k);
  }

  lemma OnlyOne(data: seq<char>, k: nat)
    requires FirstStop(data, k)
    ensures forall j :: FirstStop(data, j) <==> j == k
    ensures exists j :: 0 <= j < |data| && Stops(data, j)
  {
  }

  // ----- exactly which streams -----

  // The stream's first such line feed is within the capacity and ends e.
  ghost predicate StopsWith(data: seq<char>, capacity: nat, e: Ending) {
    exists k: nat :: k < capacity && EndsFirst(data, k, e)
  }

  ghost predicate EndsFirst(data: seq<char>, k: nat, e: Ending) {
    FirstStop(data, k) && LineEnding(data, k) == e
  }

  // What ends the runtime in front of the body.
  function Verdict(e: Ending): Outcome
    requires e.Early? || e.NoReturn? || e.Gone410?
  {
    match e
    case Early => Fatal(EarlyLineBreak)
    case NoReturn => Fatal(BareLineFeed)
    case Gone410 => Shutdown
  }

  // A run comes to this verdict only on such a stream; and on such a stream it
  // does, unless the capacity is used up.
  lemma VerdictRuns(buf: seq<char>, data: seq<char>, sizes: seq<nat>, capacity: nat, e: Ending)
    requires capacity < |buf| && (e.Early? || e.NoReturn? || e.Gone410?)
    ensures var o := Limits.Result(buf, data, sizes, capacity);
      && (o == Verdict(e) ==> StopsWith(data, capacity, e))
      && (StopsWith(data, capacity, e) ==> o == Verdict(e) || (o == NoHeaders && capacity <= |data|))
  {
    hide StopsAt, OneShot, LineEnding, Stops, OnCourse, Run;
    StartOnCourse(buf, data, sizes, capacity);
    RunEnds(Start(buf, capacity), Net(data, sizes), data, capacity, CourseOf(data), NO_HEADER);
    ScanStops(data, 0, NO_HEADER);
    var stop := StopsAt(data, 0, NO_HEADER);
    if stop.Some? {
      RunStops(buf, data, sizes, capacity, stop.value);
      assert EndsFirst(data, stop.value, LineEnding(data, stop.value));
    }
    if k: nat :| k < capacity && EndsFirst(data, k, e) {
      RunStops(buf, data, sizes, capacity, k);
    }
  }

  // Such a cut exists: right in front of the line feed.
  lemma VerdictCut(buf: seq<char>, data: seq<char>, capacity: nat, e: Ending) returns (sizes: seq<nat>)
    requires capacity < |buf| && (e.Early? || e.NoReturn? || e.Gone410?) && StopsWith(data, capacity, e)
    ensures Limits.Result(buf, data, sizes, capacity) == Verdict(e)
  {
    hide StopsAt, LineEnding, Stops, Limits.Result;
    var k: nat :| k < capacity && EndsFirst(data, k, e);
    sizes := [k, 1];
    VerdictRuns(buf, data, sizes, capacity, e);
    RunStops(buf, data, sizes, capacity, k);
    if k == 0 {
      Limits.LineFeedFirst(buf, data, sizes, capacity);
    } else {
      Limits.StopReached(buf, data, capacity, k);
    }
  }

  ghost predicate SomeRun(data: seq<char>, capacity: nat, n: nat, o: Outcome) {
    exists buf, sizes :: |buf| == n && Limits.Result(buf, data, sizes, capacity) == o
  }

  ghost predicate AllRuns(data: seq<char>, capacity: nat, n: nat, o: Outcome) {
    forall buf, sizes | |buf| == n :: Limits.Result(buf, data, sizes, capacity) == o
  }

  // For every stream, capacity and size of the buffer: some way of cutting it
  // comes to the verdict exactly if the stream stops with it; and all ways do
  // exactly if, in addition, it is shorter than the capacity or begins with a
  // line feed.
  lemma VerdictIff(data: seq<char>, capacity: nat, n: nat, e: Ending)
    requires capacity < n && (e.Early? || e.NoReturn? || e.Gone410?)
    ensures SomeRun(data, capacity, n, Verdict(e)) <==> StopsWith(data, capacity, e)
    ensures AllRuns(data, capacity, n, Verdict(e)) <==>
      StopsWith(data, capacity, e) && (|data| < capacity || data[0] == '\n')
  {
    hide StopsWith, Limits.Result, StopsAt;
    forall buf: seq<char>, sizes | |buf| == n
      ensures var o := Limits.Result(buf, data, sizes, capacity);
        && (o == Verdict(e) ==> StopsWith(data, capacity, e))
        && (StopsWith(data, capacity, e) ==> o == Verdict(e) || (o == NoHeaders && capacity <= |data|))
    {
      VerdictRuns(buf, data, sizes, capacity, e);
    }
    var stale := seq(n, i => 'x');
    if StopsWith(data, capacity, e) {
      var sizes := VerdictCut(stale, data, capacity, e);
      FeedFirst(data, capacity, e);
      if |data| >= capacity {
        WholePiece(data, capacity, n);
      }
    } else {
      assert Limits.Result(stale, data, [], capacity) != Verdict(e);
    }
  }

  lemma FeedFirst(data: seq<char>, capacity: nat, e: Ending)
    requires StopsWith(data, capacity, e)
    ensures |data| > 0 && capacity > 0
  {
  }

  // A stream that uses up the capacity in one piece.
  lemma WholePiece(data: seq<char>, capacity: nat, n: nat)
    requires 0 < capacity <= |data| && capacity < n
    ensures data[0] != '\n' ==> Limits.Result(seq(n, i => 'x'), data, [], capacity) == NoHeaders
    ensures data[0] == '\n' ==>
      forall buf: seq<char>, sizes | |buf| == n :: Limits.Result(buf, data, sizes, capacity) == Fatal(EarlyLineBreak)
    ensures data[0] == '\n' ==> StopsWith(data, capacity, Early)
    ensures data[0] == '\n' ==> forall e | StopsWith(data, capacity, e) :: e == Early
  {
    hide Limits.Result, LineBegin;
    ScanStops(data, 0, NO_HEADER);
    if data[0] == '\n' {
      assert EndsFirst(data, 0, Early);
      forall buf: seq<char>, sizes | |buf| == n
        ensures Limits.Result(buf, data, sizes, capacity) == Fatal(EarlyLineBreak)
      {
        Limits.LineFeedFirst(buf, data, sizes, capacity);
      }
    } else {
      Limits.OnePiece(seq(n, i => 'x'), data, capacity);
    }
  }

  // ----- the shutdown -----

  // An outcome is the shutdown only if the stream says so; and if it does, then
  // there is no other outcome, unless the capacity is used up.
  ghost predicate GoneOnly(net: Net, capacity: nat, o: Outcome) {
    && (o == Shutdown ==> StopsWith(net.pending, capacity, Gone410))
    && (StopsWith(net.pending, capacity, Gone410) ==> o == Shutdown || (o == NoHeaders && capacity <= |net.pending|))
  }

  lemma GoneOnlyRuns(buf: seq<char>, net: Net, capacity: nat)
    requires capacity < |buf|
    ensures GoneOnly(net, capacity, Run(Start(buf, capacity), net, capacity).0)
  {
    VerdictRuns(buf, net.pending, net.sizes, capacity, Gone410);
  }

  // The runtime shuts down, in some way of cutting the stream, if and only if
  // the first line feed within the capacity that ends anything but an ordinary
  // line ends a status line of a container that is being shut down; and in all
  // ways, if and only if the stream is also shorter than the capacity.
  lemma ShutdownIff(data: seq<char>, capacity: nat, n: nat)
    requires capacity < n
    ensures SomeRun(data, capacity, n, Shutdown) <==> StopsWith(data, capacity, Gone410)
    ensures AllRuns(data, capacity, n, Shutdown) <==> StopsWith(data, capacity, Gone410) && |data| < capacity
  {
    hide SomeRun, AllRuns, StopsAt;
    VerdictIff(data, capacity, n, Gone410);
    if StopsWith(data, capacity, Gone410) {
      var k: nat :| k < capacity && EndsFirst(data, k, Gone410);
      assert Stops(data, 0) <== data[0] == '\n';
    }
  }

  // A first line with the status, without a colon and with a proper break, is
  // enough, whatever follows it.
  lemma GoneFirstLine(line: seq<char>, rest: seq<char>, capacity: nat, n: nat)
    requires "HTTP/1.0 410" <= line && ':' !in line && '\n' !in line && capacity < n
    ensures var data := line + "\r\n" + rest;
      && (AllRuns(data, capacity, n, Shutdown) <==> |data| < capacity)
      && (SomeRun(data, capacity, n, Shutdown) <==> |line| + 1 < capacity)
  {
    hide SomeRun, AllRuns;
    var data, k := line + "\r\n" + rest, |line| + 1;
    ShutdownIff(data, capacity, n);
    assert "HTTP/1.0 410"[11] == '0';
    assert data[..|line|] == line && data[|line|] == '\r' && data[k] == '\n' && data[|line| - 1] == line[|line| - 1];
    FirstLine(data, k);
    assert data[0..k] == line + "\r";
    assert EndsFirst(data, k, Gone410);
    OnlyOne(data, k);
  }

  lemma FirstLine(data: seq<char>, k: nat)
    requires k < |data| && '\n' !in data[..k]
    ensures LineBegin(data, k) == 0 && forall j :: 0 <= j < k ==> data[j] != '\n'
  {
    forall j | 0 <= j < k
      ensures data[j] != '\n'
    {
      assert data[j] == data[..k][j];
    }
  }
}
