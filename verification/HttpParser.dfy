// The response parser of the runtime as a loop over received chunks: its
// state, its turns and whole runs, and what it computes from a byte stream no
// matter how the stream is cut.

module HttpParser {
  import opened Wrappers
  import opened HttpText

  // ----- the network -----

  // What the peer will still send before it closes, and how much each call of
  // recv is to deliver; 0 stands for a call interrupted by a signal.
  datatype Net = Net(pending: seq<char>, sizes: seq<nat>)

  function Min(a: nat, b: nat): nat { if a < b then a else b }

  // One call of recv: None if interrupted, otherwise the number of bytes.
  function RecvOnce(net: Net, max: nat): (r: (Option<nat>, Net))
    requires max > 0
    ensures r.0.Some? ==> r.0.value <= max && r.0.value <= |net.pending|
    ensures r.0.Some? ==> r.1.pending == net.pending[r.0.value..]
    ensures r.0 == Some(0) ==> net.pending == []
    ensures r.0.None? ==> |r.1.sizes| < |net.sizes| && r.1.pending == net.pending
  {
    if net.sizes == [] then
      var n := Min(max, |net.pending|);
      (Some(n), Net(net.pending[n..], []))
    else if net.sizes[0] == 0 then
      (None, Net(net.pending, net.sizes[1..]))
    else
      var n := Min(net.sizes[0], Min(max, |net.pending|));
      (Some(n), Net(net.pending[n..], net.sizes[1..]))
  }

  // Interrupted calls are repeated.
  function Recv(net: Net, max: nat): (r: (nat, Net))
    requires max > 0
    ensures r.0 <= max && r.0 <= |net.pending| && r.1.pending == net.pending[r.0..]
    ensures r.0 == 0 ==> net.pending == []
    decreases |net.sizes|
  {
    var (n, rest) := RecvOnce(net, max);
    if n.Some? then (n.value, rest) else Recv(rest, max)
  }

  // ----- the parser -----

  // bodyStart is set once the blank line has been seen; `remain` is the free
  // capacity before that, and the number of missing body bytes after it.
  datatype Parser = Parser(buf: seq<char>, total: nat, remain: int, pp: nat, h: Header, bodyStart: Option<nat>)
  {
    predicate Valid() {
      && pp <= total <= |buf| && HeaderOk(h, pp)
      && (bodyStart.Some? ==> pp == total && bodyStart.value <= total)
    }
  }

  // NoHeaders: the capacity was used up before the blank line; http returns
  // with a null body.
  datatype Outcome =
    | Complete(bodyStart: nat, contentLength: int, requestId: Option<Slice>)
    | Shutdown
    | Fatal(reason: Reason)
    | NoHeaders

  datatype Turned = Continue(p: Parser, net: Net) | Finish(outcome: Outcome)

  // The byte at the parse point.
  function ScanByte(p: Parser, net: Net): (r: Turned)
    requires p.Valid() && p.bodyStart.None? && p.pp < p.total
    ensures r.Continue? ==> r.p.Valid() && r.net == net && r.p.total == p.total && r.p.pp > p.pp
    ensures r.Continue? ==> r.p.buf == p.buf
    ensures r.Finish? ==> r.outcome.Shutdown? || r.outcome.Fatal?
    ensures r.Finish? ==> r.outcome != Fatal(GuardPage)
  {
    var next := p.(pp := p.pp + 1);
    if p.buf[p.pp] == ':' then Continue(next.(h := p.h.(delimiter := Some(p.pp))), net)
    else if p.buf[p.pp] != '\n' then Continue(next, net)
    else
      match LineBreak(p.buf, p.total, p.pp, p.h)
      case Bad(reason) => Finish(Fatal(reason))
      case Gone => Finish(Shutdown)
      case NextLine(h) => Continue(next.(h := h), net)
      case BlankLine =>
        Continue(p.(bodyStart := Some(p.pp + 1), pp := p.total,
                    remain := p.h.contentLength - (p.total - (p.pp + 1))), net)
  }

  // n bytes arrive in the buffer.
  function Arrive(p: Parser, bytes: seq<char>): (q: Parser)
    requires p.Valid() && p.total + |bytes| <= |p.buf|
    ensures |q.buf| == |p.buf|
  {
    var n := |bytes|;
    p.(buf := p.buf[..p.total] + bytes + p.buf[p.total + n..], total := p.total + n, remain := p.remain - n)
  }

  // What a call of recv is allowed: `remain` as a size, which is more than any
  // peer sends if more than Content-Length body bytes came with the headers
  // and `remain` is negative.
  function Wanted(remain: int, net: Net): (max: nat)
    requires remain != 0
    ensures max > 0
  {
    if remain > 0 then remain else |net.pending| + 1
  }

  function Turn(p: Parser, net: Net, capacity: nat): (r: Turned)
    requires p.Valid() && p.remain != 0
    ensures r.Continue? ==> r.p.Valid()
    ensures r.Continue? ==>
      |r.net.pending| + r.p.total - r.p.pp < |net.pending| + p.total - p.pp
    ensures r.Continue? ==> |r.p.buf| == |p.buf|
    ensures r.Finish? ==> r.outcome.Shutdown? || r.outcome.Fatal?
  {
    if p.pp >= capacity then Finish(Fatal(BufferOverflow))
    else if p.pp < p.total then ScanByte(p, net)
    else
      var (n, rest) := Recv(net, Wanted(p.remain, net));
      if n == 0 then Finish(Fatal(ConnectionClosed))
      else if p.total + n > |p.buf| then Finish(Fatal(GuardPage))
      else
        var q := Arrive(p, net.pending[..n]);
        if p.bodyStart.Some? then Continue(q.(pp := p.pp + n), rest)
        else ScanByte(q, rest)
  }

  // The loop, and the NUL behind what was received.  Its measure: bytes not yet
  // received or not yet looked at.
  function Run(p: Parser, net: Net, capacity: nat): (r: (Outcome, Parser))
    requires p.Valid()
    ensures r.1.Valid() && |r.1.buf| == |p.buf|
    ensures r.0.Complete? ==> r.1.bodyStart == Some(r.0.bodyStart)
    ensures r.0.Complete? || r.0.NoHeaders? ==> r.1.total < |r.1.buf|
    decreases |net.pending| + p.total - p.pp
  {
    if p.remain == 0 then
      if p.total >= |p.buf| then (Fatal(GuardPage), p)
      else
        (match p.bodyStart
         case Some(b) => (Complete(b, p.h.contentLength, p.h.requestId), p)
         case None => (NoHeaders, p))
    else
      match Turn(p, net, capacity)
      case Finish(o) => (o, p)
      case Continue(q, rest) => Run(q, rest, capacity)
  }

  function Start(buf: seq<char>, capacity: nat): (p: Parser)
    ensures p.Valid()
  {
    Parser(buf, 0, capacity, 0, NO_HEADER, None)
  }

  // ----- what every turn keeps -----

  // `remain` is the free capacity until the blank line, and the number of
  // missing body bytes behind it; what was recognised lies among the bytes
  // received.
  predicate Accounted(p: Parser, capacity: nat) {
    && p.Valid()
    && (match p.bodyStart
        case None => p.remain == capacity - p.total
        case Some(b) => p.remain == p.h.contentLength - (p.total - b))
    && (p.h.requestId.Some? ==> p.h.requestId.value.off + p.h.requestId.value.len < p.total)
  }

  // A byte once received is never overwritten, and nothing is written behind
  // the bytes received; the headers are settled at the blank line.
  predicate Grown(p: Parser, q: Parser) {
    && p.total <= q.total <= |q.buf| == |p.buf|
    && q.buf[..p.total] == p.buf[..p.total] && q.buf[q.total..] == p.buf[q.total..]
    && (p.bodyStart.Some? ==> q.bodyStart == p.bodyStart && q.h == p.h)
  }

  // As long as no more than the declared body is expected and its end is within
  // the capacity, so is what has been received.
  lemma TurnKeeps(p: Parser, net: Net, capacity: nat)
    requires Accounted(p, capacity) && p.remain != 0 && Turn(p, net, capacity).Continue?
    ensures var q := Turn(p, net, capacity).p; Accounted(q, capacity) && Grown(p, q)
    ensures p.total <= capacity && (p.bodyStart.Some? ==> p.remain > 0 && DeclaredEnd(p) <= capacity) ==>
      Turn(p, net, capacity).p.total <= capacity
  {
    if p.pp >= p.total {
      var (n, rest) := Recv(net, Wanted(p.remain, net));
      var q := Arrive(p, net.pending[..n]);
      assert q.buf[..p.total] == p.buf[..p.total] && q.buf[q.total..] == p.buf[q.total..];
    }
  }

  function DeclaredEnd(p: Parser): int
    requires p.bodyStart.Some?
  {
    p.bodyStart.value + p.h.contentLength
  }

  // A run that completes has received exactly the declared body behind the
  // blank line, in place; the terminating NUL then goes to the byte behind it.
  lemma {:induction false} RunKeeps(p: Parser, net: Net, capacity: nat)
    requires Accounted(p, capacity)
    ensures var (o, q) := Run(p, net, capacity);
      && Accounted(q, capacity) && Grown(p, q)
      && (o.Complete? ==>
            && q.total == o.bodyStart + o.contentLength
            && o.requestId == q.h.requestId && o.contentLength == q.h.contentLength)
      && (o.NoHeaders? ==> q.total == capacity)
    decreases |net.pending| + p.total - p.pp
  {
    hide ScanByte, Recv, Turn;
    if p.remain != 0 && Turn(p, net, capacity).Continue? {
      TurnKeeps(p, net, capacity);
      var q := Turn(p, net, capacity).p;
      RunKeeps(q, Turn(p, net, capacity).net, capacity);
      var r := Run(p, net, capacity).1;
      assert r.buf[..p.total] == r.buf[..q.total][..p.total] && q.buf[..p.total] == q.buf[..q.total][..p.total];
      assert r.buf[r.total..] == q.buf[r.total..] == q.buf[q.total..][r.total - q.total..];
      assert p.buf[r.total..] == p.buf[q.total..][r.total - q.total..];
    }
  }

  // ----- the whole stream at once -----

  // The same scan over a stream that is there as a whole.
  function OneShot(data: seq<char>, pp: nat, h: Header): Outcome
    requires HeaderOk(h, pp)
    decreases |data| - pp
  {
    if pp >= |data| then Fatal(ConnectionClosed)
    else if data[pp] == ':' then OneShot(data, pp + 1, h.(delimiter := Some(pp)))
    else if data[pp] != '\n' then OneShot(data, pp + 1, h)
    else
      match LineBreak(data, |data|, pp, h)
      case Bad(reason) => Fatal(reason)
      case Gone => Shutdown
      case NextLine(h') => OneShot(data, pp + 1, h')
      case BlankLine => BodyOutcome(data, pp + 1, h)
  }

  function BodyOutcome(data: seq<char>, start: nat, h: Header): Outcome {
    if |data| == start + h.contentLength then Complete(start, h.contentLength, h.requestId)
    else Fatal(ConnectionClosed)
  }

  // Where the headers end, if the scan gets there.
  function HeadersEnd(data: seq<char>, pp: nat, h: Header): (r: Option<(nat, Header)>)
    requires HeaderOk(h, pp)
    ensures r.Some? ==> pp < r.value.0 <= |data| && r.value.1.contentLength >= 0
    ensures r.Some? ==> HeaderOk(r.value.1, r.value.0)
    decreases |data| - pp
  {
    if pp >= |data| then None
    else if data[pp] == ':' then HeadersEnd(data, pp + 1, h.(delimiter := Some(pp)))
    else if data[pp] != '\n' then HeadersEnd(data, pp + 1, h)
    else
      match LineBreak(data, |data|, pp, h)
      case NextLine(h') => HeadersEnd(data, pp + 1, h')
      case BlankLine => Some((pp + 1, h))
      case _ => None
  }

  // Every Content-Length line carries its number.
  predicate NumbersLocal(data: seq<char>, pp: nat, h: Header)
    requires HeaderOk(h, pp)
    decreases |data| - pp
  {
    if pp >= |data| then true
    else if data[pp] == ':' then NumbersLocal(data, pp + 1, h.(delimiter := Some(pp)))
    else if data[pp] != '\n' then NumbersLocal(data, pp + 1, h)
    else
      LocalNumber(data, pp, h) &&
      match LineBreak(data, |data|, pp, h)
      case NextLine(h') => NumbersLocal(data, pp + 1, h')
      case _ => true
  }

  // The first break of the header section that is not the end of a line: the
  // blank line, a malformed break, or the shutdown status.
  function StopsAt(data: seq<char>, pp: nat, h: Header): (k: Option<nat>)
    requires HeaderOk(h, pp)
    ensures k.Some? ==> pp <= k.value < |data|
    decreases |data| - pp
  {
    if pp >= |data| then None
    else if data[pp] == ':' then StopsAt(data, pp + 1, h.(delimiter := Some(pp)))
    else if data[pp] != '\n' then StopsAt(data, pp + 1, h)
    else
      match LineBreak(data, |data|, pp, h)
      case NextLine(h') => StopsAt(data, pp + 1, h')
      case _ => Some(pp)
  }

  // The last Content-Length line before that: its break, and the header
  // variables there.
  function LastLength(data: seq<char>, pp: nat, h: Header): (l: Option<(nat, Header)>)
    requires HeaderOk(h, pp)
    ensures l.Some? ==> pp <= l.value.0 < |data| && HeaderOk(l.value.1, l.value.0) && LengthLine(data, l.value.1)
    decreases |data| - pp
  {
    if pp >= |data| then None
    else if data[pp] == ':' then LastLength(data, pp + 1, h.(delimiter := Some(pp)))
    else if data[pp] != '\n' then LastLength(data, pp + 1, h)
    else
      match LineBreak(data, |data|, pp, h)
      case NextLine(h') =>
        var l := LastLength(data, pp + 1, h');
        if l.None? && LengthLine(data, h) then Some((pp, h)) else l
      case _ => None
  }

  // The length that holds at the end of the headers is in the stream: there is
  // no Content-Length line, or the last one carries its number.
  predicate Settled(data: seq<char>) {
    Carried(data, LastLength(data, 0, NO_HEADER))
  }

  predicate Carried(data: seq<char>, l: Option<(nat, Header)>)
    requires l.Some? ==> l.value.0 < |data| && HeaderOk(l.value.1, l.value.0)
  {
    l.Some? ==> LocalNumber(data, l.value.0, l.value.1)
  }

  // Body bytes beyond the declared length.
  predicate Excess(data: seq<char>) {
    var e := HeadersEnd(data, 0, NO_HEADER);
    e.Some? && |data| > e.value.0 + e.value.1.contentLength
  }

  // The scan ends at a blank line.
  predicate BlankStop(data: seq<char>) {
    var k := StopsAt(data, 0, NO_HEADER);
    k.Some? && BlankAt(data, k.value)
  }

  // The stream determines its outcome: if there is a blank line, then also how
  // many body bytes there should be, and there are no more.
  predicate Determined(data: seq<char>) {
    BlankStop(data) ==> Settled(data) && !Excess(data)
  }

  // Lines that all carry their numbers, in particular the last one.
  lemma {:induction false} NumbersCarried(data: seq<char>, pp: nat, h: Header)
    requires HeaderOk(h, pp) && NumbersLocal(data, pp, h)
    ensures Carried(data, LastLength(data, pp, h))
    decreases |data| - pp
  {
    hide LocalNumber;
    if pp < |data| {
      if data[pp] == ':' {
        NumbersCarried(data, pp + 1, h.(delimiter := Some(pp)));
      } else if data[pp] != '\n' {
        NumbersCarried(data, pp + 1, h);
      } else if LineBreak(data, |data|, pp, h).NextLine? {
        NumbersCarried(data, pp + 1, LineBreak(data, |data|, pp, h).h);
      }
    }
  }

  lemma NumbersDetermined(data: seq<char>)
    requires NumbersLocal(data, 0, NO_HEADER) && !Excess(data)
    ensures Determined(data)
  {
    NumbersCarried(data, 0, NO_HEADER);
  }

  // ----- runs follow the scan of the stream -----

  // The parser has received data[..total] and the rest is on its way.
  predicate Tracks(p: Parser, net: Net, data: seq<char>) {
    && p.Valid() && p.total <= |data|
    && p.buf[..p.total] == data[..p.total] && net.pending == data[p.total..]
  }

  lemma ArriveTracks(p: Parser, net: Net, rest: Net, data: seq<char>, n: nat)
    requires Tracks(p, net, data) && n <= |net.pending| && p.total + n <= |p.buf|
    requires rest.pending == net.pending[n..]
    ensures var q := Arrive(p, net.pending[..n]);
      && q.total <= |data| && q.buf[..q.total] == data[..q.total] && rest.pending == data[q.total..]
  {
    var q := Arrive(p, net.pending[..n]);
    assert q.buf[..q.total] == p.buf[..p.total] + net.pending[..n];
    assert data[..q.total] == data[..p.total] + data[p.total..][..n];
  }

  // What the scan of a stream comes to: where its headers end, where it stops,
  // its last Content-Length line, and its outcome.
  datatype Course = Course(end: Option<(nat, Header)>, stop: Option<nat>, last: Option<(nat, Header)>,
                           outcome: Outcome)

  function CourseOf(data: seq<char>): Course {
    Course(HeadersEnd(data, 0, NO_HEADER), StopsAt(data, 0, NO_HEADER), LastLength(data, 0, NO_HEADER),
           OneShot(data, 0, NO_HEADER))
  }

  // The scan that stands at pp with the header variables h comes to c.
  predicate Follows(data: seq<char>, pp: nat, h: Header, c: Course) {
    && HeaderOk(h, pp)
    && HeadersEnd(data, pp, h) == c.end && StopsAt(data, pp, h) == c.stop && OneShot(data, pp, h) == c.outcome
    && (LastLength(data, pp, h).Some? ==> LastLength(data, pp, h) == c.last)
  }

  predicate Sure(data: seq<char>, c: Course) {
    c.last.Some? ==>
      && c.last.value.0 < |data| && HeaderOk(c.last.value.1, c.last.value.0)
      && LocalNumber(data, c.last.value.0, c.last.value.1)
  }

  // The parser has received data[..total], and its header variables are those of
  // the scan, h, except that its length is another one as long as that does not
  // come from a number in the stream.
  ghost predicate OnCourse(p: Parser, net: Net, data: seq<char>, capacity: nat, c: Course, h: Header) {
    && Tracks(p, net, data)
    && match p.bodyStart
       case None =>
         && p.remain == capacity - p.total >= 0
         && Follows(data, p.pp, h, c) && Alike(p.h, h)
         && (LastLength(data, p.pp, h).None? && Sure(data, c) ==> p.h == h)
       case Some(b) =>
         && p.h.contentLength >= 0 && p.remain == p.h.contentLength - (p.total - b)
         && c.stop == Some(b - 1) && 0 < b <= |data| && BlankAt(data, b - 1)
         && (Sure(data, c) ==> c.end == Some((b, p.h)) && c.outcome == BodyOutcome(data, b, p.h))
  }

  lemma StartOnCourse(buf: seq<char>, data: seq<char>, sizes: seq<nat>, capacity: nat)
    ensures OnCourse(Start(buf, capacity), Net(data, sizes), data, capacity, CourseOf(data), NO_HEADER)
  {
    assert data[0..] == data;
  }

  // One byte of the scan: it stops, or goes on with h'.
  function After(data: seq<char>, pp: nat, h: Header): (r: Option<Header>)
    requires HeaderOk(h, pp) && pp < |data|
    ensures r.Some? ==> HeaderOk(r.value, pp + 1)
  {
    if data[pp] == ':' then Some(h.(delimiter := Some(pp)))
    else if data[pp] != '\n' then Some(h)
    else
      match LineBreak(data, |data|, pp, h)
      case NextLine(h') => Some(h')
      case _ => None
  }

  predicate LengthBreak(data: seq<char>, pp: nat, h: Header)
    requires HeaderOk(h, pp) && pp < |data|
  {
    data[pp] == '\n' && LengthLine(data, h)
  }

  lemma FollowsByte(data: seq<char>, pp: nat, h: Header, c: Course)
    requires Follows(data, pp, h, c) && pp < |data|
    ensures After(data, pp, h).Some? ==>
      && Follows(data, pp + 1, After(data, pp, h).value, c) && c.stop != Some(pp)
      && var l := LastLength(data, pp + 1, After(data, pp, h).value);
      && (LastLength(data, pp, h).None? ==> l.None? && !LengthBreak(data, pp, h))
      && (LastLength(data, pp, h).Some? && l.None? ==> LengthBreak(data, pp, h) && c.last == Some((pp, h)))
    ensures After(data, pp, h).None? ==>
      && c.stop == Some(pp) && data[pp] == '\n' && LastLength(data, pp, h).None?
      && c.end == (if LineBreak(data, |data|, pp, h).BlankLine? then Some((pp + 1, h)) else None)
      && match LineBreak(data, |data|, pp, h)
         case Bad(reason) => c.outcome == Fatal(reason)
         case Gone => c.outcome == Shutdown
         case _ => c.outcome == BodyOutcome(data, pp + 1, h)
  {
    hide LineBreak;
  }

  // One byte scanned in the buffer is one byte scanned in the stream.
  lemma ByteTracks(p: Parser, net: Net, data: seq<char>, h: Header)
    requires Tracks(p, net, data) && p.bodyStart.None? && p.pp < p.total && HeaderOk(h, p.pp)
    ensures p.buf[p.pp] == data[p.pp] && SameUpTo(p.buf, data, p.pp + 1)
  {
    assert p.buf[p.pp] == p.buf[..p.total][p.pp] == data[..p.total][p.pp] == data[p.pp];
    assert p.buf[..p.pp + 1] == p.buf[..p.total][..p.pp + 1] == data[..p.total][..p.pp + 1] == data[..p.pp + 1];
  }

  // One byte of the header section.  A stop is that of the stream, and has its
  // outcome unless it is a blank line without a number in the stream.
  lemma ByteOnCourse(p: Parser, net: Net, data: seq<char>, capacity: nat, c: Course, h: Header)
    returns (h': Header)
    requires OnCourse(p, net, data, capacity, c, h) && p.bodyStart.None? && p.pp < p.total
    ensures ScanByte(p, net).Finish? ==>
      && c.stop == Some(p.pp)
      && (BlankAt(data, p.pp) ==> p.h.contentLength < 0 && ScanByte(p, net).outcome == Fatal(MissingContentLength))
      && (!BlankAt(data, p.pp) ==> ScanByte(p, net).outcome != Fatal(MissingContentLength))
      && ((BlankAt(data, p.pp) ==> Sure(data, c)) ==> ScanByte(p, net).outcome == c.outcome)
    ensures ScanByte(p, net).Continue? ==>
      var q := ScanByte(p, net).p;
      && OnCourse(q, net, data, capacity, c, h') && q.buf == p.buf && q.total == p.total
      && (if q.bodyStart.Some? then
            c.stop == Some(p.pp) && q.pp == p.total && q.bodyStart == Some(p.pp + 1) && q.h == p.h
          else
            && q.pp == p.pp + 1 && q.remain == p.remain && c.stop != Some(p.pp)
            && After(data, p.pp, h) == Some(h')
            && (LengthBreak(data, p.pp, h) ==> q.h.contentLength == Atoi(p.buf, h.delimiter.value + 2))
            && (LastLength(data, p.pp, h).None? ==>
                  LastLength(data, q.pp, h').None? && q.h.contentLength == p.h.contentLength))
  {
    hide LineBreak, LocalNumber, LengthLine, Atoi, HeadersEnd, StopsAt, OneShot, LastLength;
    ByteTracks(p, net, data, h);
    FollowsByte(data, p.pp, h, c);
    if data[p.pp] == '\n' {
      LineBreakAlike(p.buf, p.total, p.h, data, |data|, h, p.pp);
    }
    h' := if After(data, p.pp, h).Some? then After(data, p.pp, h).value else h;
  }

  // Bytes arrive.
  lemma ArriveOnCourse(p: Parser, net: Net, rest: Net, data: seq<char>, capacity: nat, n: nat, c: Course, h: Header)
    requires OnCourse(p, net, data, capacity, c, h) && p.pp == p.total
    requires n <= |net.pending| && p.total + n <= |p.buf| && rest.pending == net.pending[n..]
    requires p.bodyStart.None? ==> n <= p.remain
    ensures var q := Arrive(p, net.pending[..n]);
      var q' := if p.bodyStart.Some? then q.(pp := p.pp + n) else q;
      OnCourse(q', rest, data, capacity, c, h) && q'.total == p.total + n && |q'.buf| == |p.buf|
  {
    ArriveTracks(p, net, rest, data, n);
  }

  // ----- chunking does not matter -----

  // Body mode: the rest of the body is collected, or the peer closes early.
  lemma {:induction false} BodyRun(p: Parser, net: Net, capacity: nat, data: seq<char>)
    requires Tracks(p, net, data) && |data| < capacity <= |p.buf|
    requires p.bodyStart.Some? && p.bodyStart.value <= p.total
    requires p.remain == p.h.contentLength - (p.total - p.bodyStart.value)
    requires |data| <= p.bodyStart.value + p.h.contentLength
    ensures Run(p, net, capacity).0 == BodyOutcome(data, p.bodyStart.value, p.h)
    ensures Run(p, net, capacity).0.Complete? ==> Tracks(Run(p, net, capacity).1, Net([], []), data)
    decreases |net.pending|
  {
    if p.remain != 0 {
      var (n, rest) := Recv(net, Wanted(p.remain, net));
      if n != 0 {
        ArriveTracks(p, net, rest, data, n);
        var q := Arrive(p, net.pending[..n]).(pp := p.pp + n);
        assert Turn(p, net, capacity) == Continue(q, rest);
        BodyRun(q, rest, capacity, data);
      }
    }
  }

  // Where the scan comes to c, the length is certain and not exceeded.
  predicate Plain(data: seq<char>, c: Course) {
    c.stop.Some? && c.stop.value < |data| && BlankAt(data, c.stop.value) ==>
      && Sure(data, c)
      && (c.end.Some? ==> |data| <= c.end.value.0 + c.end.value.1.contentLength)
  }

  lemma {:induction false} HeaderRun(p: Parser, net: Net, capacity: nat, data: seq<char>, c: Course, h: Header)
    requires OnCourse(p, net, data, capacity, c, h) && p.bodyStart.None?
    requires |data| < capacity <= |p.buf| && Plain(data, c)
    ensures Run(p, net, capacity).0 == c.outcome
    ensures Run(p, net, capacity).0.Complete? ==> Tracks(Run(p, net, capacity).1, Net([], []), data)
    decreases |net.pending| + p.total - p.pp, 1
  {
    hide HeadersEnd, StopsAt, LastLength, Sure, ScanByte;
    if p.pp < p.total {
      HeaderByte(p, net, p, net, capacity, data, c, h);
    } else {
      var (n, rest) := Recv(net, Wanted(p.remain, net));
      if n != 0 {
        ArriveOnCourse(p, net, rest, data, capacity, n, c, h);
        HeaderByte(p, net, Arrive(p, net.pending[..n]), rest, capacity, data, c, h);
      }
    }
  }

  // A turn of header mode that ends in scanning a byte of q.
  lemma {:induction false} HeaderByte(p: Parser, net: Net, q: Parser, rest: Net, capacity: nat, data: seq<char>,
                                      c: Course, h: Header)
    requires OnCourse(q, rest, data, capacity, c, h) && q.bodyStart.None? && q.pp < q.total
    requires |data| < capacity <= |q.buf| && Plain(data, c)
    requires p.Valid() && p.remain != 0 && Turn(p, net, capacity) == ScanByte(q, rest)
    ensures Run(p, net, capacity).0 == c.outcome
    ensures Run(p, net, capacity).0.Complete? ==> Tracks(Run(p, net, capacity).1, Net([], []), data)
    decreases |rest.pending| + q.total - q.pp, 0
  {
    hide LineBreak, LocalNumber, Recv, Turn, ScanByte, HeadersEnd, StopsAt, LastLength, OneShot, BodyOutcome;
    var h' := ByteOnCourse(q, rest, data, capacity, c, h);
    if ScanByte(q, rest).Continue? {
      var s := ScanByte(q, rest).p;
      if s.bodyStart.Some? {
        BodyRun(s, rest, capacity, data);
      } else {
        HeaderRun(s, rest, capacity, data, c, h');
      }
    }
  }

  // Whatever the sizes in which the stream arrives, and whatever the buffer
  // held before, the parser gets to the outcome of the stream as a whole.
  lemma ChunkingIrrelevant(buf: seq<char>, data: seq<char>, sizes: seq<nat>, capacity: nat)
    requires |data| < capacity <= |buf| && Determined(data)
    ensures var r := Run(Start(buf, capacity), Net(data, sizes), capacity);
      && r.0 == OneShot(data, 0, NO_HEADER)
      && (r.0.Complete? ==> r.1.total == |data| && r.1.buf[..|data|] == data)
  {
    hide HeadersEnd, StopsAt, LastLength, OneShot, LocalNumber;
    StartOnCourse(buf, data, sizes, capacity);
    HeaderRun(Start(buf, capacity), Net(data, sizes), capacity, data, CourseOf(data), NO_HEADER);
  }
}
