// The receiving half of the runtime's http function: the loop itself, over a
// buffer filled in place.

module HttpReceive {
  import opened Wrappers
  import opened HttpText
  import opened HttpParser
  import L = HttpLines

  // The connected socket.
  class Connection {
    var pending: seq<char>
    var sizes: seq<nat>

    ghost function State(): Net
      reads this
    {
      Net(pending, sizes)
    }

    constructor (pending: seq<char>, sizes: seq<nat>)
      ensures State() == Net(pending, sizes)
    {
      this.pending, this.sizes := pending, sizes;
    }

    // One call: -1 if interrupted, otherwise the number of bytes put into the
    // buffer.  A write past the end of the buffer hits the guard page.
    method Recv(buffer: array<char>, at: nat, max: nat) returns (n: int, fault: bool)
      requires max > 0 && at <= buffer.Length
      modifies this, buffer
      ensures var (got, rest) := RecvOnce(old(State()), max);
        && State() == rest
        && n == (if got.Some? then got.value else -1)
        && fault == (got.Some? && at + got.value > buffer.Length)
        && (got.None? || fault ==> buffer[..] == old(buffer[..]))
        && (got.Some? && !fault ==>
              buffer[..] == old(buffer[..at]) + old(pending)[..got.value] + old(buffer[at + got.value..]))
    {
      var (got, rest) := RecvOnce(Net(pending, sizes), max);
      var bytes := pending[..if got.Some? then got.value else 0];
      pending, sizes := rest.pending, rest.sizes;
      n, fault := if got.Some? then got.value else -1, false;
      if got.Some? {
        if at + |bytes| > buffer.Length {
          fault := true;
        } else {
          forall i | 0 <= i < |bytes| {
            buffer[at + i] := bytes[i];
          }
        }
      }
    }
  }

  // recv, repeated while it is interrupted.
  method RecvRetry(conn: Connection, buffer: array<char>, at: nat, max: nat) returns (n: nat, fault: bool)
    requires max > 0 && at <= buffer.Length
    modifies conn, buffer
    ensures Recv(old(conn.State()), max) == (n, conn.State())
    ensures fault == (at + n > buffer.Length)
    ensures !fault ==>
      buffer[..] == old(buffer[..at]) + old(conn.pending)[..n] + old(buffer[at + n..])
  {
    ghost var net := conn.State();
    var got, faulted := conn.Recv(buffer, at, max);
    while got < 0
      invariant got < 0 ==> buffer[..] == old(buffer[..]) && conn.pending == net.pending
      invariant got < 0 ==> Recv(conn.State(), max) == Recv(net, max)
      invariant got >= 0 ==> Recv(net, max) == (got, conn.State()) && faulted == (at + got > buffer.Length)
      invariant got >= 0 && !faulted ==>
        buffer[..] == old(buffer[..at]) + net.pending[..got] + old(buffer[at + got..])
      decreases got < 0, |conn.sizes|
    {
      got, faulted := conn.Recv(buffer, at, max);
    }
    n, fault := got, faulted;
  }

  // The break at buffer[pp]: the end of a status or field line, or of the
  // header section.
  method OnLineBreak(buffer: array<char>, total: nat, pp: nat, h: Header) returns (r: LineEnd)
    requires pp < total <= buffer.Length && HeaderOk(h, pp)
    ensures r == LineBreak(buffer[..], total, pp, h)
  {
    if pp < 3 {
      return Bad(EarlyLineBreak);
    }
    if buffer[pp - 1] != '\r' {
      return Bad(BareLineFeed);
    }
    if buffer[pp - 2] == '\n' {
      return if h.contentLength < 0 then Bad(MissingContentLength) else BlankLine;
    }
    var contentLength, requestId := h.contentLength, h.requestId;
    if h.delimiter.None? {
      if total >= 12 && GoneAt(buffer[..], h.lineStart) {
        return Gone;
      }
    } else {
      var d := h.delimiter.value;
      assert buffer[h.lineStart..d] == buffer[..][h.lineStart..d];
      if StrnEq(buffer[h.lineStart..d], CONTENT_LENGTH) {
        contentLength := Atoi(buffer[..], d + 2);
      } else if StrnEq(buffer[h.lineStart..d], REQUEST_ID) {
        requestId := Some(Slice(d + 2, pp - (d + 2) - 1));
      }
    }
    return NextLine(Header(pp + 1, None, contentLength, requestId));
  }

  // The byte at the parse point, in header mode.
  method OnByte(buffer: array<char>, total: nat, remain: int, pp: nat, h: Header, ghost net: Net)
    returns (stop: Option<Outcome>, remain': int, pp': nat, h': Header, bodyStart': Option<nat>)
    requires pp < total <= buffer.Length && HeaderOk(h, pp)
    ensures ScanByte(Parser(buffer[..], total, remain, pp, h, None), net) ==
      if stop.Some? then Finish(stop.value)
      else Continue(Parser(buffer[..], total, remain', pp', h', bodyStart'), net)
  {
    hide LineBreak;
    stop, remain', pp', h', bodyStart' := None, remain, pp + 1, h, None;
    if buffer[pp] == ':' {
      h' := h.(delimiter := Some(pp));
    } else if buffer[pp] == '\n' {
      var end := OnLineBreak(buffer, total, pp, h);
      match end {
        case Bad(reason) =>
          stop := Some(Fatal(reason));
        case Gone =>
          stop := Some(Shutdown);
        case BlankLine =>
          bodyStart' := Some(pp + 1);
          remain' := h.contentLength - (total - (pp + 1));
          pp' := total;
        case NextLine(next) =>
          h' := next;
      }
    }
  }

  // A turn of the loop that ends the run, or goes on as q.
  lemma RunTurn(p: Parser, net: Net, capacity: nat)
    requires p.Valid() && p.remain != 0
    ensures Run(p, net, capacity) ==
      match Turn(p, net, capacity)
      case Finish(o) => (o, p)
      case Continue(q, rest) => Run(q, rest, capacity)
  {
  }

  lemma RunDone(p: Parser, net: Net, capacity: nat)
    requires p.Valid() && p.remain == 0
    ensures Run(p, net, capacity).1 == p
    ensures Run(p, net, capacity).0 ==
      if p.total >= |p.buf| then Fatal(GuardPage)
      else if p.bodyStart.None? then NoHeaders
      else Complete(p.bodyStart.value, p.h.contentLength, p.h.requestId)
  {
  }

  lemma RunComesTo(buf: seq<char>, net: Net, capacity: nat)
    requires capacity < |buf|
    ensures var (o, p) := Run(Start(buf, capacity), net, capacity);
      && L.GoneOnly(net, capacity, o) && (o.NoHeaders? ==> p.total == capacity)
      && (o.Complete? ==> o.bodyStart <= p.total == o.bodyStart + o.contentLength && p.h.requestId == o.requestId)
  {
    hide Run, L.GoneOnly;
    RunKeeps(Start(buf, capacity), net, capacity);
    L.GoneOnlyRuns(buf, net, capacity);
  }

  // The body is as long as declared; without a blank line the capacity is used
  // up; and the shutdown is one that the stream asks for.
  ghost predicate Settles(net: Net, capacity: nat, outcome: Outcome, total: nat, requestId: Option<Slice>) {
    && L.GoneOnly(net, capacity, outcome)
    && match outcome
       case Complete(bodyStart, contentLength, id) => bodyStart <= total == bodyStart + contentLength && requestId == id
       case NoHeaders => total == capacity
       case _ => requestId == None
  }

  // Reads one response.  `capacity` is recv_buf_size; the buffer goes on past
  // it, up to the guard page.  Whenever the loop comes to its end the byte
  // behind what was received is NUL; it is at most byte number `capacity` if
  // the declared end of the response is within the capacity.
  method Http(conn: Connection, buffer: array<char>, capacity: nat)
    returns (outcome: Outcome, total: nat, requestId: Option<Slice>)
    requires capacity < buffer.Length
    modifies conn, buffer
    ensures var r := Run(Start(old(buffer[..]), capacity), old(conn.State()), capacity);
      && outcome == r.0
      && (outcome.Complete? || outcome.NoHeaders? ==>
            && total == r.1.total < buffer.Length && requestId == r.1.h.requestId
            && buffer[..total] == r.1.buf[..total] && buffer[total] == '\0')
    ensures Settles(old(conn.State()), capacity, outcome, total, requestId)
  {
    hide L.GoneOnly, LineBreak, Recv, RecvOnce, Run, ScanByte, Wanted, HeaderOk;
    var remain: int, pp: nat, h, bodyStart: Option<nat> := capacity, 0, NO_HEADER, None;
    total, requestId := 0, None;
    RunComesTo(buffer[..], conn.State(), capacity);
    while remain != 0
      invariant Parser(buffer[..], total, remain, pp, h, bodyStart).Valid()
      invariant Run(Start(old(buffer[..]), capacity), old(conn.State()), capacity)
             == Run(Parser(buffer[..], total, remain, pp, h, bodyStart), conn.State(), capacity)
      decreases |conn.pending| + total - pp
    {
      ghost var p, net := Parser(buffer[..], total, remain, pp, h, bodyStart), conn.State();
      RunTurn(p, net, capacity);
      if pp >= capacity {
        return Fatal(BufferOverflow), total, None;
      }
      if pp >= total {
        var wanted := Wanted(remain, Net(conn.pending, conn.sizes));
        var n, fault := RecvRetry(conn, buffer, total, wanted);
        if n == 0 {
          return Fatal(ConnectionClosed), total, None;
        }
        if fault {
          return Fatal(GuardPage), total, None;
        }
        total := total + n;
        remain := remain - n;
        assert Parser(buffer[..], total, remain, pp, h, bodyStart) == Arrive(p, net.pending[..n]);
        if bodyStart.Some? {
          pp := pp + n;
          continue;
        }
      }
      var stop;
      stop, remain, pp, h, bodyStart := OnByte(buffer, total, remain, pp, h, conn.State());
      if stop.Some? {
        return stop.value, total, None;
      }
    }
    RunDone(Parser(buffer[..], total, remain, pp, h, bodyStart), conn.State(), capacity);
    if total >= buffer.Length {
      return Fatal(GuardPage), total, None;
    }
    buffer[total] := '\0';
    requestId := h.requestId;
    outcome := if bodyStart.None? then NoHeaders else Complete(bodyStart.value, h.contentLength, h.requestId);
  }
}
