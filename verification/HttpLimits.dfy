// Where the parser's limits matter: exactly when every way of cutting a stream
// gives the same outcome, whatever the buffer held before, and exactly when no
// way of cutting it makes the parser write past the capacity it was given.

module HttpLimits {
  import opened Wrappers
  import opened Decimal
  import opened HttpText
  import opened HttpParser

  // ----- the capacity -----

  // On every turn no more than the capacity has been received, and no write
  // reaches the guard page.
  predicate Within(p: Parser, net: Net, capacity: nat)
    requires p.Valid()
    decreases |net.pending| + p.total - p.pp
  {
    && p.total <= capacity
    && (p.remain == 0 ||
        match Turn(p, net, capacity)
        case Finish(o) => o != Fatal(GuardPage)
        case Continue(q, rest) => Within(q, rest, capacity))
  }

  // The peer sends more than the capacity, and there is a blank line within it
  // with a length that is not in the stream, or with one that ends the response
  // neither at the capacity nor a byte before.
  predicate RunsOver(data: seq<char>, capacity: nat) {
    && BlankStop(data) && StopsAt(data, 0, NO_HEADER).value + 1 < capacity < |data|
    && (Settled(data) ==>
          var e := HeadersEnd(data, 0, NO_HEADER);
          e.Some? && !(capacity - 1 <= e.value.0 + e.value.1.contentLength <= capacity))
  }

  // The same for what the scan comes to.
  predicate Contained(data: seq<char>, capacity: nat, c: Course) {
    c.stop.Some? && c.stop.value < |data| && BlankAt(data, c.stop.value) && c.stop.value + 1 < capacity < |data| ==>
      && Sure(data, c)
      && (c.end.Some? ==> capacity - 1 <= c.end.value.0 + c.end.value.1.contentLength <= capacity)
  }

  lemma {:induction false} StaysWithin(p: Parser, net: Net, data: seq<char>, capacity: nat, c: Course, h: Header)
    requires OnCourse(p, net, data, capacity, c, h) && p.total <= capacity < |p.buf| && Contained(data, capacity, c)
    ensures Within(p, net, capacity)
    decreases |net.pending| + p.total - p.pp
  {
    hide ScanByte, Recv, HeadersEnd, StopsAt, LastLength, LineBreak, Follows, Sure;
    if p.remain != 0 && p.pp < capacity {
      if p.pp < p.total {
        var h' := ByteOnCourse(p, net, data, capacity, c, h);
        if ScanByte(p, net).Continue? {
          StaysWithin(ScanByte(p, net).p, net, data, capacity, c, h');
        }
      } else {
        var (n, rest) := Recv(net, Wanted(p.remain, net));
        if n != 0 {
          assert p.total + n <= capacity;
          ArriveOnCourse(p, net, rest, data, capacity, n, c, h);
          var q := Arrive(p, net.pending[..n]);
          if p.bodyStart.Some? {
            StaysWithin(q.(pp := p.pp + n), rest, data, capacity, c, h);
          } else {
            var h' := ByteOnCourse(q, rest, data, capacity, c, h);
            if ScanByte(q, rest).Continue? {
              StaysWithin(ScanByte(q, rest).p, rest, data, capacity, c, h');
            }
          }
        }
      }
    }
  }

  // ----- runs up to a point of the stream -----

  // p' gets to the outcome of p, and stays within the capacity if p does.
  ghost predicate SameRun(p: Parser, net: Net, p': Parser, net': Net, capacity: nat)
    requires p.Valid() && p'.Valid()
  {
    Run(p, net, capacity).0 == Run(p', net', capacity).0 && (Within(p, net, capacity) ==> Within(p', net', capacity))
  }

  lemma SameRunTrans(p: Parser, net: Net, p1: Parser, net1: Net, p2: Parser, net2: Net, capacity: nat)
    requires p.Valid() && p1.Valid() && p2.Valid()
    requires SameRun(p, net, p1, net1, capacity) && SameRun(p1, net1, p2, net2, capacity)
    ensures SameRun(p, net, p2, net2, capacity)
  {
  }

  lemma SameTurn(p: Parser, net: Net, p': Parser, net': Net, capacity: nat)
    requires p.Valid() && p'.Valid() && p.remain != 0 && p'.remain != 0 && p'.total <= capacity
    requires Turn(p, net, capacity) == Turn(p', net', capacity)
    ensures SameRun(p, net, p', net', capacity)
  {
  }

  lemma TurnSameRun(r: Parser, net: Net, capacity: nat)
    requires r.Valid() && r.remain != 0 && Turn(r, net, capacity).Continue?
    ensures SameRun(r, net, Turn(r, net, capacity).p, Turn(r, net, capacity).net, capacity)
  {
  }

  // Everything received has been scanned, and n more bytes arrive in one piece.
  lemma HeaderPiece(p: Parser, net: Net, data: seq<char>, capacity: nat, n: nat, c: Course, h: Header)
    returns (q: Parser, rest: Net)
    requires OnCourse(p, net, data, capacity, c, h) && p.bodyStart.None? && p.pp == p.total && capacity < |p.buf|
    requires net.sizes != [] && 0 < n == net.sizes[0] <= |net.pending| && p.total + n < capacity
    ensures OnCourse(q, rest, data, capacity, c, h) && q.bodyStart.None? && q.h == p.h
    ensures q.pp == p.pp && q.total == p.total + n && rest.sizes == net.sizes[1..]
    ensures q.buf == p.buf[..p.total] + net.pending[..n] + p.buf[q.total..]
    ensures SameRun(p, net, q, rest, capacity)
  {
    hide HeadersEnd, StopsAt, LastLength, ScanByte, Follows;
    rest := Recv(net, Wanted(p.remain, net)).1;
    assert Recv(net, Wanted(p.remain, net)).0 == n;
    ArriveOnCourse(p, net, rest, data, capacity, n, c, h);
    q := Arrive(p, net.pending[..n]);
    assert Turn(p, net, capacity) == ScanByte(q, rest) == Turn(q, rest, capacity);
    SameTurn(p, net, q, rest, capacity);
  }

  // The scan stands at its last Content-Length line or in front of it.
  predicate BeforeLast(data: seq<char>, pp: nat, h: Header, c: Course)
    requires HeaderOk(h, pp)
  {
    LastLength(data, pp, h).Some? && c.last == LastLength(data, pp, h)
  }

  // The bytes received are scanned up to m.
  lemma {:induction false} ScanTo(p: Parser, net: Net, data: seq<char>, capacity: nat, m: nat, c: Course, h: Header)
    returns (q: Parser, h': Header)
    requires OnCourse(p, net, data, capacity, c, h) && p.bodyStart.None? && p.pp <= m <= p.total < capacity
    requires c.stop.Some? ==> m <= c.stop.value
    ensures OnCourse(q, net, data, capacity, c, h') && q.bodyStart.None? && q.pp == m
    ensures q.buf == p.buf && q.total == p.total && SameRun(p, net, q, net, capacity)
    ensures LastLength(data, p.pp, h).None? ==>
      LastLength(data, m, h').None? && q.h.contentLength == p.h.contentLength
    ensures BeforeLast(data, p.pp, h, c) && m <= c.last.value.0 ==> BeforeLast(data, m, h', c)
    decreases m - p.pp
  {
    hide ScanByte, HeadersEnd, StopsAt, LastLength, LineBreak, OneShot, Sure, LengthLine;
    if p.pp == m {
      q, h' := p, h;
    } else {
      var h1 := ByteOnCourse(p, net, data, capacity, c, h);
      FollowsByte(data, p.pp, h, c);
      assert Turn(p, net, capacity) == ScanByte(p, net);
      q, h' := ScanTo(ScanByte(p, net).p, net, data, capacity, m, c, h1);
    }
  }

  // The parser knows a length when it gets to the blank line.
  ghost predicate Knows(p: Parser, data: seq<char>, c: Course, h: Header)
    requires HeaderOk(h, p.pp)
  {
    (Sure(data, c) && c.end.Some?) || (LastLength(data, p.pp, h).None? && p.h.contentLength >= 0)
  }

  // The rest of the headers and maybe a part of the body arrive in one piece.
  lemma EnterBody(p: Parser, net: Net, data: seq<char>, capacity: nat, n: nat, c: Course, h: Header)
    returns (q: Parser, rest: Net)
    requires OnCourse(p, net, data, capacity, c, h) && p.bodyStart.None? && p.pp == p.total && capacity < |p.buf|
    requires net.sizes != [] && n == net.sizes[0] <= |net.pending| && p.total + n < capacity
    requires c.stop.Some? && p.pp <= c.stop.value < p.total + n && BlankAt(data, c.stop.value)
    requires Knows(p, data, c, h)
    ensures OnCourse(q, rest, data, capacity, c, h) && q.bodyStart == Some(c.stop.value + 1)
    ensures q.pp == q.total == p.total + n && |q.buf| == |p.buf| && rest.sizes == net.sizes[1..]
    ensures LastLength(data, p.pp, h).None? ==> q.h.contentLength == p.h.contentLength
    ensures SameRun(p, net, q, rest, capacity)
  {
    hide HeadersEnd, StopsAt, LastLength, ScanByte, Within, Run, Turn, LineBreak, OneShot, Sure;
    var p1, p2, h2;
    p1, rest := HeaderPiece(p, net, data, capacity, n, c, h);
    p2, h2 := ScanTo(p1, rest, data, capacity, c.stop.value, c, h);
    var h3 := ByteOnCourse(p2, rest, data, capacity, c, h2);
    StopIsBlank(p2, data, c, h2);
    q := ScanByte(p2, rest).p;
    ScanTurn(p2, rest, capacity);
    SameRunTrans(p, net, p1, rest, p2, rest, capacity);
    SameRunTrans(p, net, p2, rest, q, rest, capacity);
  }

  lemma ScanTurn(p: Parser, net: Net, capacity: nat)
    requires p.Valid() && p.bodyStart.None? && p.pp < p.total < capacity && p.remain != 0
    requires ScanByte(p, net).Continue?
    ensures SameRun(p, net, ScanByte(p, net).p, net, capacity)
  {
    TurnSameRun(p, net, capacity);
  }

  // Where the scan stops at a blank line with a length at hand, it goes on.
  lemma StopIsBlank(p: Parser, data: seq<char>, c: Course, h: Header)
    requires Follows(data, p.pp, h, c) && c.stop == Some(p.pp) && p.pp < |data| && BlankAt(data, p.pp)
    ensures LastLength(data, p.pp, h).None?
    ensures c.end.Some? ==> h.contentLength >= 0
  {
  }

  // In body mode, the rest of the stream in one piece of n bytes, if that many
  // are wanted.
  lemma BodyPiece(q: Parser, net: Net, data: seq<char>, capacity: nat, n: nat, c: Course, h: Header)
    requires OnCourse(q, net, data, capacity, c, h) && q.bodyStart.Some? && q.pp == q.total < capacity
    requires q.remain != 0 && net.sizes != [] && 0 < n == net.sizes[0] <= |net.pending|
    requires q.remain > 0 ==> n <= q.remain
    ensures if q.total + n > |q.buf| then Turn(q, net, capacity) == Finish(Fatal(GuardPage))
      else
        && Turn(q, net, capacity).Continue?
        && var r, rest := Turn(q, net, capacity).p, Turn(q, net, capacity).net;
        && OnCourse(r, rest, data, capacity, c, h) && r.bodyStart == q.bodyStart
        && r.total == r.pp == q.total + n && r.remain == q.remain - n && |r.buf| == |q.buf|
  {
    hide Follows, Sure;
    var rest := Recv(net, Wanted(q.remain, net)).1;
    assert Recv(net, Wanted(q.remain, net)).0 == n;
    if q.total + n <= |q.buf| {
      ArriveOnCourse(q, net, rest, data, capacity, n, c, h);
    }
  }

  // ----- a length that is not in the stream -----

  lemma {:induction false} LastBeforeStop(data: seq<char>, pp: nat, h: Header)
    requires HeaderOk(h, pp) && LastLength(data, pp, h).Some?
    ensures StopsAt(data, pp, h).Some? ==> LastLength(data, pp, h).value.0 < StopsAt(data, pp, h).value
    ensures data[LastLength(data, pp, h).value.0] == '\n'
    decreases |data| - pp
  {
    hide LengthLine;
    if data[pp] == ':' {
      LastBeforeStop(data, pp + 1, h.(delimiter := Some(pp)));
    } else if data[pp] != '\n' {
      LastBeforeStop(data, pp + 1, h);
    } else {
      var h' := LineBreak(data, |data|, pp, h).h;
      if LastLength(data, pp + 1, h').Some? {
        LastBeforeStop(data, pp + 1, h');
      }
    }
  }

  // What the buffer holds when the first m bytes of the stream have arrived.
  function Overlaid(buf: seq<char>, data: seq<char>, m: nat): (s: seq<char>)
    requires m <= |data| && m <= |buf|
    ensures |s| == |buf|
  {
    data[..m] + buf[m..]
  }

  // Cut behind its last Content-Length line, which carries no number: the length
  // is read from what the buffer held before.
  lemma CutBehindLength(buf: seq<char>, data: seq<char>, capacity: nat, sizes: seq<nat>)
    returns (q: Parser, net: Net, h: Header)
    requires !Settled(data) && capacity < |buf|
    requires var at := LastLength(data, 0, NO_HEADER).value.0;
      at + 1 < capacity && sizes != [] && sizes[0] == at + 1
    ensures var at := LastLength(data, 0, NO_HEADER).value.0;
      && OnCourse(q, net, data, capacity, CourseOf(data), h) && q.bodyStart.None?
      && q.pp == q.total == at + 1 && |q.buf| == |buf| && net.sizes == sizes[1..]
      && LastLength(data, at + 1, h).None?
      && q.h.contentLength == Atoi(Overlaid(buf, data, at + 1), at + 1)
    ensures SameRun(Start(buf, capacity), Net(data, sizes), q, net, capacity)
  {
    hide HeadersEnd, StopsAt, LastLength, ScanByte, Within, Run, Turn, LineBreak, OneShot, Atoi, LengthLine;
    var c, start, all := CourseOf(data), Start(buf, capacity), Net(data, sizes);
    var (at, hl) := c.last.value;
    StartOnCourse(buf, data, sizes, capacity);
    var p, p1, h1;
    p, net := HeaderPiece(start, all, data, capacity, at + 1, c, NO_HEADER);
    assert p.buf == Overlaid(buf, data, at + 1);
    LastBeforeStop(data, 0, NO_HEADER);
    p1, h1 := ScanTo(p, net, data, capacity, at, c, NO_HEADER);
    AtLast(data, at, h1, c);
    h := ByteOnCourse(p1, net, data, capacity, c, h1);
    FollowsByte(data, at, h1, c);
    q := ScanByte(p1, net).p;
    ScanTurn(p1, net, capacity);
    SameRunTrans(start, all, p, net, p1, net, capacity);
    SameRunTrans(start, all, p1, net, q, net, capacity);
    StrayNumber(p.buf, data, at, h1);
  }

  // At its last Content-Length line the scan has the header variables of it.
  lemma AtLast(data: seq<char>, at: nat, h: Header, c: Course)
    requires Follows(data, at, h, c) && BeforeLast(data, at, h, c) && c.last.value.0 == at
    ensures h == c.last.value.1 && After(data, at, h).Some? && LengthBreak(data, at, h)
    ensures LastLength(data, at + 1, After(data, at, h).value).None?
  {
  }

  // Only white space on the line: the number is what follows it.
  lemma StrayNumber(s: seq<char>, data: seq<char>, at: nat, h: Header)
    requires at < |data| && HeaderOk(h, at) && LengthLine(data, h) && !LocalNumber(data, at, h)
    requires SameUpTo(s, data, at + 1) && data[at] == '\n'
    ensures Atoi(s, h.delimiter.value + 2) == Atoi(s, at + 1)
  {
    forall j | h.delimiter.value + 2 <= j < at + 1
      ensures IsSpace(s[j])
    {
      assert s[j] == s[..at + 1][j] == data[..at + 1][j] == data[j];
    }
    SpaceSkipped(s, h.delimiter.value + 2, at + 1);
  }

  lemma {:induction false} SpaceSkipped(s: seq<char>, i: nat, m: nat)
    requires i <= m <= |s| && forall j :: i <= j < m ==> IsSpace(s[j])
    ensures SkipSpace(s, i) == SkipSpace(s, m)
    decreases m - i
  {
    if i < m {
      SpaceSkipped(s, i + 1, m);
    }
  }

  // A buffer whose stale bytes from m on say v.
  function Stale(n: nat, m: nat, v: string): (buf: seq<char>)
    requires m + |v| < n
    ensures |buf| == n
  {
    seq(m, i => 'x') + v + seq(n - m - |v|, i => 'x')
  }

  lemma StaleAt(data: seq<char>, n: nat, m: nat, v: string)
    requires m <= |data| && m + |v| < n
    ensures var s := Overlaid(Stale(n, m, v), data, m); s[m..m + |v|] == v && s[m + |v|] == 'x'
  {
  }

  lemma StaleDigits(data: seq<char>, n: nat, m: nat, v: string)
    requires m <= |data| && m + |v| < n && AllDigits(v) && v != []
    ensures Atoi(Overlaid(Stale(n, m, v), data, m), m) == Value(v)
  {
    hide Overlaid, Stale, Atoi, Value;
    StaleAt(data, n, m, v);
    AtoiDigits(Overlaid(Stale(n, m, v), data, m), m, v);
  }

  lemma AtoiDigits(s: seq<char>, m: nat, v: string)
    requires m + |v| < |s| && s[m..m + |v|] == v && !IsDigit(s[m + |v|]) && AllDigits(v) && v != []
    ensures Atoi(s, m) == Value(v)
  {
    hide Value, ReadDigits;
    assert s[m] == s[m..m + |v|][0] == v[0];
    ReadDigitsValue(s, m, v, 0);
  }

  lemma {:induction false} DigitsFit(v: nat)
    ensures v > 0 ==> |Digits(v)| <= v
  {
    if v >= 10 {
      DigitsFit(v / 10);
    }
  }

  // ----- exactly when the capacity holds -----

  // A cut on which the parser runs over its capacity.
  lemma OverrunningCut(data: seq<char>, capacity: nat, n: nat) returns (buf: seq<char>, sizes: seq<nat>)
    requires capacity < n && RunsOver(data, capacity)
    ensures |buf| == n && !Within(Start(buf, capacity), Net(data, sizes), capacity)
  {
    hide HeadersEnd, StopsAt, LastLength, OnCourse, Within;
    if Settled(data) {
      buf := seq(n, i => 'x');
      sizes := SettledOverrun(buf, data, capacity);
    } else {
      buf, sizes := StrayOverrun(data, capacity, n);
    }
  }

  lemma SettledOverrun(buf: seq<char>, data: seq<char>, capacity: nat) returns (sizes: seq<nat>)
    requires capacity < |buf| && RunsOver(data, capacity) && Settled(data)
    ensures !Within(Start(buf, capacity), Net(data, sizes), capacity)
  {
    hide HeadersEnd, StopsAt, LastLength, Follows, Run, Turn, OneShot;
    var c, s := CourseOf(data), Start(buf, capacity);
    var (start, h) := c.end.value;
    EndBehindStop(data, 0, NO_HEADER);
    var end := start + h.contentLength;
    var first := if end > capacity then start else end + 1;
    var next := if end > capacity then Min(|data|, end) - start else |data| - first;
    sizes := [first, next];
    StartOnCourse(buf, data, sizes, capacity);
    var q, net := EnterBody(s, Net(data, sizes), data, capacity, first, c, NO_HEADER);
    BodyPiece(q, net, data, capacity, next, c, NO_HEADER);
    assert !Within(q, net, capacity);
  }

  lemma {:induction false} EndBehindStop(data: seq<char>, pp: nat, h: Header)
    requires HeaderOk(h, pp) && HeadersEnd(data, pp, h).Some?
    ensures StopsAt(data, pp, h) == Some(HeadersEnd(data, pp, h).value.0 - 1)
    ensures BlankAt(data, HeadersEnd(data, pp, h).value.0 - 1)
    decreases |data| - pp
  {
    if data[pp] == ':' {
      EndBehindStop(data, pp + 1, h.(delimiter := Some(pp)));
    } else if data[pp] != '\n' {
      EndBehindStop(data, pp + 1, h);
    } else if LineBreak(data, |data|, pp, h).NextLine? {
      EndBehindStop(data, pp + 1, LineBreak(data, |data|, pp, h).h);
    }
  }

  // The stale bytes say how long a body ends one byte behind the capacity.
  lemma StrayOverrun(data: seq<char>, capacity: nat, n: nat) returns (buf: seq<char>, sizes: seq<nat>)
    requires capacity < n && RunsOver(data, capacity) && !Settled(data)
    ensures |buf| == n && !Within(Start(buf, capacity), Net(data, sizes), capacity)
  {
    hide HeadersEnd, StopsAt, LastLength, Follows, Run, Turn, OneShot, Within, LocalNumber, Stale, Digits;
    var c := CourseOf(data);
    var at, start := c.last.value.0, c.stop.value + 1;
    LastBeforeStop(data, 0, NO_HEADER);
    var length := capacity + 1 - start;
    DigitsFit(length);
    buf := Stale(n, at + 1, Digits(length));
    StaleDigits(data, n, at + 1, Digits(length));
    sizes := [at + 1, start - (at + 1), length];
    var p, net, h := CutBehindLength(buf, data, capacity, sizes);
    var q, rest := EnterBody(p, net, data, capacity, start - (at + 1), c, h);
    BodyPiece(q, rest, data, capacity, length, c, h);
    OverThen(q, rest, capacity);
  }

  lemma OverThen(q: Parser, net: Net, capacity: nat)
    requires q.Valid() && q.remain != 0
    requires Turn(q, net, capacity) == Finish(Fatal(GuardPage))
          || (Turn(q, net, capacity).Continue? && Turn(q, net, capacity).p.total > capacity)
    ensures !Within(q, net, capacity)
  {
  }

  ghost predicate AllWithin(data: seq<char>, capacity: nat, n: nat) {
    forall buf, sizes | |buf| == n :: Within(Start(buf, capacity), Net(data, sizes), capacity)
  }

  // For every stream, capacity and size of the buffer: in all runs, whatever the
  // buffer held before, on every turn, what has been received is within the
  // capacity, if and only if the stream does not run over.  In particular a
  // response that ends where it declares never leaves the capacity exactly if
  // its declared end does not.
  lemma CapacityIff(data: seq<char>, capacity: nat, n: nat)
    requires capacity < n
    ensures AllWithin(data, capacity, n) <==> !RunsOver(data, capacity)
    ensures var e := HeadersEnd(data, 0, NO_HEADER);
      Settled(data) && e.Some? && e.value.0 < capacity && |data| == e.value.0 + e.value.1.contentLength ==>
        (RunsOver(data, capacity) <==> e.value.0 + e.value.1.contentLength > capacity)
  {
    hide HeadersEnd, StopsAt, LastLength, Within, RunsOver;
    if RunsOver(data, capacity) {
      var buf, sizes := OverrunningCut(data, capacity, n);
    } else {
      forall buf: seq<char>, sizes | |buf| == n
        ensures Within(Start(buf, capacity), Net(data, sizes), capacity)
      {
        StartOnCourse(buf, data, sizes, capacity);
        ContainedStream(data, capacity);
        StaysWithin(Start(buf, capacity), Net(data, sizes), data, capacity, CourseOf(data), NO_HEADER);
      }
    }
    DeclaredOverrun(data, capacity);
  }

  lemma ContainedStream(data: seq<char>, capacity: nat)
    requires !RunsOver(data, capacity)
    ensures Contained(data, capacity, CourseOf(data))
  {
    hide HeadersEnd, StopsAt, LastLength, LocalNumber, OneShot;
    if HeadersEnd(data, 0, NO_HEADER).Some? {
      EndBehindStop(data, 0, NO_HEADER);
    }
  }

  lemma DeclaredOverrun(data: seq<char>, capacity: nat)
    ensures var e := HeadersEnd(data, 0, NO_HEADER);
      Settled(data) && e.Some? && e.value.0 < capacity && |data| == e.value.0 + e.value.1.contentLength ==>
        (RunsOver(data, capacity) <==> e.value.0 + e.value.1.contentLength > capacity)
  {
    hide HeadersEnd, StopsAt, LastLength, LocalNumber;
    if HeadersEnd(data, 0, NO_HEADER).Some? {
      EndBehindStop(data, 0, NO_HEADER);
    }
  }

  // ----- chunking -----

  // All ways of cutting the stream give the same outcome: it is shorter than
  // the capacity and determines its outcome; or the capacity is used up before
  // anything but field lines has been seen; or it begins with a line feed.
  predicate CutsAgree(data: seq<char>, capacity: nat) {
    if |data| < capacity then Determined(data)
    else
      var k := StopsAt(data, 0, NO_HEADER);
      k.None? || k.value == 0 || k.value >= capacity
  }

  function Result(buf: seq<char>, data: seq<char>, sizes: seq<nat>, capacity: nat): Outcome {
    Run(Start(buf, capacity), Net(data, sizes), capacity).0
  }

  // One outcome for all cuts, whatever a buffer of n bytes held before.
  ghost predicate AllAgree(data: seq<char>, capacity: nat, n: nat) {
    forall a, b, s, t | |a| == n && |b| == n :: Result(a, data, s, capacity) == Result(b, data, t, capacity)
  }

  // Nothing but field lines within the capacity: it is used up.
  lemma {:induction false} UsedUp(p: Parser, net: Net, data: seq<char>, capacity: nat, c: Course, h: Header)
    requires OnCourse(p, net, data, capacity, c, h) && p.bodyStart.None?
    requires capacity <= |data| && capacity < |p.buf| && (c.stop.Some? ==> c.stop.value >= capacity)
    ensures Run(p, net, capacity).0 == NoHeaders
    decreases |net.pending| + p.total - p.pp
  {
    hide ScanByte, Recv, HeadersEnd, StopsAt, LastLength, LineBreak, Follows, Sure;
    if p.remain != 0 {
      if p.pp < p.total {
        var h' := ByteOnCourse(p, net, data, capacity, c, h);
        UsedUp(ScanByte(p, net).p, net, data, capacity, c, h');
      } else {
        var (n, rest) := Recv(net, Wanted(p.remain, net));
        ArriveOnCourse(p, net, rest, data, capacity, n, c, h);
        var q := Arrive(p, net.pending[..n]);
        var h' := ByteOnCourse(q, rest, data, capacity, c, h);
        UsedUp(ScanByte(q, rest).p, rest, data, capacity, c, h');
      }
    }
  }

  // In one piece, a stream of at least the capacity uses it up at once.
  lemma OnePiece(buf: seq<char>, data: seq<char>, capacity: nat)
    requires 0 < capacity <= |data| && capacity < |buf| && StopsAt(data, 0, NO_HEADER) != Some(0)
    ensures Result(buf, data, [], capacity) == NoHeaders
  {
    hide HeadersEnd, StopsAt, LastLength, ScanByte, LineBreak, OneShot, Sure, Run, Within;
    var s, all, c := Start(buf, capacity), Net(data, []), CourseOf(data);
    StartOnCourse(buf, data, [], capacity);
    var rest := Recv(all, capacity).1;
    assert Recv(all, capacity).0 == capacity;
    ArriveOnCourse(s, all, rest, data, capacity, capacity, c, NO_HEADER);
    var q := Arrive(s, data[..capacity]);
    var h' := ByteOnCourse(q, rest, data, capacity, c, NO_HEADER);
    assert Turn(s, all, capacity) == ScanByte(q, rest);
    TurnSameRun(s, all, capacity);
    FilledUp(ScanByte(q, rest).p, rest, capacity);
  }

  lemma FilledUp(p: Parser, net: Net, capacity: nat)
    requires p.Valid() && p.bodyStart.None? && p.remain == 0 && p.total < |p.buf|
    ensures Run(p, net, capacity).0 == NoHeaders
  {
  }

  lemma LineFeedFirst(buf: seq<char>, data: seq<char>, sizes: seq<nat>, capacity: nat)
    requires capacity > 0 && capacity < |buf| && StopsAt(data, 0, NO_HEADER) == Some(0)
    ensures Result(buf, data, sizes, capacity) == Fatal(EarlyLineBreak)
  {
    var s, all := Start(buf, capacity), Net(data, sizes);
    var (n, rest) := Recv(all, capacity);
    assert data[0] == '\n';
    var q := Arrive(s, data[..n]);
    assert q.buf[0] == data[0];
    assert Turn(s, all, capacity) == ScanByte(q, rest);
  }

  lemma {:induction false} BodyHasHeaders(p: Parser, net: Net, capacity: nat)
    requires p.Valid() && p.bodyStart.Some?
    ensures Run(p, net, capacity).0 != NoHeaders && Run(p, net, capacity).0 != Fatal(MissingContentLength)
    decreases |net.pending| + p.total - p.pp
  {
    hide ScanByte, Recv;
    if p.remain != 0 && Turn(p, net, capacity).Continue? {
      BodyHasHeaders(Turn(p, net, capacity).p, Turn(p, net, capacity).net, capacity);
    }
  }

  // Cut right in front of the byte where the scan stops, a stream gets there.
  lemma StopReached(buf: seq<char>, data: seq<char>, capacity: nat, at: nat)
    requires capacity < |buf| && StopsAt(data, 0, NO_HEADER) == Some(at) && 0 < at < capacity
    ensures Result(buf, data, [at, 1], capacity) != NoHeaders
  {
    hide HeadersEnd, StopsAt, LastLength, ScanByte, Within, LineBreak, OneShot, Sure;
    var s, all, c := Start(buf, capacity), Net(data, [at, 1]), CourseOf(data);
    StartOnCourse(buf, data, [at, 1], capacity);
    var p, net := HeaderPiece(s, all, data, capacity, at, c, NO_HEADER);
    var q, h := ScanTo(p, net, data, capacity, at, c, NO_HEADER);
    var rest := Recv(net, Wanted(q.remain, net)).1;
    assert Recv(net, Wanted(q.remain, net)).0 == 1;
    ArriveOnCourse(q, net, rest, data, capacity, 1, c, h);
    var r := Arrive(q, net.pending[..1]);
    assert Turn(q, net, capacity) == ScanByte(r, rest);
    var h' := ByteOnCourse(r, rest, data, capacity, c, h);
    if ScanByte(r, rest).Continue? {
      BodyHasHeaders(ScanByte(r, rest).p, rest, capacity);
    }
  }

  // More body bytes than declared: in one piece the parser goes on receiving
  // until the peer closes; cut behind the declared body it completes.
  lemma ExcessMatters(buf: seq<char>, data: seq<char>, capacity: nat)
    requires |data| < capacity < |buf| && Settled(data) && Excess(data)
    ensures var (start, h) := HeadersEnd(data, 0, NO_HEADER).value;
      && Result(buf, data, [|data|], capacity) == Fatal(ConnectionClosed)
      && Result(buf, data, [start + h.contentLength], capacity) == Complete(start, h.contentLength, h.requestId)
  {
    hide HeadersEnd, StopsAt, LastLength, Result, Excess;
    ExcessCloses(buf, data, capacity);
    ExcessCompletes(buf, data, capacity);
  }

  lemma ExcessCloses(buf: seq<char>, data: seq<char>, capacity: nat)
    requires |data| < capacity < |buf| && Settled(data) && Excess(data)
    ensures Result(buf, data, [|data|], capacity) == Fatal(ConnectionClosed)
  {
    hide HeadersEnd, StopsAt, LastLength, ScanByte, Within, OneShot, Follows, Run;
    EndBehindStop(data, 0, NO_HEADER);
    StartOnCourse(buf, data, [|data|], capacity);
    var s, all := Start(buf, capacity), Net(data, [|data|]);
    var q, net := EnterBody(s, all, data, capacity, |data|, CourseOf(data), NO_HEADER);
    NothingMore(q, net, capacity);
  }

  lemma ExcessCompletes(buf: seq<char>, data: seq<char>, capacity: nat)
    requires |data| < capacity < |buf| && Settled(data) && Excess(data)
    ensures var (start, h) := HeadersEnd(data, 0, NO_HEADER).value;
      Result(buf, data, [start + h.contentLength], capacity) == Complete(start, h.contentLength, h.requestId)
  {
    hide HeadersEnd, StopsAt, LastLength, OneShot, Result, LocalNumber, Sure, Settled, LengthLine, BlankAt;
    SettledSure(data);
    EndBehindStop(data, 0, NO_HEADER);
    var (start, h) := HeadersEnd(data, 0, NO_HEADER).value;
    CompletesAt(buf, data, capacity, CourseOf(data), start + h.contentLength);
  }

  lemma CompletesAt(buf: seq<char>, data: seq<char>, capacity: nat, c: Course, end: nat)
    requires end < |data| < capacity < |buf| && c == CourseOf(data) && Sure(data, c)
    requires c.end.Some? && c.end.value.0 <= end == c.end.value.0 + c.end.value.1.contentLength
    requires c.stop == Some(c.end.value.0 - 1) && c.stop.value < |data| && BlankAt(data, c.stop.value)
    ensures Result(buf, data, [end], capacity)
         == Complete(c.end.value.0, c.end.value.1.contentLength, c.end.value.1.requestId)
  {
    hide CourseOf, OnCourse, Run, LocalNumber, Sure, BlankAt;
    var s, all := Start(buf, capacity), Net(data, [end]);
    StartOnCourse(buf, data, [end], capacity);
    var q, net := EnterBody(s, all, data, capacity, end, c, NO_HEADER);
    Entered(q, net, data, capacity, c, NO_HEADER);
    BodyComplete(q, net, capacity);
  }

  lemma SettledSure(data: seq<char>)
    ensures Settled(data) <==> Sure(data, CourseOf(data))
  {
  }

  lemma Entered(q: Parser, net: Net, data: seq<char>, capacity: nat, c: Course, h: Header)
    requires OnCourse(q, net, data, capacity, c, h) && q.bodyStart.Some? && Sure(data, c)
    ensures c.end == Some((q.bodyStart.value, q.h))
    ensures q.Valid() && q.remain == q.h.contentLength - (q.total - q.bodyStart.value)
  {
  }

  lemma NothingMore(q: Parser, net: Net, capacity: nat)
    requires q.Valid() && q.remain != 0 && q.pp == q.total < capacity && net.pending == []
    ensures Run(q, net, capacity).0 == Fatal(ConnectionClosed)
  {
    assert Recv(net, Wanted(q.remain, net)).0 == 0;
  }

  lemma BodyComplete(q: Parser, net: Net, capacity: nat)
    requires q.Valid() && q.bodyStart.Some? && q.remain == 0 && q.total < |q.buf|
    ensures Run(q, net, capacity).0 == Complete(q.bodyStart.value, q.h.contentLength, q.h.requestId)
  {
  }

  // Behind the last Content-Length line, the length at hand decides whether the
  // blank line is taken.
  lemma {:induction false} LengthDecides(p: Parser, net: Net, data: seq<char>, capacity: nat, c: Course, h: Header)
    requires OnCourse(p, net, data, capacity, c, h) && p.bodyStart.None? && LastLength(data, p.pp, h).None?
    requires |data| < capacity < |p.buf| && c.stop.Some? && BlankAt(data, c.stop.value)
    ensures Run(p, net, capacity).0 == Fatal(MissingContentLength) <==> p.h.contentLength < 0
    decreases |net.pending| + p.total - p.pp, 1
  {
    hide ScanByte, Recv, HeadersEnd, StopsAt, LastLength, LineBreak, OneShot, Sure, LengthLine;
    if p.pp < p.total {
      LengthByte(p, net, p, net, data, capacity, c, h);
    } else {
      var (n, rest) := Recv(net, Wanted(p.remain, net));
      StopAhead(data, p.pp, h, c);
      ArriveOnCourse(p, net, rest, data, capacity, n, c, h);
      LengthByte(p, net, Arrive(p, net.pending[..n]), rest, data, capacity, c, h);
    }
  }

  lemma StopAhead(data: seq<char>, pp: nat, h: Header, c: Course)
    requires Follows(data, pp, h, c) && c.stop.Some?
    ensures pp <= c.stop.value < |data|
  {
  }

  lemma {:induction false} LengthByte(p: Parser, net: Net, q: Parser, rest: Net, data: seq<char>, capacity: nat,
                                      c: Course, h: Header)
    requires OnCourse(q, rest, data, capacity, c, h) && q.bodyStart.None? && LastLength(data, q.pp, h).None?
    requires |data| < capacity < |q.buf| && c.stop.Some? && BlankAt(data, c.stop.value) && q.pp < q.total
    requires p.Valid() && p.remain != 0 && Turn(p, net, capacity) == ScanByte(q, rest) && p.h == q.h
    ensures Run(p, net, capacity).0 == Fatal(MissingContentLength) <==> p.h.contentLength < 0
    decreases |rest.pending| + q.total - q.pp, 0
  {
    hide ScanByte, Recv, Turn, HeadersEnd, StopsAt, LastLength, LineBreak, OneShot, Sure, LengthLine;
    var h' := ByteOnCourse(q, rest, data, capacity, c, h);
    if ScanByte(q, rest).Continue? {
      var r := ScanByte(q, rest).p;
      if r.bodyStart.Some? {
        BodyHasHeaders(r, rest, capacity);
      } else {
        LengthDecides(r, rest, data, capacity, c, h');
      }
    }
  }

  // A length that is not in the stream is read from the buffer's old contents:
  // cut behind its line, the stream is refused, completes or waits for more.
  lemma StrayDecides(buf: seq<char>, data: seq<char>, capacity: nat, cut: seq<nat>)
    requires |data| < capacity < |buf| && BlankStop(data) && !Settled(data)
    requires |cut| == 2 && cut[0] == LastLength(data, 0, NO_HEADER).value.0 + 1 && cut[0] + cut[1] == |data|
    ensures Ruled(Result(buf, data, cut, capacity), |data|, StopsAt(data, 0, NO_HEADER).value + 1,
                  Atoi(Overlaid(buf, data, cut[0]), cut[0]))
  {
    hide HeadersEnd, StopsAt, LastLength, OnCourse, OneShot, LocalNumber, Atoi, Overlaid, LengthLine, Result, SameRun,
      Ruled, Run, Follows, BodyOutcome;
    LastBeforeStop(data, 0, NO_HEADER);
    var p, net, h := CutBehindLength(buf, data, capacity, cut);
    PendingOf(p, net, data, capacity, CourseOf(data), h);
    LengthRules(p, net, data, capacity, CourseOf(data), h);
    SameResult(buf, data, cut, capacity, p, net);
  }

  // The outcome that a length v makes of a stream of n bytes whose body starts at
  // start, if the rest of the headers and the body come in one piece.
  predicate Ruled(o: Outcome, n: nat, start: nat, v: int) {
    if v < 0 then o == Fatal(MissingContentLength)
    else if n == start + v then o.Complete? && o.bodyStart == start && o.contentLength == v
    else o == Fatal(ConnectionClosed)
  }

  lemma SameResult(buf: seq<char>, data: seq<char>, sizes: seq<nat>, capacity: nat, p: Parser, net: Net)
    requires p.Valid() && SameRun(Start(buf, capacity), Net(data, sizes), p, net, capacity)
    ensures Result(buf, data, sizes, capacity) == Run(p, net, capacity).0
  {
  }

  // Behind the last Content-Length line, the rest of the stream in one piece.
  lemma LengthRules(p: Parser, net: Net, data: seq<char>, capacity: nat, c: Course, h: Header)
    requires OnCourse(p, net, data, capacity, c, h) && p.bodyStart.None? && LastLength(data, p.pp, h).None?
    requires |data| < capacity < |p.buf| && p.pp == p.total && |net.sizes| == 1 && net.sizes[0] == |data| - p.total
    requires c.stop.Some? && p.pp <= c.stop.value < |data| && BlankAt(data, c.stop.value)
    ensures Ruled(Run(p, net, capacity).0, |data|, c.stop.value + 1, p.h.contentLength)
  {
    hide LastLength, OnCourse, Run, BlankAt, Within, Follows;
    PendingOf(p, net, data, capacity, c, h);
    if p.h.contentLength < 0 {
      LengthDecides(p, net, data, capacity, c, h);
    } else {
      var q, rest := EnterBody(p, net, data, capacity, |data| - p.total, c, h);
      PendingOf(q, rest, data, capacity, c, h);
      if q.remain == 0 {
        BodyComplete(q, rest, capacity);
      } else {
        NothingMore(q, rest, capacity);
      }
    }
  }

  lemma PendingOf(q: Parser, net: Net, data: seq<char>, capacity: nat, c: Course, h: Header)
    requires OnCourse(q, net, data, capacity, c, h)
    ensures q.Valid() && q.total <= |data| && net.pending == data[q.total..]
    ensures q.bodyStart.Some? ==> q.remain == q.h.contentLength - (q.total - q.bodyStart.value)
  {
  }

  lemma StrayMatters(data: seq<char>, capacity: nat, n: nat) returns (a: seq<char>, b: seq<char>, s: seq<nat>)
    requires |data| < capacity < n && BlankStop(data) && !Settled(data)
    ensures |a| == n && |b| == n && Result(a, data, s, capacity) != Result(b, data, s, capacity)
  {
    hide HeadersEnd, StopsAt, LastLength, LocalNumber, Stale, Result, Atoi, Overlaid;
    LastBeforeStop(data, 0, NO_HEADER);
    var m := LastLength(data, 0, NO_HEADER).value.0 + 1;
    a, b, s := Stale(n, m, "-1"), Stale(n, m, "x"), [m, |data| - m];
    StaleNumbers(data, n, m);
    StrayDecides(a, data, capacity, s);
    StrayDecides(b, data, capacity, s);
  }

  lemma StaleNumbers(data: seq<char>, n: nat, m: nat)
    requires m <= |data| && m + 2 < n
    ensures Atoi(Overlaid(Stale(n, m, "-1"), data, m), m) == -1
    ensures Atoi(Overlaid(Stale(n, m, "x"), data, m), m) == 0
  {
    var s := Overlaid(Stale(n, m, "-1"), data, m);
    StaleAt(data, n, m, "-1");
    assert s[m] == s[m..m + 2][0] && s[m + 1] == s[m..m + 2][1];
    assert ReadDigits(s, m + 1, 0) == ReadDigits(s, m + 2, 1) == 1;
    var t := Overlaid(Stale(n, m, "x"), data, m);
    StaleAt(data, n, m, "x");
    assert t[m] == t[m..m + 1][0];
  }

  // For every stream, capacity and size of the buffer: all ways of cutting the
  // stream, and all old contents of the buffer, give one outcome if and only if
  // CutsAgree.
  lemma ChunkingIrrelevantIff(data: seq<char>, capacity: nat, n: nat)
    requires capacity < n
    ensures AllAgree(data, capacity, n) <==> CutsAgree(data, capacity)
  {
    hide HeadersEnd, StopsAt, LastLength, Run, OnCourse, Result, OneShot, LocalNumber;
    if CutsAgree(data, capacity) {
      var o := OutcomeOfAll(data, capacity, n);
    } else {
      var a, b, s, t := CutsDiffer(data, capacity, n);
    }
  }

  lemma CutsDiffer(data: seq<char>, capacity: nat, n: nat)
    returns (a: seq<char>, b: seq<char>, s: seq<nat>, t: seq<nat>)
    requires capacity < n && !CutsAgree(data, capacity)
    ensures |a| == n && |b| == n && Result(a, data, s, capacity) != Result(b, data, t, capacity)
  {
    hide HeadersEnd, StopsAt, LastLength, Result, OneShot, LocalNumber;
    a, s := Stale(n, 0, ""), [];
    b, t := a, [];
    if |data| >= capacity {
      var k := StopsAt(data, 0, NO_HEADER).value;
      OnePiece(a, data, capacity);
      StopReached(a, data, capacity, k);
      t := [k, 1];
    } else if Settled(data) {
      var (start, h) := HeadersEnd(data, 0, NO_HEADER).value;
      ExcessMatters(a, data, capacity);
      s, t := [|data|], [start + h.contentLength];
    } else {
      a, b, s := StrayMatters(data, capacity, n);
      t := s;
    }
  }

  lemma OutcomeOfAll(data: seq<char>, capacity: nat, n: nat) returns (o: Outcome)
    requires capacity < n && CutsAgree(data, capacity)
    ensures forall buf, s | |buf| == n :: Result(buf, data, s, capacity) == o
  {
    hide HeadersEnd, StopsAt, LastLength, Run, OnCourse, OneShot, Determined;
    var k := StopsAt(data, 0, NO_HEADER);
    o := if |data| < capacity then OneShot(data, 0, NO_HEADER)
         else if k == Some(0) && capacity > 0 then Fatal(EarlyLineBreak) else NoHeaders;
    forall buf: seq<char>, s | |buf| == n
      ensures Result(buf, data, s, capacity) == o
    {
      if |data| < capacity {
        ChunkingIrrelevant(buf, data, s, capacity);
      } else if k == Some(0) && capacity > 0 {
        LineFeedFirst(buf, data, s, capacity);
      } else {
        StartOnCourse(buf, data, s, capacity);
        UsedUp(Start(buf, capacity), Net(data, s), data, capacity, CourseOf(data), NO_HEADER);
      }
    }
  }

  // A response whose body begins within the capacity, and that has at least
  // the declared body: all cuts agree if and only if its length is in the
  // stream, it ends where it declares and is shorter than the capacity.
  lemma FramedChunkingIff(data: seq<char>, capacity: nat, n: nat)
    requires capacity < n && HeadersEnd(data, 0, NO_HEADER).Some?
    requires var (start, h) := HeadersEnd(data, 0, NO_HEADER).value;
      start <= capacity && |data| >= start + h.contentLength
    ensures AllAgree(data, capacity, n) <==> |data| < capacity && |data| == DeclaredLength(data) && Settled(data)
  {
    hide OnCourse, Run, AllAgree, StopsAt, HeadersEnd, LastLength, LocalNumber;
    ChunkingIrrelevantIff(data, capacity, n);
    EndBehindStop(data, 0, NO_HEADER);
  }

  function DeclaredLength(data: seq<char>): int
    requires HeadersEnd(data, 0, NO_HEADER).Some?
  {
    HeadersEnd(data, 0, NO_HEADER).value.0 + HeadersEnd(data, 0, NO_HEADER).value.1.contentLength
  }

  // ----- such a stream -----

  const STRAY := "ab\r\nC:\r\n5\r\n\r\nhello"

  // Bytes that are neither a colon nor a line feed.
  lemma {:induction false} ScanOver(data: seq<char>, i: nat, j: nat, h: Header)
    requires i <= j <= |data| && HeaderOk(h, i) && forall k :: i <= k < j ==> data[k] != ':' && data[k] != '\n'
    ensures HeaderOk(h, j)
    ensures StopsAt(data, i, h) == StopsAt(data, j, h) && LastLength(data, i, h) == LastLength(data, j, h)
    decreases j - i
  {
    if i < j {
      ScanOver(data, i + 1, j, h);
    }
  }

  lemma StrayBreaks()
    ensures LineBreak(STRAY, 18, 3, NO_HEADER) == NextLine(Header(4, None, -1, None))
    ensures LineBreak(STRAY, 18, 10, Header(8, None, 5, None)) == NextLine(Header(11, None, 5, None))
    ensures !LengthLine(STRAY, NO_HEADER) && !LengthLine(STRAY, Header(8, None, 5, None))
    ensures LineBreak(STRAY, 18, 12, Header(11, None, 5, None)).BlankLine? && BlankAt(STRAY, 12)
  {
    hide StrnEq, Atoi;
    assert STRAY[0..12][0] == 'a' && GONE[0] == 'H';
  }

  lemma StrayLine()
    ensures LineBreak(STRAY, 18, 7, Header(4, Some(5), -1, None)) == NextLine(Header(8, None, 5, None))
    ensures LengthLine(STRAY, Header(4, Some(5), -1, None)) && !LocalNumber(STRAY, 7, Header(4, Some(5), -1, None))
  {
    assert STRAY[4..5] == "C" && "C"[1..] == [];
    assert IsSpace(STRAY[7]) && STRAY[8] == '5' && STRAY[9] == '\r';
    assert SkipSpace(STRAY, 7) == SkipSpace(STRAY, 8) == 8;
    assert ReadDigits(STRAY, 8, 0) == ReadDigits(STRAY, 9, 5) == 5;
  }

  lemma StrayScan()
    ensures StopsAt(STRAY, 0, NO_HEADER) == Some(12)
    ensures LastLength(STRAY, 0, NO_HEADER) == Some((7, Header(4, Some(5), -1, None)))
  {
    hide LineBreak, LengthLine;
    StrayBreaks();
    StrayLine();
    var h1, h2 := Header(4, None, -1, None), Header(4, Some(5), -1, None);
    var h3, h4 := Header(8, None, 5, None), Header(11, None, 5, None);
    ScanOver(STRAY, 11, 12, h4);
    assert StopsAt(STRAY, 12, h4) == Some(12) && LastLength(STRAY, 12, h4) == None;
    ScanOver(STRAY, 8, 10, h3);
    assert StopsAt(STRAY, 10, h3) == StopsAt(STRAY, 11, h4) && LastLength(STRAY, 10, h3) == None;
    ScanOver(STRAY, 6, 7, h2);
    assert StopsAt(STRAY, 7, h2) == StopsAt(STRAY, 8, h3) && LastLength(STRAY, 7, h2) == Some((7, h2));
    ScanOver(STRAY, 4, 5, h1);
    assert StopsAt(STRAY, 5, h1) == StopsAt(STRAY, 6, h2) && LastLength(STRAY, 5, h1) == LastLength(STRAY, 6, h2);
    ScanOver(STRAY, 0, 3, NO_HEADER);
    assert StopsAt(STRAY, 3, NO_HEADER) == StopsAt(STRAY, 4, h1);
  }

  // A Content-Length line without a number: cut behind it, the same response is
  // refused, completes, or ends in a closed connection, as the buffer's old
  // contents have it.
  lemma StrayLength()
    ensures Result(Stale(100, 8, "-1"), STRAY, [8, 10], 50) == Fatal(MissingContentLength)
    ensures Result(Stale(100, 8, "5"), STRAY, [8, 10], 50).Complete?
    ensures Result(Stale(100, 8, "x"), STRAY, [8, 10], 50) == Fatal(ConnectionClosed)
    ensures !AllAgree(STRAY, 50, 100)
  {
    hide Result, Atoi, Overlaid, Stale, LocalNumber, StopsAt, LastLength;
    StrayScan();
    StrayBreaks();
    StrayLine();
    StaleNumbers(STRAY, 100, 8);
    StaleDigits(STRAY, 100, 8, "5");
    assert Value("5") == 5 by {
      assert "5"[..0] == [];
    }
    StrayDecides(Stale(100, 8, "-1"), STRAY, 50, [8, 10]);
    StrayDecides(Stale(100, 8, "5"), STRAY, 50, [8, 10]);
    StrayDecides(Stale(100, 8, "x"), STRAY, 50, [8, 10]);
  }
}
