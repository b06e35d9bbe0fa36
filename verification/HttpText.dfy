// The C library calls that the response parser makes on header bytes, and the
// handling of one line break.  Bytes are modelled as chars.

module HttpText {
  import opened Wrappers
  import opened Decimal

  const CONTENT_LENGTH := "Content-Length:"
  const REQUEST_ID := "Lambda-Runtime-Aws-Request-Id:"
  const GONE := "HTTP/1.0 410"

  // strncmp(a, lit, |a|) == 0: equal over |a| bytes, or up to a NUL.
  predicate StrnEq(a: seq<char>, lit: string) {
    if a == [] then true
    else if lit == [] then a[0] == '\0'
    else a[0] == lit[0] && (a[0] == '\0' || StrnEq(a[1..], lit[1..]))
  }

  predicate IsSpace(c: char) {
    c == ' ' || '\t' <= c <= '\r'
  }

  function SkipSpace(s: seq<char>, i: nat): nat
    decreases |s| - i
  {
    if i < |s| && IsSpace(s[i]) then SkipSpace(s, i + 1) else i
  }

  function ReadDigits(s: seq<char>, i: nat, acc: nat): nat
    decreases |s| - i
  {
    if i < |s| && IsDigit(s[i]) then ReadDigits(s, i + 1, 10 * acc + DigitValue(s[i])) else acc
  }

  // atoi: white space, an optional sign, digits.  It does not know where the
  // line, or what was received, ends.
  function Atoi(s: seq<char>, i: nat): int {
    var j := SkipSpace(s, i);
    if j < |s| && s[j] == '-' then 0 - ReadDigits(s, j + 1, 0)
    else if j < |s| && s[j] == '+' then ReadDigits(s, j + 1, 0)
    else ReadDigits(s, j, 0)
  }

  // A run of digits followed by something else.
  lemma {:induction false} ReadDigitsValue(s: seq<char>, i: nat, v: string, acc: nat)
    requires i + |v| <= |s| && s[i..i + |v|] == v && AllDigits(v)
    requires i + |v| < |s| ==> !IsDigit(s[i + |v|])
    ensures ReadDigits(s, i, acc) == acc * Pow10(|v|) + Value(v)
    decreases |v|
  {
    if v != [] {
      var first, rest := v[..1], v[1..];
      assert v == first + rest && first[..0] == [];
      assert s[i] == v[0] && s[i + 1..i + 1 + |rest|] == rest;
      ReadDigitsValue(s, i + 1, rest, 10 * acc + DigitValue(v[0]));
      ValueConcat(first, rest);
      Distribute(acc, DigitValue(v[0]), Pow10(|rest|));
    }
  }

  lemma Distribute(a: int, b: int, p: int)
    ensures (10 * a + b) * p == a * (10 * p) + b * p
  {
  }

  predicate Spaces(s: string) {
    forall i :: 0 <= i < |s| ==> s[i] in " \t\n\U{0B}\U{0C}\r"
  }

  // White space up to j, a sign or none up to k, and digits up to something that
  // goes on with none of them.
  lemma AtoiIs(s: seq<char>, i: nat, j: nat, k: nat, end: nat)
    requires i <= j <= k <= end <= |s| && Spaces(s[i..j]) && AllDigits(s[k..end])
    requires s[j..k] == "" || s[j..k] == "-" || s[j..k] == "+"
    requires end < |s| ==> !IsDigit(s[end]) && (j == end ==> s[j] != '-' && s[j] != '+' && !Spaces([s[j]]))
    ensures Atoi(s, i) == if s[j..k] == "-" then 0 - Value(s[k..end]) else Value(s[k..end])
  {
    hide ReadDigits, SkipSpace, Value, Spaces;
    SignHere(s, j, k);
    if k < end {
      assert s[k..end][0] == s[k];
    }
    if j == end < |s| {
      OneSpace(s[j]);
    }
    SkipSpaces(s, i, j);
    ReadDigitsValue(s, k, s[k..end], 0);
  }

  lemma SignHere(s: seq<char>, j: nat, k: nat)
    requires j <= k <= |s| && (s[j..k] == "" || s[j..k] == "-" || s[j..k] == "+")
    ensures k == j ||
      (&& k == j + 1 && s[j] == s[j..k][0]
       && (s[j] == '-' <==> s[j..k] == "-") && (s[j] == '-' || s[j] == '+'))
  {
  }

  lemma OneSpace(c: char)
    ensures Spaces([c]) <==> IsSpace(c)
  {
    var all := " \t\n\U{0B}\U{0C}\r";
    assert all[0] == ' ' && all[1] == '\t' && all[2] == '\n';
    assert all[3] == '\U{0B}' && all[4] == '\U{0C}' && all[5] == '\r';
    assert [c][0] == c;
  }

  lemma {:induction false} SkipSpaces(s: seq<char>, i: nat, j: nat)
    requires i <= j <= |s| && Spaces(s[i..j]) && (j < |s| ==> !IsSpace(s[j]))
    ensures SkipSpace(s, i) == j
    decreases j - i
  {
    if i < j {
      assert s[i..j][0] == s[i] && s[i + 1..j] == s[i..j][1..];
      SkipSpaces(s, i + 1, j);
    }
  }

  // ----- one line break -----

  datatype Slice = Slice(off: nat, len: int)

  // The parser's header variables: where the line started, its last colon,
  // and the two headers found so far.
  datatype Header = Header(lineStart: nat, delimiter: Option<nat>, contentLength: int, requestId: Option<Slice>)

  const NO_HEADER := Header(0, None, -1, None)

  datatype Reason =
    | EarlyLineBreak | BareLineFeed | MissingContentLength
    | ConnectionClosed | BufferOverflow | GuardPage

  datatype LineEnd = NextLine(h: Header) | BlankLine | Gone | Bad(reason: Reason)

  predicate HeaderOk(h: Header, pp: nat) {
    h.lineStart <= pp && (h.delimiter.Some? ==> h.lineStart <= h.delimiter.value < pp)
  }

  // memcmp against the status of a container that is being shut down.
  predicate GoneAt(s: seq<char>, i: nat) {
    i + |GONE| <= |s| && s[i..i + |GONE|] == GONE
  }

  // The break at s[pp]; `total` bytes of s have been received, the rest of s
  // is whatever the buffer held before.
  function LineBreak(s: seq<char>, total: nat, pp: nat, h: Header): (r: LineEnd)
    requires pp < |s| && HeaderOk(h, pp)
    ensures r.NextLine? ==> HeaderOk(r.h, pp + 1) && r.h.lineStart == pp + 1
    ensures r.Bad? ==> !r.reason.GuardPage?
  {
    if pp < 3 then Bad(EarlyLineBreak)
    else if s[pp - 1] != '\r' then Bad(BareLineFeed)
    else if s[pp - 2] == '\n' then
      if h.contentLength < 0 then Bad(MissingContentLength) else BlankLine
    else
      var rest := h.(lineStart := pp + 1, delimiter := None);
      match h.delimiter
      case None => if total >= 12 && GoneAt(s, h.lineStart) then Gone else NextLine(rest)
      case Some(d) =>
        if StrnEq(s[h.lineStart..d], CONTENT_LENGTH) then
          NextLine(rest.(contentLength := Atoi(s, d + 2)))
        else if StrnEq(s[h.lineStart..d], REQUEST_ID) then
          NextLine(rest.(requestId := Some(Slice(d + 2, pp - (d + 2) - 1))))
        else NextLine(rest)
  }

  // ----- what a line break depends on -----

  // The break at s[pp] ends an empty line.
  predicate BlankAt(s: seq<char>, pp: nat)
    requires pp < |s|
  {
    pp >= 3 && s[pp - 1] == '\r' && s[pp - 2] == '\n'
  }

  // The line is taken for a Content-Length line.
  predicate LengthLine(s: seq<char>, h: Header)
    requires HeaderOk(h, |s|)
  {
    h.delimiter.Some? && StrnEq(s[h.lineStart..h.delimiter.value], CONTENT_LENGTH)
  }

  // The value of a Content-Length line is on the line: there is something
  // other than white space between the delimiter and the break.
  predicate LocalNumber(s: seq<char>, pp: nat, h: Header)
    requires pp < |s| && HeaderOk(h, pp)
  {
    LengthLine(s, h) ==> exists j :: h.delimiter.value + 2 <= j < pp && !IsSpace(s[j])
  }

  // The same line and the same request id; the lengths may differ.
  predicate Alike(g: Header, h: Header) {
    g == h.(contentLength := g.contentLength)
  }

  predicate SameUpTo(s: seq<char>, t: seq<char>, n: nat) {
    n <= |s| && n <= |t| && s[..n] == t[..n]
  }

  lemma {:induction false} SkipSpaceLocal(s: seq<char>, t: seq<char>, n: nat, i: nat, j: nat)
    requires SameUpTo(s, t, n) && i <= j < n && !IsSpace(s[j])
    ensures SkipSpace(s, i) == SkipSpace(t, i) <= j
    decreases j - i
  {
    assert s[i] == s[..n][i] == t[..n][i] == t[i];
    if i < j {
      SkipSpaceLocal(s, t, n, i + 1, j);
    }
  }

  lemma {:induction false} ReadDigitsLocal(s: seq<char>, t: seq<char>, n: nat, i: nat, acc: nat)
    requires SameUpTo(s, t, n) && i < n && !IsDigit(s[n - 1])
    ensures ReadDigits(s, i, acc) == ReadDigits(t, i, acc)
    decreases n - i
  {
    assert s[i] == s[..n][i] == t[..n][i] == t[i];
    if i < n - 1 && IsDigit(s[i]) {
      ReadDigitsLocal(s, t, n, i + 1, 10 * acc + DigitValue(s[i]));
    }
  }

  lemma AtoiLocal(s: seq<char>, t: seq<char>, pp: nat, i: nat)
    requires SameUpTo(s, t, pp + 1) && s[pp] == '\n'
    requires exists j :: i <= j < pp && !IsSpace(s[j])
    ensures Atoi(s, i) == Atoi(t, i)
  {
    var j :| i <= j < pp && !IsSpace(s[j]);
    SkipSpaceLocal(s, t, pp + 1, i, j);
    var k := SkipSpace(s, i);
    assert s[k] == s[..pp + 1][k] == t[..pp + 1][k] == t[k];
    ReadDigitsLocal(s, t, pp + 1, k, 0);
    ReadDigitsLocal(s, t, pp + 1, k + 1, 0);
  }

  lemma GoneOnOneLine(s: seq<char>, i: nat, k: nat)
    requires GoneAt(s, i) && i <= k < i + |GONE|
    ensures s[k] != '\n'
  {
    assert s[k] == s[i..i + |GONE|][k - i] == GONE[k - i];
    assert forall j :: 0 <= j < |GONE| ==> GONE[j] != '\n';
  }

  // The comparison with the shutdown status is settled by the line itself, and
  // where it succeeds at least 12 bytes have been received.
  lemma GoneLocal(s: seq<char>, total: nat, pp: nat, i: nat)
    requires i <= pp < |s| && pp < total && s[pp] == '\n'
    ensures (total >= 12 && GoneAt(s, i)) <==> GONE <= s[i..pp]
  {
    if GoneAt(s, i) {
      if pp < i + |GONE| {
        GoneOnOneLine(s, i, pp);
      }
      assert s[i..pp][..|GONE|] == s[i..i + |GONE|];
    }
    if GONE <= s[i..pp] {
      assert s[i..i + |GONE|] == s[i..pp][..|GONE|];
    }
  }

  // What lies behind a line break, and the length found so far, matter only for
  // the number of a Content-Length line, and whether a blank line finds one.
  lemma LineBreakAlike(s: seq<char>, m: nat, g: Header, t: seq<char>, n: nat, h: Header, pp: nat)
    requires SameUpTo(s, t, pp + 1) && s[pp] == '\n' && HeaderOk(h, pp) && Alike(g, h)
    requires pp < m && pp < n
    ensures var a, b := LineBreak(s, m, pp, g), LineBreak(t, n, pp, h);
      if BlankAt(t, pp) then
        && a == (if g.contentLength < 0 then Bad(MissingContentLength) else BlankLine)
        && b == (if h.contentLength < 0 then Bad(MissingContentLength) else BlankLine)
      else if a.NextLine? then
        && b.NextLine? && Alike(a.h, b.h)
        && (if LengthLine(t, h) then
              && a.h.contentLength == Atoi(s, h.delimiter.value + 2)
              && (LocalNumber(t, pp, h) ==> a.h.contentLength == b.h.contentLength)
            else a.h.contentLength == g.contentLength && b.h.contentLength == h.contentLength)
      else a == b && !a.BlankLine? && a != Bad(MissingContentLength)
  {
    forall i | 0 <= i <= pp
      ensures s[i] == t[i]
    {
      assert s[i] == s[..pp + 1][i] == t[..pp + 1][i];
    }
    if h.delimiter.Some? {
      var d := h.delimiter.value;
      assert s[h.lineStart..d] == t[h.lineStart..d];
      if StrnEq(s[h.lineStart..d], CONTENT_LENGTH) && LocalNumber(t, pp, h) {
        AtoiLocal(t, s, pp, d + 2);
      }
    } else {
      assert s[h.lineStart..pp] == t[h.lineStart..pp];
      GoneLocal(s, m, pp, h.lineStart);
      GoneLocal(t, n, pp, h.lineStart);
    }
  }

  // The outcome of a line break does not depend on what lies behind it: not on
  // how much was received, and not on stale bytes.
  lemma LineBreakLocal(s: seq<char>, m: nat, t: seq<char>, n: nat, pp: nat, h: Header)
    requires SameUpTo(s, t, pp + 1) && s[pp] == '\n' && HeaderOk(h, pp)
    requires pp < m && pp < n && LocalNumber(s, pp, h)
    ensures LineBreak(s, m, pp, h) == LineBreak(t, n, pp, h)
  {
    assert t[pp] == t[..pp + 1][pp] == s[..pp + 1][pp];
    LineBreakAlike(t, n, h, s, m, h, pp);
  }
}
