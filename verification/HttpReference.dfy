// The response parser against a reference that splits the header section into
// lines and each field line at its first colon (section 5 of RFC 9112), with
// Content-Length framing (section 6.2).

module HttpReference {
  import opened Wrappers
  import opened Decimal
  import opened HttpText
  import opened HttpParser

  const LENGTH_NAME := "Content-Length"
  const ID_NAME := "Lambda-Runtime-Aws-Request-Id"

  // ----- the reference -----

  function IndexOf(s: string, c: char): (i: nat)
    ensures i <= |s| && (i < |s| ==> s[i] == c) && forall j :: 0 <= j < i ==> s[j] != c
  {
    if s == [] || s[0] == c then 0 else 1 + IndexOf(s[1..], c)
  }

  predicate HasName(line: string, name: string) {
    IndexOf(line, ':') < |line| && line[..IndexOf(line, ':')] == name
  }

  predicate Blank(c: char) {
    c == ' ' || c == '\t'
  }

  function TrimLeft(s: string): string {
    if s != [] && Blank(s[0]) then TrimLeft(s[1..]) else s
  }

  function TrimRight(s: string): string {
    if s != [] && Blank(s[|s| - 1]) then TrimRight(s[..|s| - 1]) else s
  }

  function FieldValue(line: string): string
    requires IndexOf(line, ':') < |line|
  {
    TrimRight(TrimLeft(line[IndexOf(line, ':') + 1..]))
  }

  // The value of the last field with the given name.
  function Field(lines: seq<string>, name: string): Option<string> {
    if lines == [] then None
    else
      var last := lines[|lines| - 1];
      if HasName(last, name) then Some(FieldValue(last)) else Field(lines[..|lines| - 1], name)
  }

  // The header section: each line followed by CRLF.
  function Head(lines: seq<string>): string {
    if lines == [] then "" else Head(lines[..|lines| - 1]) + lines[|lines| - 1] + "\r\n"
  }

  function Response(lines: seq<string>, body: string): string {
    Head(lines) + "\r\n" + body
  }

  // ----- premises -----

  // The text before the last colon.
  function LastColon(s: string): (r: Option<nat>)
    ensures r.Some? ==> r.value < |s| && s[r.value] == ':' && ':' !in s[r.value + 1..]
    ensures r.None? ==> ':' !in s
  {
    if s == [] then None
    else if s[|s| - 1] == ':' then Some(|s| - 1)
    else
      var r := LastColon(s[..|s| - 1]);
      assert s == s[..|s| - 1] + [s[|s| - 1]];
      if r.Some? then
        assert s[r.value + 1..] == s[..|s| - 1][r.value + 1..] + [s[|s| - 1]];
        r
      else r
  }

  // A recognised field: one space, then a value without colon or surrounding
  // white space.
  ghost predicate Recognised(line: string, name: string) {
    exists v :: SimpleField(line, name, v)
  }

  predicate SimpleField(line: string, name: string, v: string) {
    line == name + ": " + v && v != [] && ':' !in v && !Blank(v[0]) && !Blank(v[|v| - 1])
  }

  // A line that the prefix comparison does not confuse.
  ghost predicate PlainLine(line: string) {
    && line != [] && '\n' !in line
    && (HasName(line, LENGTH_NAME) ==> Recognised(line, LENGTH_NAME) && AllDigits(FieldValue(line)))
    && (HasName(line, ID_NAME) ==> Recognised(line, ID_NAME))
    && (match LastColon(line)
        case None => !(GONE <= line)
        case Some(c) => !(line[..c] < LENGTH_NAME) && !(line[..c] < ID_NAME))
  }

  // ----- recognition of one line -----

  lemma {:induction false} StrnEqMeans(a: string, lit: string)
    requires '\0' !in lit
    ensures StrnEq(a, lit) <==> (a <= lit || (lit <= a && |a| > |lit| && a[|lit|] == '\0'))
  {
    if a != [] && lit != [] {
      StrnEqMeans(a[1..], lit[1..]);
      if a <= lit || (lit <= a && |a| > |lit| && a[|lit|] == '\0') {
        assert a[0] == lit[0];
        assert a[1..] <= lit[1..] || lit[1..] <= a[1..];
      }
      if a[0] == lit[0] && a[1..] <= lit[1..] {
        assert a == [a[0]] + a[1..] && lit == [lit[0]] + lit[1..];
      }
      if a[0] == lit[0] && lit[1..] <= a[1..] {
        assert a == [a[0]] + a[1..] && lit == [lit[0]] + lit[1..];
      }
    }
  }

  lemma {:induction false} IndexOfIs(s: string, c: char, i: nat)
    requires i < |s| && s[i] == c && forall j :: 0 <= j < i ==> s[j] != c
    ensures IndexOf(s, c) == i
  {
    if i > 0 {
      IndexOfIs(s[1..], c, i - 1);
    }
  }

  lemma {:induction false} LastColonIs(s: string, i: nat)
    requires i < |s| && s[i] == ':' && forall j :: i < j < |s| ==> s[j] != ':'
    ensures LastColon(s) == Some(i)
  {
    if i < |s| - 1 {
      LastColonIs(s[..|s| - 1], i);
    }
  }

  lemma PrefixHasName(line: string, name: string)
    requires name + ":" <= line && ':' !in name
    ensures HasName(line, name)
  {
    assert (name + ":")[|name|] == ':' == line[|name|];
    assert forall j :: 0 <= j < |name| ==> line[j] == (name + ":")[j] == name[j];
    IndexOfIs(line, ':', |name|);
  }

  // A simple field is taken apart as expected.
  lemma SimpleFieldParts(line: string, name: string, v: string)
    requires SimpleField(line, name, v) && ':' !in name
    ensures HasName(line, name) && LastColon(line) == Some(|name|)
    ensures line[..|name|] == name && FieldValue(line) == v && line[|name| + 2..] == v
  {
    hide LastColon, TrimLeft, TrimRight;
    assert line == (name + ":") + (" " + v);
    PrefixHasName(line, name);
    ColonAtName(line, name, v);
    IndexOfIs(line, ':', |name|);
    LastColonIs(line, |name|);
    assert line[|name| + 1..] == [' '] + v;
    Untrimmed(v);
  }

  lemma ColonAtName(line: string, name: string, v: string)
    requires line == name + ": " + v && ':' !in name && ':' !in v
    ensures forall j :: 0 <= j < |line| ==> (line[j] == ':' <==> j == |name|)
  {
    forall j | 0 <= j < |line|
      ensures line[j] == ':' <==> j == |name|
    {
      assert j < |name| ==> line[j] == name[j];
      assert j > |name| + 1 ==> line[j] == v[j - |name| - 2];
    }
  }

  lemma Untrimmed(v: string)
    requires v != [] && !Blank(v[0]) && !Blank(v[|v| - 1])
    ensures TrimRight(TrimLeft([' '] + v)) == v
  {
    assert ([' '] + v)[1..] == v;
  }

  // Bounded comparison up to the last colon recognises a line exactly if the
  // text before its first colon is the name, unless the text up to the last
  // colon is cut short, or goes on behind the name and its colon with anything
  // but a NUL, where the comparison would end.
  lemma RecognitionIff(line: string, name: string, c: nat)
    requires LastColon(line) == Some(c)
    requires name == LENGTH_NAME || name == ID_NAME
    ensures (StrnEq(line[..c], name + ":") <==> HasName(line, name))
       <==> !(line[..c] < name) && !(name + ":" < line[..c] && line[|name| + 1] != '\0')
  {
    hide HasName, LastColon, StrnEq;
    var lit, a := name + ":", line[..c];
    assert ':' !in name && '\0' !in lit;
    StrnEqMeans(a, lit);
    HasNameMeans(line, name);
    PrefixUpTo(line, lit, c);
    if c < |name| {
      assert lit[c] == name[c] && name[c] in name;
      assert a <= lit <==> a <= name;
    } else if c == |name| {
      assert lit[..c] == name && lit[c] == line[c];
    } else if c > |lit| {
      assert a[|lit|] == line[|lit|];
    }
  }

  // A prefix of the line, against what is seen of the line up to c.
  lemma PrefixUpTo(line: string, lit: string, c: nat)
    requires c < |line|
    ensures c >= |lit| ==> (lit <= line <==> lit <= line[..c])
    ensures c < |lit| ==> (lit <= line ==> line[c] == lit[c])
    ensures c == |lit| - 1 ==> (lit <= line <==> line[..c] == lit[..c] && line[c] == lit[c])
  {
    if c >= |lit| {
      assert line[..c][..|lit|] == line[..|lit|];
    }
    if c == |lit| - 1 {
      assert line[..|lit|] == line[..c] + [line[c]] && lit == lit[..c] + [lit[c]];
    }
  }

  lemma HasNameMeans(line: string, name: string)
    requires ':' !in name
    ensures HasName(line, name) <==> name + ":" <= line
  {
    if HasName(line, name) {
      var i := IndexOf(line, ':');
      assert line[..i + 1] == name + ":";
    }
    if name + ":" <= line {
      PrefixHasName(line, name);
    }
  }

  // A plain line is recognised by its name.
  lemma RecognitionAgrees(line: string, name: string, c: nat)
    requires PlainLine(line) && LastColon(line) == Some(c)
    requires name == LENGTH_NAME || name == ID_NAME
    ensures StrnEq(line[..c], name + ":") <==> HasName(line, name)
    ensures HasName(line, name) ==> line[..c] == name
  {
    hide HasName, LastColon, StrnEq, AllDigits;
    var lit := name + ":";
    assert ':' !in name && '\0' !in lit;
    StrnEqMeans(line[..c], lit);
    if HasName(line, name) {
      var v :| SimpleField(line, name, v);
      SimpleFieldParts(line, name, v);
    }
    if StrnEq(line[..c], lit) {
      RecognisedPrefix(line, name, c);
      PrefixHasName(line, name);
    }
  }

  lemma RecognisedPrefix(line: string, name: string, c: nat)
    requires c < |line| && line[c] == ':' && !(line[..c] < name)
    requires line[..c] <= name + ":" || name + ":" <= line[..c]
    ensures name + ":" <= line
  {
    var lit := name + ":";
    if line[..c] <= lit && c <= |name| {
      assert line[..c] == lit[..c] == name[..c];
      assert c == |name|;
      assert line[..c + 1] == name + ":";
    }
    if lit <= line[..c] {
      assert lit == line[..c][..|lit|] == line[..|lit|];
    }
  }

  // ----- scanning one line -----

  predicate LineAt(data: string, off: nat, line: string) {
    off + |line| + 2 <= |data| && data[off..off + |line| + 2] == line + "\r\n"
  }

  function ColonAt(off: nat, c: Option<nat>): Option<nat> {
    if c.Some? then Some(off + c.value) else None
  }

  // Where three scans of one stream stand: the outcome, the end of the headers
  // and the locality of numbers, from this point on.
  function Ahead(data: string, pp: nat, h: Header): (Outcome, Option<(nat, Header)>, bool)
    requires HeaderOk(h, pp)
  {
    (OneShot(data, pp, h), HeadersEnd(data, pp, h), NumbersLocal(data, pp, h))
  }

  // One byte of a line.
  lemma AheadByte(data: string, pp: nat, h: Header)
    requires HeaderOk(h, pp) && pp < |data| && data[pp] != '\n'
    ensures var h' := if data[pp] == ':' then h.(delimiter := Some(pp)) else h;
      HeaderOk(h', pp + 1) && Ahead(data, pp, h) == Ahead(data, pp + 1, h')
  {
  }

  // From within a line to its break: only the delimiter changes.
  lemma {:induction false} LineScan(data: string, off: nat, line: string, k: nat, h: Header)
    requires LineAt(data, off, line) && '\n' !in line && k <= |line| + 1
    requires HeaderOk(h, off + k)
    requires h.delimiter == ColonAt(off, LastColon(line[..if k < |line| then k else |line|]))
    ensures var h' := h.(delimiter := ColonAt(off, LastColon(line)));
      HeaderOk(h', off + |line| + 1) && Ahead(data, off + k, h) == Ahead(data, off + |line| + 1, h')
    decreases |line| + 1 - k
  {
    hide Ahead, LastColon, LineAt;
    assert line[..|line|] == line;
    if k <= |line| {
      LineChar(data, off, line, k);
      AheadByte(data, off + k, h);
      if k < |line| {
        LastColonSnoc(line, k);
        LineScan(data, off, line, k + 1, if data[off + k] == ':' then h.(delimiter := Some(off + k)) else h);
      } else {
        LineScan(data, off, line, k + 1, h);
      }
    }
  }

  lemma LineChar(data: string, off: nat, line: string, k: nat)
    requires LineAt(data, off, line) && k <= |line| + 1
    ensures off + k < |data|
    ensures data[off + k] == if k < |line| then line[k] else if k == |line| then '\r' else '\n'
    ensures '\n' !in line && k <= |line| ==> data[off + k] != '\n'
  {
    assert data[off + k] == data[off..off + |line| + 2][k] == (line + "\r\n")[k];
    assert k < |line| ==> line[k] in line;
  }

  lemma LastColonSnoc(line: string, k: nat)
    requires k < |line|
    ensures LastColon(line[..k + 1]) == if line[k] == ':' then Some(k) else LastColon(line[..k])
  {
    assert line[..k + 1][..k] == line[..k];
  }

  // The two headers after a plain line.
  ghost predicate LineRead(data: string, line: string, h: Header, h': Header) {
    && h'.contentLength == (if HasName(line, LENGTH_NAME) && AllDigits(FieldValue(line))
                            then Value(FieldValue(line)) else h.contentLength)
    && (if HasName(line, ID_NAME) then IdIs(data, h'.requestId, Some(FieldValue(line)))
        else h'.requestId == h.requestId)
  }

  predicate IdIs(data: string, slice: Option<Slice>, v: Option<string>) {
    match (slice, v)
    case (None, None) => true
    case (Some(s), Some(text)) => s.len == |text| && s.off + |text| <= |data| && data[s.off..s.off + |text|] == text
    case _ => false
  }

  // The value of a simple field, in the stream.
  lemma ValueAt(data: string, off: nat, line: string, name: string, v: string)
    requires LineAt(data, off, line) && SimpleField(line, name, v)
    ensures var i := off + |name| + 2;
      i + |v| + 2 <= |data| && data[i..i + |v|] == v && data[i + |v|] == '\r'
    ensures |line| == |name| + 2 + |v|
  {
    var i := off + |name| + 2;
    var all := data[off..off + |line| + 2];
    forall j | 0 <= j < |v|
      ensures data[i + j] == v[j]
    {
      assert data[i + j] == all[|name| + 2 + j] == (line + "\r\n")[|name| + 2 + j] == line[|name| + 2 + j];
    }
    assert data[i + |v|] == all[|line|] == (line + "\r\n")[|line|];
  }

  lemma NumberRead(data: string, off: nat, line: string, v: string)
    requires LineAt(data, off, line) && SimpleField(line, LENGTH_NAME, v) && AllDigits(v)
    ensures Atoi(data, off + |LENGTH_NAME| + 2) == Value(v)
    ensures var d := off + |LENGTH_NAME|; exists j :: d + 2 <= j < off + |line| + 1 && !IsSpace(data[j])
  {
    ValueAt(data, off, line, LENGTH_NAME, v);
    var i := off + |LENGTH_NAME| + 2;
    assert data[i] == data[i..i + |v|][0] == v[0] && IsDigit(v[0]);
    ReadDigitsValue(data, i, v, 0);
  }

  // A whole plain line: scanned to its break, and past it.
  lemma LineStep(data: string, off: nat, line: string, h: Header) returns (h': Header)
    requires LineAt(data, off, line) && PlainLine(line) && off + |line| + 1 >= 3
    requires h.lineStart == off && h.delimiter == None
    ensures h'.lineStart == off + |line| + 2 && h'.delimiter == None
    ensures LineRead(data, line, h, h')
    ensures Ahead(data, off, h) == Ahead(data, off + |line| + 2, h')
  {
    hide PlainLine, AllDigits, HasName, StrnEq, Atoi, FieldValue, LineAt, LastColon, LineBreak;
    PlainBasics(line);
    LineScan(data, off, line, 0, h);
    var pp := off + |line| + 1;
    var hd := h.(delimiter := ColonAt(off, LastColon(line)));
    LineChar(data, off, line, |line| - 1);
    LineChar(data, off, line, |line|);
    LineChar(data, off, line, |line| + 1);
    h' := BreakStep(data, off, line, hd);
  }

  lemma IndexInside(s: string, c: char)
    ensures IndexOf(s, c) < |s| ==> c in s
  {
  }

  lemma PlainBasics(line: string)
    requires PlainLine(line)
    ensures line != [] && '\n' !in line
    ensures HasName(line, LENGTH_NAME) ==> AllDigits(FieldValue(line)) && !HasName(line, ID_NAME)
    ensures LastColon(line).None? ==> !(GONE <= line) && !HasName(line, LENGTH_NAME) && !HasName(line, ID_NAME)
  {
    IndexInside(line, ':');
  }

  lemma PlainField(line: string, name: string) returns (v: string)
    requires PlainLine(line) && HasName(line, name) && (name == LENGTH_NAME || name == ID_NAME)
    ensures SimpleField(line, name, v) && FieldValue(line) == v && LastColon(line) == Some(|name|)
  {
    hide HasName, LastColon;
    v :| SimpleField(line, name, v);
    SimpleFieldParts(line, name, v);
  }

  lemma BreakStep(data: string, off: nat, line: string, hd: Header) returns (h': Header)
    requires LineAt(data, off, line) && PlainLine(line) && off + |line| + 1 >= 3
    requires hd.lineStart == off && hd.delimiter == ColonAt(off, LastColon(line))
    requires var pp := off + |line| + 1; data[pp] == '\n' && data[pp - 1] == '\r' && data[pp - 2] != '\n'
    ensures h'.lineStart == off + |line| + 2 && h'.delimiter == None
    ensures LineRead(data, line, hd, h')
    ensures var pp := off + |line| + 1;
      && LineBreak(data, |data|, pp, hd) == NextLine(h')
      && LocalNumber(data, pp, hd)
  {
    hide PlainLine, AllDigits, HasName, StrnEq, Atoi, FieldValue, SimpleField, LastColon, GoneAt;
    PlainBasics(line);
    var pp := off + |line| + 1;
    match LastColon(line)
    case None =>
      GoneLocal(data, |data|, pp, off);
      NotGone(data, off, line);
      h' := hd.(lineStart := pp + 1, delimiter := None);
    case Some(c) =>
      LineSlice(data, off, line, c);
      assert LENGTH_NAME + ":" == CONTENT_LENGTH && ID_NAME + ":" == REQUEST_ID;
      RecognitionAgrees(line, LENGTH_NAME, c);
      RecognitionAgrees(line, ID_NAME, c);
      if HasName(line, LENGTH_NAME) {
        var v := PlainField(line, LENGTH_NAME);
        NumberRead(data, off, line, v);
      } else if HasName(line, ID_NAME) {
        var v := PlainField(line, ID_NAME);
        ValueAt(data, off, line, ID_NAME, v);
      }
      h' := LineBreak(data, |data|, pp, hd).h;
  }

  lemma NotGone(data: string, off: nat, line: string)
    requires LineAt(data, off, line) && !(GONE <= line)
    ensures !(GONE <= data[off..off + |line| + 1])
  {
    var s := data[off..off + |line| + 1];
    assert s == (line + "\r\n")[..|line| + 1] == line + "\r" by {
      assert data[off..off + |line| + 2][..|line| + 1] == s;
    }
    assert (line + "\r")[|line|] == '\r' && '\r' !in GONE;
    if GONE <= s {
      PrefixOfSnoc(GONE, line, '\r');
    }
  }

  lemma PrefixOfSnoc(lit: string, s: string, c: char)
    requires lit <= s + [c]
    ensures lit <= s || lit == s + [c]
  {
    if |lit| <= |s| {
      assert (s + [c])[..|lit|] == s[..|lit|];
    }
  }

  lemma LineSlice(data: string, off: nat, line: string, c: nat)
    requires LineAt(data, off, line) && c <= |line|
    ensures data[off..off + c] == line[..c]
  {
    forall j | 0 <= j < c
      ensures data[off + j] == line[j]
    {
      assert data[off + j] == data[off..off + |line| + 2][j] == (line + "\r\n")[j];
    }
  }

  // ----- the header section -----

  ghost predicate PlainLines(lines: seq<string>) {
    |lines| > 0 && |lines[0]| >= 2 && forall i :: 0 <= i < |lines| ==> PlainLine(lines[i])
  }

  // What the scan has found agrees with the reference.
  ghost predicate Agrees(data: string, h: Header, lines: seq<string>) {
    && (match Field(lines, LENGTH_NAME)
        case None => h.contentLength == -1
        case Some(v) => AllDigits(v) && h.contentLength == Value(v))
    && IdIs(data, h.requestId, Field(lines, ID_NAME))
  }

  lemma {:induction false} HeadPrefix(lines: seq<string>, j: nat)
    requires j <= |lines|
    ensures Head(lines[..j]) <= Head(lines)
  {
    var n := |lines| - 1;
    if j <= n {
      HeadPrefix(lines[..n], j);
      assert lines[..n][..j] == lines[..j];
    } else {
      assert lines[..j] == lines;
    }
  }

  lemma LineInPlace(lines: seq<string>, body: string, j: nat)
    requires j < |lines|
    ensures var off := |Head(lines[..j])|;
      && LineAt(Response(lines, body), off, lines[j])
      && |Head(lines[..j + 1])| == off + |lines[j]| + 2
  {
    HeadPrefix(lines, j + 1);
    assert lines[..j + 1][..j] == lines[..j];
    var off, upTo := |Head(lines[..j])|, Head(lines[..j + 1]);
    assert upTo == Head(lines[..j]) + lines[j] + "\r\n";
    assert Response(lines, body)[..|upTo|] == Head(lines)[..|upTo|] == upTo;
    assert upTo[off..] == lines[j] + "\r\n";
    assert Response(lines, body)[off..|upTo|] == upTo[off..];
  }

  // After j lines the scan stands at the start of the next one.
  lemma {:induction false} LinesScan(lines: seq<string>, body: string, j: nat) returns (h: Header)
    requires PlainLines(lines) && j <= |lines|
    ensures var data, off := Response(lines, body), |Head(lines[..j])|;
      && h.lineStart == off && h.delimiter == None && Agrees(data, h, lines[..j])
      && Ahead(data, 0, NO_HEADER) == Ahead(data, off, h)
  {
    hide PlainLine, HasName, FieldValue, AllDigits, Value, OneShot, HeadersEnd, NumbersLocal;
    var data := Response(lines, body);
    if j == 0 {
      h := NO_HEADER;
    } else {
      var g := LinesScan(lines, body, j - 1);
      LineInPlace(lines, body, j - 1);
      FirstLineLong(lines, j - 1);
      h := LineStep(data, |Head(lines[..j - 1])|, lines[j - 1], g);
      PlainBasics(lines[j - 1]);
      assert lines[..j][..j - 1] == lines[..j - 1];
    }
  }

  lemma FirstLineLong(lines: seq<string>, j: nat)
    requires PlainLines(lines) && j < |lines|
    ensures |Head(lines[..j])| + |lines[j]| + 1 >= 3
  {
    if j > 0 {
      HeadPrefix(lines[..j], 1);
      assert lines[..j][..1] == lines[..1] && lines[..1][..0] == [];
      assert Head(lines[..1]) == lines[0] + "\r\n";
      assert PlainLine(lines[j]);
    }
  }

  lemma FirstLineExists(lines: seq<string>)
    requires PlainLines(lines)
    ensures lines != []
  {
  }

  // The blank line.
  lemma BlankStep(lines: seq<string>, body: string, h: Header)
    requires PlainLines(lines)
    requires h.lineStart == |Head(lines)| && h.delimiter == None
    ensures var data, start := Response(lines, body), |Head(lines)| + 2;
      Ahead(data, |Head(lines)|, h) ==
        if h.contentLength < 0 then (Fatal(MissingContentLength), None, true)
        else (BodyOutcome(data, start, h), Some((start, h)), true)
  {
    hide Ahead, PlainLines;
    var data, off := Response(lines, body), |Head(lines)|;
    var n := |lines| - 1;
    assert |lines| > 0 by {
      FirstLineExists(lines);
    }
    FirstLineLong(lines, n);
    assert lines[..n + 1] == lines;
    assert Head(lines) == Head(lines[..n]) + lines[n] + "\r\n";
    assert data[off - 1] == Head(lines)[off - 1] == '\n';
    assert data[off] == '\r' && data[off + 1] == '\n';
    AheadByte(data, off, h);
    AheadBlank(data, off + 1, h);
  }

  lemma AheadBlank(data: string, pp: nat, h: Header)
    requires HeaderOk(h, pp) && 3 <= pp < |data| && data[pp] == '\n' && data[pp - 1] == '\r' && data[pp - 2] == '\n'
    requires h.delimiter == None
    ensures Ahead(data, pp, h) ==
      if h.contentLength < 0 then (Fatal(MissingContentLength), None, true)
      else (BodyOutcome(data, pp + 1, h), Some((pp + 1, h)), true)
  {
  }

  // The whole header section, as seen by each scan.
  lemma HeadersRead(lines: seq<string>, body: string) returns (h: Header)
    requires PlainLines(lines)
    ensures var data, start := Response(lines, body), |Head(lines)| + 2;
      && start <= |data| && data[start..] == body && Agrees(data, h, lines)
      && Ahead(data, 0, NO_HEADER) ==
           if h.contentLength < 0 then (Fatal(MissingContentLength), None, true)
           else (BodyOutcome(data, start, h), Some((start, h)), true)
  {
    hide PlainLine, OneShot, HeadersEnd, NumbersLocal;
    assert lines[..|lines|] == lines;
    h := LinesScan(lines, body, |lines|);
    BlankStep(lines, body, h);
  }

  // A response whose header section consists of plain lines, in whatever
  // chunks it arrives: the body starts behind the blank line, the length is
  // the reference's, and the request id is the reference's, in the buffer.
  // Without a Content-Length field the parser gives up at the blank line.
  lemma HeadersAsFieldLines(lines: seq<string>, body: string, buf: seq<char>, sizes: seq<nat>, capacity: nat)
    requires PlainLines(lines)
    requires var length := Field(lines, LENGTH_NAME);
      length.Some? ==> AllDigits(length.value) && |body| == Value(length.value)
    requires |Response(lines, body)| < capacity <= |buf|
    ensures var data := Response(lines, body);
      var (o, p) := Run(Start(buf, capacity), Net(data, sizes), capacity);
      if Field(lines, LENGTH_NAME).None? then o == Fatal(MissingContentLength)
      else
        && o.Complete? && o.bodyStart == |Head(lines)| + 2 && o.contentLength == |body|
        && p.total == |data| && p.buf[..|data|] == data && data[o.bodyStart..] == body
        && IdIs(data, o.requestId, Field(lines, ID_NAME))
  {
    hide PlainLine, HasName, FieldValue, AllDigits, Value, OneShot, HeadersEnd, NumbersLocal;
    var data := Response(lines, body);
    var h := HeadersRead(lines, body);
    NumbersDetermined(data);
    ChunkingIrrelevant(buf, data, sizes, capacity);
  }
}
