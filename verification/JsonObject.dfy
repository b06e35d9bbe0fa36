// Flat objects with arbitrary white space, and what the reader finds in them.
// They are the objects of RFC 8259 (section 4) except that in a string anything
// may stand, as long as there is a backslash in front of each quote.

module JsonObject {
  import opened Decimal
  import opened JsonReader

  // A number is an optional minus and digits (the int production of section 6);
  // a string is what stands between its quotes, escapes as they are.
  datatype JsonValue = JStr(s: string) | JNum(negative: bool, digits: string)

  // White space before the key, before and after the colon, and behind the
  // value.
  datatype Member = Member(w1: string, key: string, w2: string, w3: string, value: JsonValue, w4: string)

  predicate AllWs(s: string) {
    forall i :: 0 <= i < |s| ==> IsWs(s[i])
  }

  predicate IdentChar(c: char) {
    'a' <= c <= 'z' || 'A' <= c <= 'Z' || '0' <= c <= '9' || c == '_'
  }

  predicate Identifier(s: string) {
    s != [] && forall i :: 0 <= i < |s| ==> IdentChar(s[i])
  }

  // Each quote has a backslash in front of it.
  predicate Guarded(s: string) {
    forall i :: 0 <= i < |s| && s[i] == '"' ==> i > 0 && s[i - 1] == '\\'
  }

  // A quote and the key stand at the end of the quoted string: it is the key, or
  // ends with an escaped quote and the key.
  predicate Resembles(s: string, key: string) {
    && |key| <= |s| && s[|s| - |key|..] == key
    && (|key| < |s| ==> s[|s| - |key| - 1] == '"')
  }

  predicate ValueOk(v: JsonValue) {
    match v
    case JStr(s) => Guarded(s)
    case JNum(_, digits) => AllDigits(digits) && |digits| > 0 && (|digits| > 1 ==> digits[0] != '0')
  }

  predicate MemberOk(m: Member) {
    AllWs(m.w1) && AllWs(m.w2) && AllWs(m.w3) && AllWs(m.w4) && Identifier(m.key) && ValueOk(m.value)
  }

  function Quoted(s: string): string {
    "\"" + s + "\""
  }

  function ValueText(v: JsonValue): string {
    match v
    case JStr(s) => Quoted(s)
    case JNum(negative, digits) => if negative then "-" + digits else digits
  }

  function NumberOf(v: JsonValue): int
    requires v.JNum? && ValueOk(v)
  {
    if v.negative then 0 - Value(v.digits) else Value(v.digits)
  }

  function Colon(m: Member): string {
    m.w2 + ":" + m.w3
  }

  // The text up to the value.
  function KeyPart(m: Member): string {
    m.w1 + Quoted(m.key) + Colon(m)
  }

  function MemberText(m: Member): string {
    KeyPart(m) + ValueText(m.value) + m.w4
  }

  function Body(ms: seq<Member>): string {
    if ms == [] then ""
    else if |ms| == 1 then MemberText(ms[0])
    else MemberText(ms[0]) + "," + Body(ms[1..])
  }

  // White space before and behind the object; `inside` only if it is empty.
  function ObjectText(before: string, ms: seq<Member>, inside: string, after: string): string {
    before + "{" + Body(ms) + inside + "}" + after
  }

  predicate ObjectOk(before: string, ms: seq<Member>, inside: string, after: string) {
    && AllWs(before) && AllWs(inside) && AllWs(after) && (ms != [] ==> inside == [])
    && forall i :: 0 <= i < |ms| ==> MemberOk(ms[i])
  }

  // ----- the search, piece by piece -----

  // `piece` stands at i.
  predicate At(text: string, i: nat, piece: string) {
    i + |piece| <= |text| && forall k :: 0 <= k < |piece| ==> text[i + k] == piece[k]
  }

  lemma AtSplit(text: string, i: nat, a: string, b: string)
    ensures At(text, i, a + b) <==> At(text, i, a) && At(text, i + |a|, b)
  {
    if At(text, i, a + b) {
      forall k | 0 <= k < |a|
        ensures text[i + k] == a[k]
      {
        assert (a + b)[k] == a[k];
      }
      forall k | 0 <= k < |b|
        ensures text[i + |a| + k] == b[k]
      {
        assert (a + b)[|a| + k] == b[k];
      }
    }
  }

  lemma AtSlice(text: string, i: nat, piece: string)
    requires At(text, i, piece)
    ensures text[i..i + |piece|] == piece
  {
  }

  // No match starts inside a stretch without quotes.
  lemma {:induction false} SearchStretch(text: string, key: string, i: nat, n: nat)
    requires i <= n <= |text| && forall k :: i <= k < n ==> text[k] != '"'
    ensures Search(text, key, i) == Search(text, key, n)
    decreases n - i
  {
    if i < n {
      SearchStretch(text, key, i + 1, n);
    }
  }

  // A quote whose next character cannot start the key.
  lemma SearchClosing(text: string, key: string, i: nat)
    requires i + 1 < |text| && Identifier(key) && !IdentChar(text[i + 1])
    ensures Search(text, key, i) == Search(text, key, i + 1)
  {
    MatchAtChars(text, key, i);
    assert IdentChar(key[0]);
  }

  // A quoted string: a match if it resembles the key, otherwise the search goes
  // on at its closing quote.
  lemma SearchQuoted(text: string, key: string, i: nat, s: string)
    requires At(text, i, Quoted(s)) && Guarded(s) && Identifier(key)
    ensures Search(text, key, i) ==
      if Resembles(s, key) then i + |s| - |key| else Search(text, key, i + 1 + |s|)
  {
    hide Search, MatchAt, Resembles;
    var close := i + 1 + |s|;
    forall j | i <= j < close
      ensures MatchAt(text, key, j) <==> Resembles(s, key) && j == i + |s| - |key|
    {
      QuotedMatch(text, key, i, s, j);
    }
    if Resembles(s, key) {
      ResemblesLength(s, key);
      SearchFound(text, key, i, i + |s| - |key|);
    } else {
      AtSplit(text, i, "\"" + s, "\"");
      SearchOn(text, key, i, close);
    }
  }

  lemma ResemblesLength(s: string, key: string)
    ensures Resembles(s, key) ==> |key| <= |s|
  {
  }

  lemma {:induction false} SearchFound(text: string, key: string, i: nat, n: nat)
    requires i <= n < |text| && MatchAt(text, key, n) && forall j :: i <= j < n ==> !MatchAt(text, key, j)
    ensures Search(text, key, i) == n
    decreases n - i
  {
    if i < n {
      SearchFound(text, key, i + 1, n);
    }
  }

  lemma {:induction false} SearchOn(text: string, key: string, i: nat, n: nat)
    requires i <= n <= |text| && forall j :: i <= j < n ==> !MatchAt(text, key, j)
    ensures Search(text, key, i) == Search(text, key, n)
    decreases n - i
  {
    if i < n {
      SearchOn(text, key, i + 1, n);
    }
  }

  // Within a quoted string the key is matched only at its end: a quote in it
  // follows a backslash, which is in no key.
  lemma QuotedMatch(text: string, key: string, i: nat, s: string, j: nat)
    requires At(text, i, Quoted(s)) && Guarded(s) && Identifier(key) && i <= j < i + 1 + |s|
    ensures MatchAt(text, key, j) <==> Resembles(s, key) && j == i + |s| - |key|
  {
    hide Resembles, MatchAt, At;
    QuotedChars(text, i, s);
    var close := i + 1 + |s|;
    if MatchAt(text, key, j) {
      MatchIs(text, key, j);
      MatchEnds(text, key, i, s, j);
    }
    SuffixMatch(text, key, i, s);
  }

  lemma QuotedChars(text: string, i: nat, s: string)
    requires At(text, i, Quoted(s))
    ensures i + 1 + |s| < |text| && text[i] == '"' && text[i + 1 + |s|] == '"' && text[i + 1..i + 1 + |s|] == s
  {
    AtSplit(text, i, "\"" + s, "\"");
    AtSplit(text, i, "\"", s);
    AtSlice(text, i + 1, s);
    assert text[i + 1 + |s| + 0] == "\""[0];
    assert text[i + 0] == "\""[0];
  }

  lemma MatchIs(text: string, key: string, j: nat)
    requires MatchAt(text, key, j)
    ensures j + |key| + 1 < |text| && text[j + 1 + |key|] == '"'
    ensures forall k :: 0 <= k < |key| ==> text[j + 1 + k] == key[k]
  {
    MatchAtChars(text, key, j);
  }

  lemma MatchEnds(text: string, key: string, i: nat, s: string, j: nat)
    requires i + 1 + |s| < |text| && text[i + 1 + |s|] == '"' && text[i + 1..i + 1 + |s|] == s
    requires Guarded(s) && Identifier(key) && i <= j < i + 1 + |s|
    requires j + |key| + 1 < |text| && text[j + 1 + |key|] == '"'
    requires forall k :: 0 <= k < |key| ==> text[j + 1 + k] == key[k]
    ensures j == i + |s| - |key|
  {
    var e := j + |key| - i;
    assert forall k :: 0 <= k < |s| ==> s[k] == text[i + 1 + k];
    forall q | j < q < j + 1 + |key|
      ensures text[q] != '"' && text[q] != '\\'
    {
      assert text[q] == text[j + 1 + (q - j - 1)] == key[q - j - 1];
      assert IdentChar(key[q - j - 1]);
    }
    assert text[i + e] != '\\';
  }

  lemma SuffixMatch(text: string, key: string, i: nat, s: string)
    requires i + 1 + |s| < |text| && text[i] == '"' && text[i + 1 + |s|] == '"' && text[i + 1..i + 1 + |s|] == s
    ensures |key| <= |s| ==> (MatchAt(text, key, i + |s| - |key|) <==> Resembles(s, key))
    ensures Resembles(s, key) ==> |key| <= |s|
  {
    if |key| <= |s| {
      var j, close := i + |s| - |key|, i + 1 + |s|;
      assert text[j + 1..j + 1 + |key|] == text[i + 1..close][|s| - |key|..] == s[|s| - |key|..];
      if |key| < |s| {
        assert text[j] == text[i + 1..close][|s| - |key| - 1] == s[|s| - |key| - 1];
      }
    }
  }

  lemma IdentNoQuote(key: string)
    requires Identifier(key)
    ensures '"' !in key
  {
  }

  // ----- one member -----

  predicate EndsMember(c: char) {
    c == ',' || c == '}'
  }

  // A member in place, followed by a comma or the closing brace.
  predicate MemberAt(text: string, i: nat, m: Member) {
    && At(text, i, MemberText(m))
    && i + |MemberText(m)| < |text| && EndsMember(text[i + |MemberText(m)|])
  }

  lemma MemberPieces(text: string, i: nat, m: Member)
    requires At(text, i, MemberText(m))
    ensures At(text, i, m.w1) && At(text, i + |m.w1|, Quoted(m.key))
    ensures At(text, i + |m.w1| + |m.key| + 2, Colon(m))
    ensures At(text, i + |KeyPart(m)|, ValueText(m.value))
    ensures At(text, i + |KeyPart(m)| + |ValueText(m.value)|, m.w4)
    ensures |KeyPart(m)| == |m.w1| + |m.key| + 2 + |Colon(m)|
  {
    AtSplit(text, i, KeyPart(m) + ValueText(m.value), m.w4);
    AtSplit(text, i, KeyPart(m), ValueText(m.value));
    AtSplit(text, i, m.w1 + Quoted(m.key), Colon(m));
    AtSplit(text, i, m.w1, Quoted(m.key));
  }

  lemma StretchOf(text: string, key: string, i: nat, piece: string)
    requires At(text, i, piece) && '"' !in piece
    ensures Search(text, key, i) == Search(text, key, i + |piece|)
  {
    forall k | i <= k < i + |piece|
      ensures text[k] != '"'
    {
      assert text[i + (k - i)] == piece[k - i];
    }
    SearchStretch(text, key, i, i + |piece|);
  }

  lemma WsNoQuote(w: string)
    requires AllWs(w)
    ensures '"' !in w
  {
  }

  // A value that the search takes for the key.
  predicate Mistakable(v: JsonValue, key: string) {
    v.JStr? && Resembles(v.s, key)
  }

  // The search from the start of a member: it stops at the key, or in a string
  // value that looks like the key, or gets to the end of the member.
  lemma MemberSearch(text: string, key: string, i: nat, m: Member)
    requires MemberAt(text, i, m) && MemberOk(m) && Identifier(key)
    ensures Search(text, key, i) ==
      if m.key == key then i + |m.w1|
      else if Mistakable(m.value, key) then i + |KeyPart(m)| + |m.value.s| - |key|
      else Search(text, key, i + |MemberText(m)|)
  {
    hide Search, AllWs, Identifier, MemberText, KeyPart, At, AllDigits;
    KeySearch(text, key, i, m);
    if m.key != key {
      ValueSearch(text, key, i, m);
    }
  }

  lemma ColonFirst(m: Member)
    requires MemberOk(m)
    ensures |Colon(m)| > 0 && !IdentChar(Colon(m)[0]) && '"' !in Colon(m)
  {
    WsNoQuote(m.w2);
    WsNoQuote(m.w3);
    assert Colon(m)[0] == ':' || IsWs(Colon(m)[0]);
  }

  lemma KeySearch(text: string, key: string, i: nat, m: Member)
    requires MemberAt(text, i, m) && MemberOk(m) && Identifier(key)
    ensures Search(text, key, i) ==
      if m.key == key then i + |m.w1| else Search(text, key, i + |KeyPart(m)|)
  {
    hide Search, MemberText, KeyPart, AllWs, Identifier;
    MemberPieces(text, i, m);
    WsNoQuote(m.w1);
    WsNoQuote(m.w2);
    WsNoQuote(m.w3);
    IdentNoQuote(m.key);
    StretchOf(text, key, i, m.w1);
    SearchQuoted(text, key, i + |m.w1|, m.key);
    KeyResembles(m.key, key);
    if m.key != key {
      var close := i + |m.w1| + |m.key| + 1;
      assert text[(close + 1) + 0] == Colon(m)[0];
      ColonFirst(m);
      SearchClosing(text, key, close);
      StretchOf(text, key, close + 1, Colon(m));
    }
  }

  lemma KeyResembles(s: string, key: string)
    requires '"' !in s
    ensures Resembles(s, key) <==> s == key
    ensures Guarded(s)
  {
    assert |key| < |s| ==> s[|s| - |key| - 1] in s;
  }

  // What stands right behind a value.
  lemma BehindValue(text: string, i: nat, m: Member)
    requires MemberAt(text, i, m) && MemberOk(m)
    ensures var e := i + |KeyPart(m)| + |ValueText(m.value)|;
      e < |text| && (IsWs(text[e]) || EndsMember(text[e]))
    ensures |MemberText(m)| == |KeyPart(m)| + |ValueText(m.value)| + |m.w4|
  {
    MemberPieces(text, i, m);
    var e := i + |KeyPart(m)| + |ValueText(m.value)|;
    if m.w4 != [] {
      assert text[e + 0] == m.w4[0];
    }
  }

  lemma ValueSearch(text: string, key: string, i: nat, m: Member)
    requires MemberAt(text, i, m) && MemberOk(m) && Identifier(key)
    ensures Search(text, key, i + |KeyPart(m)|) ==
      if Mistakable(m.value, key) then i + |KeyPart(m)| + |m.value.s| - |key|
      else Search(text, key, i + |MemberText(m)|)
  {
    hide Search, MemberText, KeyPart, At, AllDigits, Identifier, AllWs, ValueText, IdentChar, Resembles, Guarded;
    MemberPieces(text, i, m);
    BehindValue(text, i, m);
    WsNoQuote(m.w4);
    var v := i + |KeyPart(m)|;
    match m.value {
      case JStr(s) =>
        StringSearch(text, key, v, s);
      case JNum(_, _) =>
        NumberNoQuote(m.value);
        StretchOf(text, key, v, ValueText(m.value));
    }
    if !Mistakable(m.value, key) {
      StretchOf(text, key, v + |ValueText(m.value)|, m.w4);
    }
  }

  // A string value, followed by white space or the end of its member.
  lemma StringSearch(text: string, key: string, v: nat, s: string)
    requires At(text, v, ValueText(JStr(s))) && Guarded(s) && Identifier(key)
    requires var e := v + |ValueText(JStr(s))|; e < |text| && (IsWs(text[e]) || EndsMember(text[e]))
    ensures Search(text, key, v) ==
      if Resembles(s, key) then v + |s| - |key| else Search(text, key, v + |ValueText(JStr(s))|)
  {
    hide Search, At, Identifier;
    SearchQuoted(text, key, v, s);
    if !Resembles(s, key) {
      SearchClosing(text, key, v + 1 + |s|);
    }
  }

  lemma NumberNoQuote(v: JsonValue)
    requires v.JNum? && ValueOk(v)
    ensures '"' !in ValueText(v)
  {
  }

  // ----- the whole object -----

  // The first member with the key as its key or in its value.
  function FirstHit(ms: seq<Member>, key: string): (h: nat)
    ensures h <= |ms|
    ensures h < |ms| ==> ms[h].key == key || Mistakable(ms[h].value, key)
    ensures forall j :: 0 <= j < h ==> ms[j].key != key && !Mistakable(ms[j].value, key)
  {
    if ms == [] || ms[0].key == key || Mistakable(ms[0].value, key) then 0 else 1 + FirstHit(ms[1..], key)
  }

  // Where a member is hit, from its start.
  function HitOffset(m: Member, key: string): int {
    if m.key == key || m.value.JNum? then |m.w1| else |KeyPart(m)| + |m.value.s| - |key|
  }

  lemma {:induction false} BodySearch(text: string, key: string, i: nat, ms: seq<Member>) returns (p: nat)
    requires At(text, i, Body(ms)) && i + |Body(ms)| < |text| && text[i + |Body(ms)|] == '}'
    requires ms != [] && Identifier(key) && forall j :: 0 <= j < |ms| ==> MemberOk(ms[j])
    decreases |ms|
    ensures var h := FirstHit(ms, key);
      if h == |ms| then Search(text, key, i) == Search(text, key, i + |Body(ms)|)
      else
        && MemberAt(text, p, ms[h])
        && Search(text, key, i) == p + HitOffset(ms[h], key)
  {
    hide Search, MemberOk, Identifier, MemberText, KeyPart, At;
    p := i;
    var m := ms[0];
    if |ms| == 1 {
      MemberSearch(text, key, i, m);
    } else {
      var e := i + |MemberText(m)|;
      AtSplit(text, i, MemberText(m) + ",", Body(ms[1..]));
      AtSplit(text, i, MemberText(m), ",");
      CommaAt(text, e);
      MemberSearch(text, key, i, m);
      StretchOf(text, key, e, ",");
      if m.key != key && !Mistakable(m.value, key) {
        p := BodySearch(text, key, e + 1, ms[1..]);
      }
    }
  }

  lemma CommaAt(text: string, e: nat)
    requires At(text, e, ",")
    ensures e < |text| && text[e] == ','
  {
    assert text[e + 0] == ","[0];
  }

  lemma ObjectPieces(before: string, ms: seq<Member>, inside: string, after: string)
    ensures var text, b := ObjectText(before, ms, inside, after), |before| + 1;
      && At(text, 0, before + "{") && At(text, b, Body(ms)) && At(text, b + |Body(ms)|, inside + "}" + after)
    ensures |ObjectText(before, ms, inside, after)| == |before| + 1 + |Body(ms)| + |inside + "}" + after|
  {
    var text := ObjectText(before, ms, inside, after);
    assert text == (before + "{") + Body(ms) + (inside + "}" + after);
    AtSplit(text, 0, before + "{" + Body(ms), inside + "}" + after);
    AtSplit(text, 0, before + "{", Body(ms));
  }

  // Where the search ends up in an object.
  lemma ObjectSearch(before: string, ms: seq<Member>, inside: string, after: string, key: string)
    returns (p: nat)
    requires ObjectOk(before, ms, inside, after) && Identifier(key)
    ensures var text, h := ObjectText(before, ms, inside, after), FirstHit(ms, key);
      if h == |ms| then FindKey(text, key) == |text|
      else
        && MemberAt(text, p, ms[h])
        && FindKey(text, key) == p + HitOffset(ms[h], key)
  {
    hide Search, MemberOk, Identifier, MemberText, KeyPart, At, Body, ObjectText, AllWs, FirstHit;
    var text := ObjectText(before, ms, inside, after);
    ObjectPieces(before, ms, inside, after);
    IdentNonEmpty(key);
    WsNoQuote(before);
    StretchOf(text, key, 0, before + "{");
    TailSearch(text, key, |before| + 1 + |Body(ms)|, inside, after);
    p := 0;
    if ms == [] {
      EmptyBody(key);
    } else {
      BraceAt(text, |before| + 1 + |Body(ms)|, after);
      p := BodySearch(text, key, |before| + 1, ms);
    }
  }

  lemma TailSearch(text: string, key: string, e: nat, inside: string, after: string)
    requires At(text, e, inside + "}" + after) && e + |inside + "}" + after| == |text|
    requires AllWs(inside) && AllWs(after)
    ensures Search(text, key, e) == |text|
  {
    WsNoQuote(inside);
    WsNoQuote(after);
    StretchOf(text, key, e, inside + "}" + after);
  }

  lemma EmptyBody(key: string)
    ensures Body([]) == [] && FirstHit([], key) == 0
  {
  }

  lemma IdentNonEmpty(key: string)
    requires Identifier(key)
    ensures key != []
  {
  }

  lemma BraceAt(text: string, e: nat, after: string)
    requires At(text, e, [] + "}" + after)
    ensures e < |text| && text[e] == '}'
  {
    assert text[e + 0] == ([] + "}" + after)[0];
  }
}
