// A reference parser for flat JSON objects: the object, number and string
// grammars of RFC 8259 (sections 4, 6 and 7) with white space (section 2),
// escapes included.  Strings come out as UTF-16 code units.

module JsonGrammar {
  import opened Wrappers
  import opened Decimal
  import opened JsonReader

  datatype RefValue = RefStr(units: seq<nat>) | RefNum(text: string)

  datatype RefMember = RefMember(key: seq<nat>, value: RefValue)

  // ----- strings -----

  function Units(s: string): (u: seq<nat>)
    ensures |u| == |s|
  {
    seq(|s|, i requires 0 <= i < |s| => s[i] as int)
  }

  // A character that stands for itself.
  predicate Plain(c: char) {
    c >= ' ' && c != '"' && c != '\\'
  }

  predicate Unescaped(s: string) {
    forall i :: 0 <= i < |s| ==> Plain(s[i])
  }

  function HexDigit(c: char): Option<nat> {
    if '0' <= c <= '9' then Some((c - '0') as nat)
    else if 'a' <= c <= 'f' then Some((c - 'a') as nat + 10)
    else if 'A' <= c <= 'F' then Some((c - 'A') as nat + 10)
    else None
  }

  // The character after a backslash, and how many characters it takes.
  function Escape(text: string, i: nat): (r: Option<(nat, nat)>)
    ensures r.Some? ==> r.value.1 > i && r.value.1 <= |text|
  {
    if i >= |text| then None
    else
      match text[i]
      case '"' => Some(('"' as int, i + 1))
      case '\\' => Some(('\\' as int, i + 1))
      case '/' => Some(('/' as int, i + 1))
      case 'b' => Some((8, i + 1))
      case 'f' => Some((12, i + 1))
      case 'n' => Some((10, i + 1))
      case 'r' => Some((13, i + 1))
      case 't' => Some((9, i + 1))
      case 'u' =>
        if i + 4 >= |text| then None
        else
          var a, b, c, d := HexDigit(text[i + 1]), HexDigit(text[i + 2]), HexDigit(text[i + 3]), HexDigit(text[i + 4]);
          if a.Some? && b.Some? && c.Some? && d.Some?
          then Some((4096 * a.value + 256 * b.value + 16 * c.value + d.value, i + 5))
          else None
      case _ => None
  }

  // The rest of a string, from behind its opening quote to behind its closing
  // quote.
  function ParseChars(text: string, i: nat): (r: Option<(seq<nat>, nat)>)
    ensures r.Some? ==> i < r.value.1 <= |text|
    decreases |text| - i
  {
    if i >= |text| then None
    else if text[i] == '"' then Some(([], i + 1))
    else if Plain(text[i]) then
      var rest := ParseChars(text, i + 1);
      if rest.None? then None else Some(([text[i] as int] + rest.value.0, rest.value.1))
    else if text[i] != '\\' then None
    else
      var e := Escape(text, i + 1);
      if e.None? then None
      else
        var rest := ParseChars(text, e.value.1);
        if rest.None? then None else Some(([e.value.0] + rest.value.0, rest.value.1))
  }

  // ----- numbers -----

  function SkipDigits(text: string, i: nat): (j: nat)
    ensures i <= j && (i <= |text| ==> j <= |text|)
    decreases |text| - i
  {
    if i < |text| && IsDigit(text[i]) then SkipDigits(text, i + 1) else i
  }

  predicate CharAt(text: string, i: nat, c: char) {
    i < |text| && text[i] == c
  }

  // One or more digits.
  function SomeDigits(text: string, i: nat): (r: Option<nat>)
    ensures r.Some? ==> i < r.value <= |text|
  {
    if i < |text| && IsDigit(text[i]) then Some(SkipDigits(text, i + 1)) else None
  }

  function ParseInt(text: string, i: nat): (r: Option<nat>)
    ensures r.Some? ==> i < r.value <= |text|
  {
    if CharAt(text, i, '0') then Some(i + 1) else SomeDigits(text, i)
  }

  function ParseFraction(text: string, i: nat): (r: Option<nat>)
    requires i <= |text|
    ensures r.Some? ==> i <= r.value <= |text|
  {
    if CharAt(text, i, '.') then SomeDigits(text, i + 1) else Some(i)
  }

  function ParseExponent(text: string, i: nat): (r: Option<nat>)
    requires i <= |text|
    ensures r.Some? ==> i <= r.value <= |text|
  {
    if !CharAt(text, i, 'e') && !CharAt(text, i, 'E') then Some(i)
    else SomeDigits(text, if CharAt(text, i + 1, '+') || CharAt(text, i + 1, '-') then i + 2 else i + 1)
  }

  // Where the number that starts here ends.
  function ParseNumber(text: string, i: nat): (r: Option<nat>)
    ensures r.Some? ==> i < r.value <= |text|
  {
    var n := ParseInt(text, if CharAt(text, i, '-') then i + 1 else i);
    if n.None? then None
    else
      var f := ParseFraction(text, n.value);
      if f.None? then None else ParseExponent(text, f.value)
  }

  // ----- objects -----

  function ParseValue(text: string, i: nat): (r: Option<(RefValue, nat)>)
    ensures r.Some? ==> i < r.value.1 <= |text|
  {
    if CharAt(text, i, '"') then
      var s := ParseChars(text, i + 1);
      if s.None? then None else Some((RefStr(s.value.0), s.value.1))
    else
      var n := ParseNumber(text, i);
      if n.None? then None else Some((RefNum(text[i..n.value]), n.value))
  }

  // A member with the white space around it.
  function ParseMember(text: string, i: nat): (r: Option<(RefMember, nat)>)
    ensures r.Some? ==> i < r.value.1 <= |text|
  {
    var k := SkipWs(text, i);
    if !CharAt(text, k, '"') then None
    else
      var key := ParseChars(text, k + 1);
      if key.None? then None
      else
        var c := SkipWs(text, key.value.1);
        if !CharAt(text, c, ':') then None
        else
          var v := ParseValue(text, SkipWs(text, c + 1));
          if v.None? then None else Some((RefMember(key.value.0, v.value.0), SkipWs(text, v.value.1)))
  }

  // Members up to the closing brace.
  function ParseMembers(text: string, i: nat): (r: Option<(seq<RefMember>, nat)>)
    ensures r.Some? ==> i < r.value.1 <= |text|
    decreases |text| - i
  {
    var m := ParseMember(text, i);
    if m.None? then None
    else
      var (member, e) := m.value;
      if CharAt(text, e, '}') then Some(([member], e + 1))
      else if !CharAt(text, e, ',') then None
      else
        var rest := ParseMembers(text, e + 1);
        if rest.None? then None else Some(([member] + rest.value.0, rest.value.1))
  }

  // A text that is an object.
  function ParseObject(text: string): Option<seq<RefMember>> {
    var b := SkipWs(text, 0);
    if !CharAt(text, b, '{') then None
    else
      var e := SkipWs(text, b + 1);
      var r := if CharAt(text, e, '}') then Some(([], e + 1)) else ParseMembers(text, b + 1);
      if r.Some? && SkipWs(text, r.value.1) == |text| then Some(r.value.0) else None
  }

  // The value of the first member with the key.
  function RefLookup(ms: seq<RefMember>, key: seq<nat>): Option<RefValue> {
    if ms == [] then None
    else if ms[0].key == key then Some(ms[0].value)
    else RefLookup(ms[1..], key)
  }

  // ----- what a string means that was put between quotes as it is -----

  // s and a quote stand at i.
  predicate Closed(text: string, i: nat, s: string) {
    i + |s| < |text| && text[i..i + |s|] == s && text[i + |s|] == '"'
  }

  lemma {:induction false} UnescapedParses(text: string, i: nat, s: string)
    requires Closed(text, i, s) && Unescaped(s)
    ensures ParseChars(text, i) == Some((Units(s), i + |s| + 1))
    decreases |s|
  {
    if s != [] {
      assert text[i] == text[i..i + |s|][0] == s[0];
      assert text[i + 1..i + 1 + |s[1..]|] == text[i..i + |s|][1..];
      UnescapedParses(text, i + 1, s[1..]);
      assert Units(s) == [s[0] as int] + Units(s[1..]);
    }
  }

  // A string gets shorter by its escapes.
  lemma {:induction false} EscapesShorten(text: string, i: nat)
    requires ParseChars(text, i).Some?
    ensures var (u, e) := ParseChars(text, i).value;
      && |u| <= e - 1 - i && text[e - 1] == '"'
      && (|u| == e - 1 - i ==> Unescaped(text[i..e - 1]))
    decreases |text| - i
  {
    var e := ParseChars(text, i).value.1;
    if text[i] == '"' {
      assert text[i..e - 1] == [];
    } else if Plain(text[i]) {
      EscapesShorten(text, i + 1);
      assert text[i..e - 1] == [text[i]] + text[i + 1..e - 1];
    } else {
      EscapesShorten(text, Escape(text, i + 1).value.1);
    }
  }

  // A quote within the string was escaped, and so stands for itself, further
  // to the front.
  lemma {:induction false} QuoteInside(text: string, i: nat, p: nat) returns (j: nat)
    requires ParseChars(text, i).Some? && i <= p < ParseChars(text, i).value.1 - 1 && text[p] == '"'
    ensures var u := ParseChars(text, i).value.0; j < |u| && u[j] == '"' as int && i + j < p
    decreases |text| - i
  {
    if Plain(text[i]) {
      j := QuoteInside(text, i + 1, p);
      j := j + 1;
    } else {
      var n := Escape(text, i + 1).value.1;
      if p < n {
        assert p == i + 1;
        j := 0;
      } else {
        j := QuoteInside(text, n, p);
        j := j + 1;
      }
    }
  }

  // If the string parsed is s itself, it ends no later than at any quote of s
  // or behind it: an earlier quote is always escaped by a still earlier one.
  lemma {:induction false} EndsAtQuote(text: string, i: nat, s: string, q: nat)
    requires Closed(text, i, s) && ParseChars(text, i).Some? && ParseChars(text, i).value.0 == Units(s)
    requires q <= |s| && text[i + q] == '"'
    ensures ParseChars(text, i).value.1 - 1 <= i + q
    decreases q
  {
    if i + q < ParseChars(text, i).value.1 - 1 {
      var j := QuoteInside(text, i, i + q);
      assert Units(s)[j] == s[j] as int && s[j] == text[i..i + |s|][j] == text[i + j];
      EndsAtQuote(text, i, s, j);
    }
  }

  // Between quotes, a string is parsed as itself if and only if it consists of
  // unescaped characters.
  lemma ItselfIff(text: string, i: nat, s: string)
    requires Closed(text, i, s)
    ensures (ParseChars(text, i).Some? && ParseChars(text, i).value.0 == Units(s)) <==> Unescaped(s)
    ensures Unescaped(s) ==> ParseChars(text, i) == Some((Units(s), i + |s| + 1))
  {
    if Unescaped(s) {
      UnescapedParses(text, i, s);
    }
    if ParseChars(text, i).Some? && ParseChars(text, i).value.0 == Units(s) {
      EndsAtQuote(text, i, s, |s|);
      EscapesShorten(text, i);
    }
  }

  // ----- what a string means that is put between quotes with its escapes -----

  // The contents of a string of the grammar.
  predicate Legal(s: string) {
    var r := ParseChars(s + "\"", 0);
    r.Some? && r.value.1 == |s| + 1
  }

  function Decoded(s: string): seq<nat>
    requires Legal(s)
  {
    ParseChars(s + "\"", 0).value.0
  }

  // `part` stands at i.
  predicate Contains(text: string, i: nat, part: string) {
    i + |part| <= |text| && forall k :: 0 <= k < |part| ==> text[i + k] == part[k]
  }

  lemma EscapeWithin(text: string, i: nat, part: string, j: nat)
    requires Contains(text, i, part) && Escape(part, j).Some?
    ensures var (u, e) := Escape(part, j).value; Escape(text, i + j) == Some((u, i + e))
  {
    assert forall k :: j <= k < |part| ==> text[i + k] == part[k];
    if part[j] == 'u' {
      assert text[i + j + 1] == part[j + 1] && text[i + j + 2] == part[j + 2];
      assert text[i + j + 3] == part[j + 3] && text[i + j + 4] == part[j + 4];
    }
  }

  // A string that is parsed in a part is parsed in the whole.
  lemma {:induction false} CharsWithin(text: string, i: nat, part: string, j: nat)
    requires Contains(text, i, part) && j <= |part| && ParseChars(part, j).Some?
    ensures var (u, e) := ParseChars(part, j).value; ParseChars(text, i + j) == Some((u, i + e))
    decreases |part| - j
  {
    hide Escape;
    assert text[i + j] == part[j];
    if part[j] != '"' {
      if Plain(part[j]) {
        CharsWithin(text, i, part, j + 1);
      } else {
        EscapeWithin(text, i, part, j + 1);
        CharsWithin(text, i, part, Escape(part, j + 1).value.1);
      }
    }
  }

  lemma LegalParses(text: string, i: nat, s: string)
    requires Closed(text, i, s) && Legal(s)
    ensures ParseChars(text, i) == Some((Decoded(s), i + |s| + 1))
  {
    hide ParseChars;
    var part := s + "\"";
    forall k | 0 <= k < |part|
      ensures text[i + k] == part[k]
    {
      assert k < |s| ==> text[i + k] == text[i..i + |s|][k];
    }
    CharsWithin(text, i, part, 0);
  }

  lemma UnescapedLegal(s: string)
    requires Unescaped(s)
    ensures Legal(s) && Decoded(s) == Units(s)
  {
    assert (s + "\"")[0..0 + |s|] == s;
    UnescapedParses(s + "\"", 0, s);
  }

  // A quote within a string has a backslash in front of it.
  lemma {:induction false} QuoteEscaped(text: string, i: nat, p: nat)
    requires ParseChars(text, i).Some? && i <= p < ParseChars(text, i).value.1 - 1 && text[p] == '"'
    ensures p > i && text[p - 1] == '\\'
    decreases |text| - i
  {
    if Plain(text[i]) {
      QuoteEscaped(text, i + 1, p);
    } else {
      var n := Escape(text, i + 1).value.1;
      if p >= n {
        QuoteEscaped(text, n, p);
      }
    }
  }

  // The integer that a number without fraction and exponent denotes.
  function IntOf(t: string): Option<int> {
    if t != "" && AllDigits(t) then Some(Value(t))
    else if |t| > 1 && t[0] == '-' && AllDigits(t[1..]) then Some(0 - Value(t[1..]))
    else None
  }
}
