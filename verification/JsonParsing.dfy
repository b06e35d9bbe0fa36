// The reference parser on object texts: what it returns, escapes decoded; that
// these are the strings as they stand if and only if they consist of unescaped
// characters; and exactly when the readers agree with it.

module JsonParsing {
  import opened Wrappers
  import opened MachineInt
  import opened Decimal
  import opened JsonReader
  import opened JsonObject
  import opened JsonReading
  import opened JsonGrammar

  function RefValueOf(v: JsonValue): RefValue {
    match v
    case JStr(s) => RefStr(Units(s))
    case JNum(_, _) => RefNum(ValueText(v))
  }

  function RefOf(ms: seq<Member>): (r: seq<RefMember>)
    ensures |r| == |ms|
  {
    seq(|ms|, i requires 0 <= i < |ms| => RefMember(Units(ms[i].key), RefValueOf(ms[i].value)))
  }

  // What a value means: escapes decoded.
  function MeaningOf(v: JsonValue): RefValue {
    match v
    case JStr(s) => RefStr(if Legal(s) then Decoded(s) else [])
    case JNum(_, _) => RefNum(ValueText(v))
  }

  function Meaning(ms: seq<Member>): (r: seq<RefMember>)
    ensures |r| == |ms|
  {
    seq(|ms|, i requires 0 <= i < |ms| => RefMember(Units(ms[i].key), MeaningOf(ms[i].value)))
  }

  predicate LegalValue(v: JsonValue) {
    v.JStr? ==> Legal(v.s)
  }

  predicate AllLegal(ms: seq<Member>) {
    forall i :: 0 <= i < |ms| ==> LegalValue(ms[i].value)
  }

  predicate StrictValue(v: JsonValue) {
    v.JStr? ==> Unescaped(v.s)
  }

  predicate AllStrict(ms: seq<Member>) {
    forall i :: 0 <= i < |ms| ==> StrictValue(ms[i].value)
  }

  // White space, an identifier as key and a number in its grammar; strings are
  // arbitrary.
  predicate Shaped(m: Member) {
    && AllWs(m.w1) && AllWs(m.w2) && AllWs(m.w3) && AllWs(m.w4)
    && Identifier(m.key) && (m.value.JNum? ==> ValueOk(m.value))
  }

  predicate ObjectShaped(before: string, ms: seq<Member>, inside: string, after: string) {
    && AllWs(before) && AllWs(inside) && AllWs(after) && (ms != [] ==> inside == [])
    && forall i :: 0 <= i < |ms| ==> Shaped(ms[i])
  }

  // ----- white space and pieces -----

  lemma {:induction false} SkipWsEnd(text: string, pos: nat)
    requires pos <= |text| && forall k :: pos <= k < |text| ==> IsWs(text[k])
    ensures SkipWs(text, pos) == |text|
    decreases |text| - pos
  {
    if pos < |text| {
      SkipWsEnd(text, pos + 1);
    }
  }

  lemma QuotedAt(text: string, i: nat, s: string)
    requires At(text, i, Quoted(s))
    ensures CharAt(text, i, '"') && Closed(text, i + 1, s)
  {
    AtSplit(text, i, "\"" + s, "\"");
    AtSplit(text, i, "\"", s);
    AtSlice(text, i + 1, s);
    assert text[i + 0] == "\""[0] && text[i + 1 + |s| + 0] == "\""[0];
  }

  lemma IdentifierUnescaped(key: string)
    requires Identifier(key)
    ensures Unescaped(key)
  {
  }

  // ----- numbers -----

  lemma {:induction false} SkipDigitsRun(text: string, i: nat, d: string)
    requires At(text, i, d) && AllDigits(d) && i + |d| < |text| && !IsDigit(text[i + |d|])
    ensures SkipDigits(text, i) == i + |d|
    decreases |d|
  {
    if d != [] {
      assert text[i + 0] == d[0];
      AtSplit(text, i, d[..1], d[1..]);
      assert d == d[..1] + d[1..];
      SkipDigitsRun(text, i + 1, d[1..]);
    }
  }

  // A number in its grammar, not followed by more of a number.
  lemma NumberParses(text: string, i: nat, v: JsonValue)
    requires v.JNum? && ValueOk(v) && At(text, i, ValueText(v))
    requires var e := i + |ValueText(v)|; e < |text| && (IsWs(text[e]) || EndsMember(text[e]))
    ensures !CharAt(text, i, '"') && ParseNumber(text, i) == Some(i + |ValueText(v)|)
    ensures text[i..i + |ValueText(v)|] == ValueText(v)
  {
    hide AllDigits;
    var d := v.digits;
    AtSlice(text, i, ValueText(v));
    assert text[i + 0] == ValueText(v)[0];
    FirstDigit(d);
    var n := if v.negative then i + 1 else i;
    if v.negative {
      AtSplit(text, i, "-", d);
    }
    assert At(text, n, d);
    assert text[n + 0] == d[0];
    IntParses(text, n, d);
  }

  lemma FirstDigit(d: string)
    requires AllDigits(d) && |d| > 0
    ensures IsDigit(d[0])
  {
  }

  lemma IntParses(text: string, n: nat, d: string)
    requires At(text, n, d) && AllDigits(d) && |d| > 0 && (|d| > 1 ==> d[0] != '0')
    requires n + |d| < |text| && !IsDigit(text[n + |d|])
    ensures ParseInt(text, n) == Some(n + |d|)
  {
    assert text[n + 0] == d[0];
    AtSplit(text, n, d[..1], d[1..]);
    assert d == d[..1] + d[1..];
    SkipDigitsRun(text, n + 1, d[1..]);
  }

  // ----- members -----

  // A value: parsed as itself if and only if it is strict.
  lemma ValueParses(text: string, i: nat, v: JsonValue)
    requires At(text, i, ValueText(v)) && (v.JNum? ==> ValueOk(v))
    requires var e := i + |ValueText(v)|; e < |text| && (IsWs(text[e]) || EndsMember(text[e]))
    ensures (ParseValue(text, i).Some? && ParseValue(text, i).value.0 == RefValueOf(v)) <==> StrictValue(v)
    ensures StrictValue(v) ==> ParseValue(text, i) == Some((RefValueOf(v), i + |ValueText(v)|))
    ensures LegalValue(v) ==> ParseValue(text, i) == Some((MeaningOf(v), i + |ValueText(v)|))
    ensures i < |text| && !IsWs(text[i])
  {
    hide ParseChars;
    match v
    case JStr(s) =>
      QuotedAt(text, i, s);
      ItselfIff(text, i + 1, s);
      if Legal(s) {
        LegalParses(text, i + 1, s);
      }
    case JNum(_, _) =>
      NumberParses(text, i, v);
      NumberFirst(text, i, v);
  }

  lemma NumberFirst(text: string, i: nat, v: JsonValue)
    requires v.JNum? && ValueOk(v) && At(text, i, ValueText(v))
    ensures i < |text| && !IsWs(text[i])
  {
    assert |ValueText(v)| > 0;
    assert text[i + 0] == ValueText(v)[0];
  }

  // The key of a member leads the parser to its value.
  lemma KeyParses(text: string, i: nat, m: Member)
    requires MemberAt(text, i, m) && Shaped(m)
    requires var v := i + |KeyPart(m)|; v < |text| && !IsWs(text[v])
    ensures var k := SkipWs(text, i);
      && k == i + |m.w1| && CharAt(text, k, '"')
      && ParseChars(text, k + 1) == Some((Units(m.key), k + |m.key| + 2))
    ensures var c := SkipWs(text, i + |m.w1| + |m.key| + 2);
      CharAt(text, c, ':') && SkipWs(text, c + 1) == i + |KeyPart(m)|
  {
    hide MemberText, KeyPart, ValueText, AllWs, Units, ParseChars;
    MemberPieces(text, i, m);
    var q, c := i + |m.w1|, i + |m.w1| + |m.key| + 2;
    QuotedAt(text, q, m.key);
    IdentifierUnescaped(m.key);
    ItselfIff(text, q + 1, m.key);
    SkipWsRun(text, i, m.w1);
    AtSplit(text, c, m.w2 + ":", m.w3);
    AtSplit(text, c, m.w2, ":");
    ColonChar(text, c + |m.w2|);
    SkipWsRun(text, c, m.w2);
    SkipWsRun(text, c + |m.w2| + 1, m.w3);
  }

  lemma MemberParses(text: string, i: nat, m: Member)
    requires MemberAt(text, i, m) && Shaped(m)
    ensures (ParseMember(text, i).Some? && ParseMember(text, i).value.0 == RefMember(Units(m.key), RefValueOf(m.value)))
       <==> StrictValue(m.value)
    ensures StrictValue(m.value) ==>
      ParseMember(text, i) == Some((RefMember(Units(m.key), RefValueOf(m.value)), i + |MemberText(m)|))
    ensures LegalValue(m.value) ==>
      ParseMember(text, i) == Some((RefMember(Units(m.key), MeaningOf(m.value)), i + |MemberText(m)|))
  {
    hide MemberText, KeyPart, ValueText, AllWs, ParseValue, ParseChars, Units, StrictValue, RefValueOf, LegalValue,
      MeaningOf;
    MemberPieces(text, i, m);
    BehindShaped(text, i, m);
    ValueParses(text, i + |KeyPart(m)|, m.value);
    KeyParses(text, i, m);
    var e := i + |KeyPart(m)| + |ValueText(m.value)|;
    assert !IsWs(text[e + |m.w4|]);
    SkipWsRun(text, e, m.w4);
  }

  lemma BehindShaped(text: string, i: nat, m: Member)
    requires MemberAt(text, i, m) && AllWs(m.w4)
    ensures var e := i + |KeyPart(m)| + |ValueText(m.value)|;
      e < |text| && (IsWs(text[e]) || EndsMember(text[e]))
    ensures |MemberText(m)| == |KeyPart(m)| + |ValueText(m.value)| + |m.w4|
    ensures !IsWs(text[i + |MemberText(m)|])
  {
    MemberPieces(text, i, m);
    var e := i + |KeyPart(m)| + |ValueText(m.value)|;
    if m.w4 != [] {
      assert text[e + 0] == m.w4[0];
    }
  }

  // ----- objects -----

  lemma RefOfCons(ms: seq<Member>)
    requires ms != []
    ensures RefOf(ms) == [RefMember(Units(ms[0].key), RefValueOf(ms[0].value))] + RefOf(ms[1..])
    ensures AllStrict(ms) <==> StrictValue(ms[0].value) && AllStrict(ms[1..])
    ensures Meaning(ms) == [RefMember(Units(ms[0].key), MeaningOf(ms[0].value))] + Meaning(ms[1..])
    ensures AllLegal(ms) ==> LegalValue(ms[0].value) && AllLegal(ms[1..])
  {
    if AllStrict(ms[1..]) && StrictValue(ms[0].value) {
      forall i | 0 <= i < |ms|
        ensures StrictValue(ms[i].value)
      {
        assert i > 0 ==> ms[i] == ms[1..][i - 1];
      }
    }
  }

  lemma {:induction false} BodyParses(text: string, i: nat, ms: seq<Member>)
    requires At(text, i, Body(ms)) && i + |Body(ms)| < |text| && text[i + |Body(ms)|] == '}'
    requires ms != [] && forall j :: 0 <= j < |ms| ==> Shaped(ms[j])
    ensures (ParseMembers(text, i).Some? && ParseMembers(text, i).value.0 == RefOf(ms)) <==> AllStrict(ms)
    ensures AllStrict(ms) ==> ParseMembers(text, i) == Some((RefOf(ms), i + |Body(ms)| + 1))
    decreases |ms|
  {
    hide ParseMember, Shaped, MemberText, At, RefOf, AllStrict, StrictValue, Units, RefValueOf, Meaning, MeaningOf,
      LegalValue, AllLegal;
    RefOfCons(ms);
    var m := ms[0];
    if |ms| == 1 {
      EmptyRef();
      assert ms[1..] == [];
      MemberParses(text, i, m);
    } else {
      var e := i + |MemberText(m)|;
      AtSplit(text, i, MemberText(m) + ",", Body(ms[1..]));
      AtSplit(text, i, MemberText(m), ",");
      CommaAt(text, e);
      MemberParses(text, i, m);
      BodyParses(text, e + 1, ms[1..]);
    }
    if ParseMembers(text, i).Some? && ParseMembers(text, i).value.0 == RefOf(ms) {
      var r := ParseMembers(text, i).value.0;
      assert r[0] == RefOf(ms)[0] && r[1..] == RefOf(ms)[1..] == RefOf(ms[1..]);
    }
  }

  lemma {:induction false} BodyDecodes(text: string, i: nat, ms: seq<Member>)
    requires At(text, i, Body(ms)) && i + |Body(ms)| < |text| && text[i + |Body(ms)|] == '}'
    requires ms != [] && AllLegal(ms) && forall j :: 0 <= j < |ms| ==> Shaped(ms[j])
    ensures ParseMembers(text, i) == Some((Meaning(ms), i + |Body(ms)| + 1))
    decreases |ms|
  {
    hide ParseMember, Shaped, MemberText, At, RefOf, AllStrict, StrictValue, Units, RefValueOf, Meaning, MeaningOf,
      LegalValue, AllLegal;
    RefOfCons(ms);
    var m := ms[0];
    if |ms| == 1 {
      EmptyRef();
      assert ms[1..] == [];
      assert Meaning(ms) == [RefMember(Units(m.key), MeaningOf(m.value))];
      MemberParses(text, i, m);
    } else {
      var e := i + |MemberText(m)|;
      AtSplit(text, i, MemberText(m) + ",", Body(ms[1..]));
      AtSplit(text, i, MemberText(m), ",");
      CommaAt(text, e);
      MemberParses(text, i, m);
      BodyDecodes(text, e + 1, ms[1..]);
    }
  }

  lemma EmptyRef()
    ensures RefOf([]) == [] && AllStrict([]) && Meaning([]) == [] && AllLegal([])
  {
  }

  // The reference parser on the text of an object.
  lemma ObjectParsesIff(before: string, ms: seq<Member>, inside: string, after: string)
    requires ObjectShaped(before, ms, inside, after)
    ensures ParseObject(ObjectText(before, ms, inside, after)) == Some(RefOf(ms)) <==> AllStrict(ms)
    ensures AllLegal(ms) ==> ParseObject(ObjectText(before, ms, inside, after)) == Some(Meaning(ms))
  {
    hide ParseMembers, MemberText, At, Body, ObjectText, RefOf, AllStrict, AllWs, Shaped, Meaning, AllLegal;
    var text := ObjectText(before, ms, inside, after);
    ObjectPieces(before, ms, inside, after);
    var b, body := |before|, |before| + 1;
    AtSplit(text, 0, before, "{");
    SkipWsRun0(text, before);
    var end := body + |Body(ms)|;
    if ms == [] {
      EmptyBody("x");
      EmptyRef();
      InsideBrace(text, end, inside, after);
    } else {
      BraceAt(text, end, after);
      FirstMember(text, body, ms);
      BodyParses(text, body, ms);
      if AllLegal(ms) {
        BodyDecodes(text, body, ms);
      }
      AfterBrace(text, end, after);
    }
  }

  lemma SkipWsRun0(text: string, before: string)
    requires At(text, 0, before) && At(text, |before|, "{") && AllWs(before)
    ensures SkipWs(text, 0) == |before| && CharAt(text, |before|, '{')
  {
    assert text[|before| + 0] == "{"[0];
    SkipWsRun(text, 0, before);
  }

  lemma InsideBrace(text: string, e: nat, inside: string, after: string)
    requires At(text, e, inside + "}" + after) && e + |inside + "}" + after| == |text|
    requires AllWs(inside) && AllWs(after)
    ensures SkipWs(text, e) == e + |inside|
    ensures var c := e + |inside|; CharAt(text, c, '}') && SkipWs(text, c + 1) == |text|
  {
    AtSplit(text, e, inside + "}", after);
    AtSplit(text, e, inside, "}");
    var c := e + |inside|;
    assert text[c + 0] == "}"[0];
    SkipWsRun(text, e, inside);
    forall k | c + 1 <= k < |text|
      ensures IsWs(text[k])
    {
      assert text[c + 1 + (k - c - 1)] == after[k - c - 1];
    }
    SkipWsEnd(text, c + 1);
  }

  lemma AfterBrace(text: string, e: nat, after: string)
    requires At(text, e, [] + "}" + after) && e + |[] + "}" + after| == |text| && AllWs(after)
    ensures SkipWs(text, e + 1) == |text|
  {
    assert [] + "}" + after == "" + "}" + after;
    InsideBrace(text, e, "", after);
  }

  lemma FirstMember(text: string, i: nat, ms: seq<Member>)
    requires ms != [] && At(text, i, Body(ms)) && Shaped(ms[0])
    ensures !CharAt(text, SkipWs(text, i), '}')
  {
    hide KeyPart, ValueText;
    var m := ms[0];
    assert At(text, i, MemberText(m)) by {
      if |ms| > 1 {
        AtSplit(text, i, MemberText(m) + ",", Body(ms[1..]));
        AtSplit(text, i, MemberText(m), ",");
      }
    }
    MemberPieces(text, i, m);
    QuotedAt(text, i + |m.w1|, m.key);
    SkipWsRun(text, i, m.w1);
  }

  // ----- lookups -----

  lemma {:induction false} UnitsInjective(s: string, t: string)
    ensures Units(s) == Units(t) <==> s == t
  {
    if Units(s) == Units(t) {
      forall i | 0 <= i < |s|
        ensures s[i] == t[i]
      {
        assert Units(s)[i] == s[i] as int && Units(t)[i] == t[i] as int;
      }
    }
  }

  // What the reference parser's result assigns to a key is what the members
  // assign to it.
  lemma {:induction false} LookupAgrees(ms: seq<Member>, key: string)
    ensures RefLookup(Meaning(ms), Units(key)) ==
      match Lookup(ms, key)
      case None => None
      case Some(v) => Some(MeaningOf(v))
  {
    hide MeaningOf;
    if ms == [] {
      EmptyRef();
    } else {
      RefOfCons(ms);
      UnitsInjective(ms[0].key, key);
      LookupAgrees(ms[1..], key);
    }
  }

  // ----- the readers against the parser -----

  lemma LegalGuarded(s: string)
    requires Legal(s)
    ensures Guarded(s)
  {
    forall p | 0 <= p < |s| && s[p] == '"'
      ensures p > 0 && s[p - 1] == '\\'
    {
      QuoteEscaped(s + "\"", 0, p);
    }
  }

  // Read up to its first quote, a string is what it means exactly if nothing in
  // it is escaped.
  lemma ReadIsMeantIff(s: string)
    requires Legal(s)
    ensures Units(UpToQuote(s)) == Decoded(s) <==> Unescaped(s)
  {
    hide ParseChars, UpToQuote;
    var r, part := UpToQuote(s), s + "\"";
    LegalGuarded(s);
    assert part[0..0 + |r|] == r && part[|r|] == '"';
    ItselfIff(part, 0, r);
    if |r| < |s| {
      assert s[|r| - 1] == '\\' && r[|r| - 1] == s[|r| - 1];
    }
    assert |r| < |s| ==> !Plain(s[|r|]);
  }

  lemma LegalIsOk(before: string, ms: seq<Member>, inside: string, after: string)
    requires ObjectShaped(before, ms, inside, after) && AllLegal(ms)
    ensures ObjectOk(before, ms, inside, after)
  {
    hide Legal, Guarded;
    forall i | 0 <= i < |ms|
      ensures MemberOk(ms[i])
    {
      assert LegalValue(ms[i].value);
      if ms[i].value.JStr? {
        LegalGuarded(ms[i].value.s);
      }
    }
  }

  lemma {:induction false} LookupLegal(ms: seq<Member>, key: string)
    requires AllLegal(ms) && forall i :: 0 <= i < |ms| ==> Shaped(ms[i])
    ensures Lookup(ms, key).Some? ==>
      LegalValue(Lookup(ms, key).value) && (Lookup(ms, key).value.JNum? ==> ValueOk(Lookup(ms, key).value))
  {
    hide LegalValue, ValueOk;
    if ms != [] {
      assert Shaped(ms[0]) && LegalValue(ms[0].value);
      LookupLegal(ms[1..], key);
    }
  }

  // On the text of any flat object of RFC 8259, escapes included: the string
  // reader gives the string that the reference parser assigns to a key, and
  // nothing else, if and only if there is no such string, or no earlier value is
  // mistaken for the key and nothing in the string is escaped.
  lemma StringReaderMatchesParserIff(before: string, ms: seq<Member>, inside: string, after: string, key: string)
    requires ObjectShaped(before, ms, inside, after) && AllLegal(ms) && Identifier(key)
    ensures var text := ObjectText(before, ms, inside, after);
      && ParseObject(text) == Some(Meaning(ms))
      && ((match RefLookup(Meaning(ms), Units(key))
           case Some(RefStr(u)) =>
             GetStr(text, key).Some? && var (at, len) := GetStr(text, key).value; Units(text[at..at + len]) == u
           case _ => GetStr(text, key) == None)
          <==> (match Lookup(ms, key)
                case Some(JStr(s)) => Unmistakable(ms, key) && Unescaped(s)
                case _ => true))
  {
    hide ParseObject, ObjectText, GetStr, GetInt, Meaning, Units, MemberOk, Identifier, AllWs, Unmistakable, Legal,
      Decoded, Unescaped, FirstHit, Lookup, ObjectOk, ObjectShaped, AllLegal, UpToQuote;
    LegalIsOk(before, ms, inside, after);
    ObjectParsesIff(before, ms, inside, after);
    ReadObject(before, ms, inside, after, key);
    HitIsLookup(ms, key);
    LookupAgrees(ms, key);
    assert forall i :: 0 <= i < |ms| ==> Shaped(ms[i]) by {
      ShapedMembers(before, ms, inside, after);
    }
    LookupLegal(ms, key);
    if Lookup(ms, key).Some? && Lookup(ms, key).value.JStr? {
      ReadIsMeantIff(Lookup(ms, key).value.s);
    }
  }

  lemma ShapedMembers(before: string, ms: seq<Member>, inside: string, after: string)
    requires ObjectShaped(before, ms, inside, after)
    ensures forall i :: 0 <= i < |ms| ==> Shaped(ms[i])
  {
  }

  lemma NumberDenotes(v: JsonValue)
    requires v.JNum? && ValueOk(v)
    ensures IntOf(ValueText(v)) == Some(NumberOf(v))
  {
    if v.negative {
      assert ValueText(v)[1..] == v.digits && !IsDigit(ValueText(v)[0]);
    }
  }

  // The int reader gives the number that the reference parser assigns to a key,
  // and is an error otherwise, if and only if there is no such number, or no
  // earlier value is mistaken for the key and the magnitude is below 2^63.
  lemma IntReaderMatchesParserIff(before: string, ms: seq<Member>, inside: string, after: string, key: string)
    requires ObjectShaped(before, ms, inside, after) && AllLegal(ms) && Identifier(key)
    ensures var text := ObjectText(before, ms, inside, after);
      && ParseObject(text) == Some(Meaning(ms))
      && ((match RefLookup(Meaning(ms), Units(key))
           case Some(RefNum(t)) => GetInt(text, key).Ok? && IntOf(t) == Some(GetInt(text, key).value)
           case _ => GetInt(text, key).Err?)
          <==> (match Lookup(ms, key)
                case Some(JNum(_, digits)) => AllDigits(digits) && Unmistakable(ms, key) && Value(digits) < TWO_63
                case _ => true))
  {
    hide ParseObject, ObjectText, GetStr, GetInt, Meaning, Units, MemberOk, Identifier, AllWs, Unmistakable, Legal,
      Decoded, FirstHit, Lookup, ObjectOk, ObjectShaped, AllLegal, UpToQuote, IntOf, ValueText, NumberOf;
    LegalIsOk(before, ms, inside, after);
    ObjectParsesIff(before, ms, inside, after);
    ReadObject(before, ms, inside, after, key);
    HitIsLookup(ms, key);
    LookupAgrees(ms, key);
    ShapedMembers(before, ms, inside, after);
    LookupLegal(ms, key);
    if Lookup(ms, key).Some? && Lookup(ms, key).value.JNum? {
      NumberDenotes(Lookup(ms, key).value);
    }
  }

  // ----- an escaped quote -----

  const MISTAKEN := [Member("", "b", "", "", JStr("x\\\"a"), ""), Member("", "a", "", "", JStr("y"), "")]

  // In {"b":"x\"a","a":"y"} the parser assigns y to a, and the reader nothing: it
  // finds the key behind the escaped quote.
  lemma EscapedQuoteMistaken()
    ensures var text := ObjectText("", MISTAKEN, "", "");
      && ParseObject(text) == Some(Meaning(MISTAKEN))
      && RefLookup(Meaning(MISTAKEN), Units("a")) == Some(RefStr(Units("y")))
      && GetStr(text, "a") == None
  {
    hide ParseObject, ObjectText, GetStr, Meaning, Units, Decoded, Legal;
    var raw := "x\\\"a";
    MistakenLegal(raw);
    UnescapedLegal("y");
    assert AllLegal(MISTAKEN);
    LookupAgrees(MISTAKEN, "a");
    assert MISTAKEN[1..][0] == MISTAKEN[1];
    assert Lookup(MISTAKEN, "a") == Some(JStr("y"));
    LegalIsOk("", MISTAKEN, "", "");
    ObjectParsesIff("", MISTAKEN, "", "");
    assert raw[3..] == "a" && Resembles(raw, "a");
    ReadObject("", MISTAKEN, "", "", "a");
  }

  lemma MistakenLegal(raw: string)
    requires raw == "x\\\"a"
    ensures Legal(raw)
  {
    var part := raw + "\"";
    assert |part| == 5 && part[0] == 'x' && part[1] == '\\' && part[2] == '"' && part[3] == 'a' && part[4] == '"';
    assert ParseChars(part, 4) == Some(([], 5));
    assert ParseChars(part, 3).Some? && ParseChars(part, 3).value.1 == 5;
    assert Escape(part, 2) == Some(('"' as int, 3));
    assert ParseChars(part, 1).Some? && ParseChars(part, 1).value.1 == 5;
  }
}
