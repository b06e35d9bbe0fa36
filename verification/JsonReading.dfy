// The reader against the reference grammar: what json_get_str and json_get_int
// return for every key of every flat object.

module JsonReading {
  import opened Wrappers
  import opened MachineInt
  import opened Decimal
  import opened JsonReader
  import opened JsonObject

  // White space followed by something else is skipped as a whole.
  lemma {:induction false} SkipWsRun(text: string, pos: nat, w: string)
    requires At(text, pos, w) && AllWs(w)
    requires pos + |w| < |text| ==> !IsWs(text[pos + |w|])
    ensures SkipWs(text, pos) == pos + |w|
    decreases |w|
  {
    if w != [] {
      assert text[pos + 0] == w[0];
      forall k | 0 <= k < |w| - 1
        ensures text[pos + 1 + k] == w[1..][k]
      {
        assert text[pos + (k + 1)] == w[k + 1];
      }
      SkipWsRun(text, pos + 1, w[1..]);
    }
  }

  lemma ValueFirst(text: string, i: nat, v: JsonValue)
    requires At(text, i, ValueText(v)) && ValueOk(v)
    ensures i < |text| && !IsWs(text[i])
    ensures v.JStr? <==> text[i] == '"'
    ensures v.JNum? ==> (text[i] == '-' <==> v.negative)
  {
    assert |ValueText(v)| > 0;
    assert text[i + 0] == ValueText(v)[0];
    match v
    case JStr(_) =>
    case JNum(_, digits) =>
      assert IsDigit(digits[0]);
  }

  // Found at its key, a member leads to its value.
  lemma ValueBehindKey(text: string, key: string, i: nat, m: Member)
    requires MemberAt(text, i, m) && MemberOk(m) && m.key == key
    requires FindKey(text, key) == i + |m.w1|
    ensures FindKey(text, key) < |text|
    ensures ValueStart(text, key) == Some(i + |KeyPart(m)|)
  {
    hide MemberText, KeyPart, ValueText, ValueOk, Identifier, FindKey;
    MemberPieces(text, i, m);
    var c := i + |m.w1| + |m.key| + 2;
    AtSplit(text, c, m.w2 + ":", m.w3);
    AtSplit(text, c, m.w2, ":");
    ColonChar(text, c + |m.w2|);
    SkipWsRun(text, c, m.w2);
    ValueFirst(text, i + |KeyPart(m)|, m.value);
    SkipWsRun(text, c + |m.w2| + 1, m.w3);
  }

  lemma ColonChar(text: string, i: nat)
    requires At(text, i, ":")
    ensures i < |text| && text[i] == ':'
  {
    assert text[i + 0] == ":"[0];
  }

  // Found in a string value that looks like the key, the reader finds no colon.
  lemma NoColonBehindValue(text: string, key: string, i: nat, m: Member)
    requires MemberAt(text, i, m) && MemberOk(m) && m.key != key && Mistakable(m.value, key)
    requires FindKey(text, key) == i + HitOffset(m, key)
    ensures FindKey(text, key) < |text| && ValueStart(text, key) == None
  {
    hide MemberText, KeyPart, Identifier, FindKey;
    MemberPieces(text, i, m);
    BehindValue(text, i, m);
    var e := i + |MemberText(m)|;
    assert EndsMember(text[e]) && !IsWs(text[e]);
    SkipWsRun(text, i + |KeyPart(m)| + |m.value.s| + 2, m.w4);
  }

  // What the reader takes for a string: it ends at the first quote.
  function UpToQuote(s: string): (r: string)
    ensures r <= s && '"' !in r
    ensures |r| < |s| ==> s[|r|] == '"'
    ensures '"' !in s ==> r == s
  {
    if s == [] || s[0] == '"' then [] else [s[0]] + UpToQuote(s[1..])
  }

  // A string value, up to its first quote.
  lemma StringRead(text: string, v: nat, s: string)
    requires At(text, v, Quoted(s))
    ensures var n := v + 1 + |UpToQuote(s)|;
      n < |text| && NextQuote(text, v + 1) == n && text[v + 1..n] == UpToQuote(s)
  {
    QuotedChars(text, v, s);
    var r, n := UpToQuote(s), v + 1 + |UpToQuote(s)|;
    assert text[v + 1..n] == text[v + 1..v + 1 + |s|][..|r|] == s[..|r|] == r;
    assert |r| < |s| ==> text[n] == text[v + 1..v + 1 + |s|][|r|];
    forall k | v + 1 <= k < n
      ensures text[k] != '"'
    {
      assert text[k] == text[v + 1..n][k - v - 1] == r[k - v - 1];
    }
  }

  // The accumulator after k digits, to the end: the value, unless it leaves
  // int64.
  lemma {:induction false} AccumulateRun(text: string, pos: nat, d: string, k: nat)
    requires At(text, pos, d) && AllDigits(d) && k <= |d|
    requires pos + |d| < |text| ==> !IsDigit(text[pos + |d|])
    requires Value(d[..k]) < TWO_63
    ensures Accumulate(text, pos + k, Value(d[..k])) == if Value(d) < TWO_63 then Some(Value(d)) else None
    decreases |d| - k
  {
    if k == |d| {
      assert d[..k] == d;
    } else {
      assert text[pos + k] == d[k];
      assert d[..k + 1][..k] == d[..k];
      assert Value(d[..k + 1]) == 10 * Value(d[..k]) + DigitValue(d[k]);
      if Value(d[..k + 1]) < TWO_63 {
        AccumulateRun(text, pos, d, k + 1);
      } else {
        ValueGrows(d, k + 1);
      }
    }
  }

  lemma {:induction false} ValueGrows(d: string, k: nat)
    requires AllDigits(d) && k <= |d|
    ensures Value(d[..k]) <= Value(d)
  {
    if k == |d| {
      assert d[..k] == d;
    } else {
      ValueGrows(d[..|d| - 1], k);
      assert d[..|d| - 1][..k] == d[..k];
    }
  }

  // An int value: read exactly if its magnitude is below 2^63, so for all of
  // int64 except its minimum.
  lemma IntRead(text: string, key: string, i: nat, m: Member)
    requires MemberAt(text, i, m) && MemberOk(m) && m.value.JNum?
    requires FindKey(text, key) < |text| && ValueStart(text, key) == Some(i + |KeyPart(m)|)
    ensures GetInt(text, key) ==
      if Value(m.value.digits) < TWO_63 then Ok(NumberOf(m.value)) else Err(Overflow)
  {
    hide MemberText, KeyPart, Identifier, FindKey, ValueStart, AllWs;
    MemberPieces(text, i, m);
    BehindValue(text, i, m);
    var v, d := i + |KeyPart(m)|, m.value.digits;
    ValueFirst(text, v, m.value);
    var pos := if m.value.negative then v + 1 else v;
    if m.value.negative {
      AtSplit(text, v, "-", d);
    }
    assert At(text, pos, d);
    assert text[pos + 0] == d[0];
    assert d[..0] == [];
    AccumulateRun(text, pos, d, 0);
  }

  // For every flat object and every key that is an identifier: the readers
  // work on the first member that has the key as its key or in its string
  // value.  In the first case they return its value, of their type, a string up
  // to its first quote; in the second the reader has mistaken a value for the
  // key and finds no colon.
  lemma ReadObject(before: string, ms: seq<Member>, inside: string, after: string, key: string)
    requires ObjectOk(before, ms, inside, after) && Identifier(key)
    ensures var text, h := ObjectText(before, ms, inside, after), FirstHit(ms, key);
      if h == |ms| then
        GetStr(text, key) == None && GetInt(text, key) == Err(KeyNotFound)
      else if ms[h].key != key then
        GetStr(text, key) == None && GetInt(text, key) == Err(NoColon)
      else match ms[h].value
        case JStr(s) =>
          && GetStr(text, key).Some? && GetInt(text, key) == Err(NoDigit)
          && var (at, len) := GetStr(text, key).value; text[at..at + len] == UpToQuote(s)
        case JNum(_, digits) =>
          && GetStr(text, key) == None
          && GetInt(text, key) ==
               if Value(digits) < TWO_63 then Ok(NumberOf(ms[h].value)) else Err(Overflow)
  {
    hide MemberText, KeyPart, Identifier, FindKey, AllWs, ObjectText, FirstHit, GetStr, GetInt, ValueStart;
    var text, h := ObjectText(before, ms, inside, after), FirstHit(ms, key);
    var p := ObjectSearch(before, ms, inside, after, key);
    if h == |ms| {
      NotFound(text, key);
    } else {
      HitIs(ms, key);
      if ms[h].key != key {
        NoColonBehindValue(text, key, p, ms[h]);
        NoColonRead(text, key);
      } else {
        MemberRead(text, key, p, ms[h]);
      }
    }
  }

  // Found at its key, a member is read by the reader of its type.
  lemma MemberRead(text: string, key: string, p: nat, m: Member)
    requires MemberAt(text, p, m) && MemberOk(m) && m.key == key && FindKey(text, key) == p + |m.w1|
    ensures match m.value
      case JStr(s) =>
        && GetStr(text, key).Some? && GetInt(text, key) == Err(NoDigit)
        && var (at, len) := GetStr(text, key).value; text[at..at + len] == UpToQuote(s)
      case JNum(_, digits) =>
        && GetStr(text, key) == None
        && GetInt(text, key) == if Value(digits) < TWO_63 then Ok(NumberOf(m.value)) else Err(Overflow)
  {
    hide MemberText, KeyPart, Identifier, FindKey, ValueStart, AllWs, ValueText, ValueOk, GetStr, GetInt, MemberOk;
    match m.value
    case JStr(_) => StringMember(text, key, p, m);
    case JNum(_, _) => NumberMember(text, key, p, m);
  }

  lemma StringMember(text: string, key: string, p: nat, m: Member)
    requires MemberAt(text, p, m) && MemberOk(m) && m.key == key && FindKey(text, key) == p + |m.w1| && m.value.JStr?
    ensures GetStr(text, key).Some? && GetInt(text, key) == Err(NoDigit)
    ensures var (at, len) := GetStr(text, key).value; text[at..at + len] == UpToQuote(m.value.s)
  {
    hide MemberText, KeyPart, Identifier, FindKey, ValueStart, AllWs, UpToQuote, Accumulate;
    ValueBehindKey(text, key, p, m);
    MemberPieces(text, p, m);
    ValueFirst(text, p + |KeyPart(m)|, m.value);
    StringRead(text, p + |KeyPart(m)|, m.value.s);
  }

  lemma NumberMember(text: string, key: string, p: nat, m: Member)
    requires MemberAt(text, p, m) && MemberOk(m) && m.key == key && FindKey(text, key) == p + |m.w1| && m.value.JNum?
    ensures GetStr(text, key) == None
    ensures GetInt(text, key) == if Value(m.value.digits) < TWO_63 then Ok(NumberOf(m.value)) else Err(Overflow)
  {
    hide MemberText, KeyPart, Identifier, FindKey, ValueStart, AllWs, GetInt, NumberOf, Value;
    ValueBehindKey(text, key, p, m);
    MemberPieces(text, p, m);
    ValueFirst(text, p + |KeyPart(m)|, m.value);
    IntRead(text, key, p, m);
  }

  lemma NotFound(text: string, key: string)
    requires FindKey(text, key) == |text|
    ensures GetStr(text, key) == None && GetInt(text, key) == Err(KeyNotFound)
  {
  }

  lemma NoColonRead(text: string, key: string)
    requires FindKey(text, key) < |text| && ValueStart(text, key) == None
    ensures GetStr(text, key) == None && GetInt(text, key) == Err(NoColon)
  {
  }

  lemma HitIs(ms: seq<Member>, key: string)
    requires FirstHit(ms, key) < |ms|
    ensures ms[FirstHit(ms, key)].key == key || Mistakable(ms[FirstHit(ms, key)].value, key)
  {
  }

  // ----- a reference parser -----

  // What a parser of the grammar assigns to a key.
  function Lookup(ms: seq<Member>, key: string): Option<JsonValue> {
    if ms == [] then None
    else if ms[0].key == key then Some(ms[0].value)
    else Lookup(ms[1..], key)
  }

  // No string value before the key's own member looks like the key.
  predicate Unmistakable(ms: seq<Member>, key: string) {
    ms == [] || ms[0].key == key || (!Mistakable(ms[0].value, key) && Unmistakable(ms[1..], key))
  }

  lemma {:induction false} HitIsLookup(ms: seq<Member>, key: string)
    ensures var h := FirstHit(ms, key);
      if Unmistakable(ms, key) then
        (h == |ms| && Lookup(ms, key) == None)
        || (h < |ms| && ms[h].key == key && Lookup(ms, key) == Some(ms[h].value))
      else h < |ms| && ms[h].key != key && Mistakable(ms[h].value, key)
  {
    if ms != [] && ms[0].key != key && !Mistakable(ms[0].value, key) {
      HitIsLookup(ms[1..], key);
    }
  }

  // The string reader gives the string as it stands between its quotes, and
  // nothing else, if and only if no earlier value is mistaken for the key and
  // there is no quote in it, or there is no such string to be read.
  lemma StringReaderIff(before: string, ms: seq<Member>, inside: string, after: string, key: string)
    requires ObjectOk(before, ms, inside, after) && Identifier(key)
    ensures var text := ObjectText(before, ms, inside, after);
      (match Lookup(ms, key)
       case Some(JStr(s)) =>
         GetStr(text, key).Some? && var (at, len) := GetStr(text, key).value; text[at..at + len] == s
       case _ => GetStr(text, key) == None)
      <==> (match Lookup(ms, key)
            case Some(JStr(s)) => Unmistakable(ms, key) && '"' !in s
            case _ => true)
  {
    hide MemberOk, ObjectText, GetStr, GetInt, Identifier;
    ReadObject(before, ms, inside, after, key);
    HitIsLookup(ms, key);
  }

  // The int reader gives the reference's number if and only if no earlier
  // value is mistaken for the key and the magnitude is below 2^63.
  lemma IntReaderIff(before: string, ms: seq<Member>, inside: string, after: string, key: string)
    requires ObjectOk(before, ms, inside, after) && Identifier(key)
    requires Lookup(ms, key).Some? && Lookup(ms, key).value.JNum? && ValueOk(Lookup(ms, key).value)
    ensures var text, v := ObjectText(before, ms, inside, after), Lookup(ms, key).value;
      (GetInt(text, key).Ok? && GetInt(text, key).value == NumberOf(v))
      <==> (Unmistakable(ms, key) && Value(v.digits) < TWO_63)
  {
    hide MemberOk, ObjectText, GetStr, GetInt, Identifier;
    ReadObject(before, ms, inside, after, key);
    HitIsLookup(ms, key);
  }
}
