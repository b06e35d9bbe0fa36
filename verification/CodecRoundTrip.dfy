// Reading back what was written, exactly when that works; and reading any
// encoding of an event.

module CodecRoundTrip {
  import opened Wrappers
  import opened MachineInt
  import opened Decimal
  import opened JsonReader
  import opened JsonObject
  import opened JsonReading
  import opened JsonGrammar
  import opened JsonParsing
  import opened Codec

  predicate QuoteFree(r: Record) {
    forall i :: 0 <= i < |r| && r[i].StrValue? ==> '"' !in r[i].s
  }

  // Each quote in a string has a backslash in front of it.
  predicate GuardedRecord(r: Record) {
    forall i :: 0 <= i < |r| && r[i].StrValue? ==> Guarded(r[i].s)
  }

  lemma QuoteFreeGuarded(r: Record)
    requires QuoteFree(r)
    ensures GuardedRecord(r)
  {
    forall i | 0 <= i < |r| && r[i].StrValue?
      ensures Guarded(r[i].s)
    {
      KeyResembles(r[i].s, "");
    }
  }

  // The members of such a record form an object as the reader takes it.
  lemma EncodeIsObject(layout: Layout, r: Record)
    requires LayoutOk(layout) && Fits(layout, r) && GuardedRecord(r)
    ensures ObjectOk("", Members(layout, r), "", "")
    ensures forall i :: 0 <= i < |r| && r[i].IntValue? ==> NumberOf(ToJson(r[i])) == r[i].n
  {
    var ms := Members(layout, r);
    forall i | 0 <= i < |ms|
      ensures MemberOk(ms[i])
      ensures r[i].IntValue? ==> NumberOf(ToJson(r[i])) == r[i].n
    {
      assert ms[i] == MemberOf(layout[i].name, r[i]);
      if r[i].StrValue? {
        assert Guarded(r[i].s);
      } else {
        CanonicalDigits(Abs(r[i].n));
      }
    }
  }

  lemma {:induction false} CanonicalDigits(n: nat)
    ensures |Digits(n)| > 1 ==> Digits(n)[0] != '0'
  {
  }

  // ----- the grammar -----

  predicate UnescapedRecord(r: Record) {
    forall i :: 0 <= i < |r| && r[i].StrValue? ==> Unescaped(r[i].s)
  }

  // What a parser should make of a serialised record.
  function RefRecord(layout: Layout, r: Record): (ms: seq<RefMember>)
    requires |r| == |layout|
    ensures |ms| == |r|
  {
    seq(|r|, i requires 0 <= i < |r| =>
      RefMember(Units(layout[i].name), if r[i].StrValue? then RefStr(Units(r[i].s)) else RefNum(Text(r[i].n))))
  }

  // A serialised record is an object of RFC 8259 with the values written, by
  // the reference parser of its object, number and string grammars, if and
  // only if all its strings consist of unescaped characters.
  lemma EncodeParsesIff(layout: Layout, r: Record)
    requires LayoutOk(layout) && Fits(layout, r)
    ensures ParseObject(Encode(layout, r)) == Some(RefRecord(layout, r)) <==> UnescapedRecord(r)
  {
    hide ParseObject, ObjectText, Unescaped, Units, Identifier;
    var ms := Members(layout, r);
    MembersShaped(layout, r);
    MembersRef(layout, r);
    ObjectParsesIff("", ms, "", "");
    if UnescapedRecord(r) {
      forall i | 0 <= i < |ms|
        ensures StrictValue(ms[i].value)
      {
        assert ms[i] == MemberOf(layout[i].name, r[i]);
      }
    }
    if AllStrict(ms) {
      forall i | 0 <= i < |r| && r[i].StrValue?
        ensures Unescaped(r[i].s)
      {
        assert ms[i] == MemberOf(layout[i].name, r[i]) && StrictValue(ms[i].value);
      }
    }
  }

  lemma MembersShaped(layout: Layout, r: Record)
    requires LayoutOk(layout) && Fits(layout, r)
    ensures ObjectShaped("", Members(layout, r), "", "")
  {
    forall i | 0 <= i < |r|
      ensures Shaped(Members(layout, r)[i])
    {
      assert Members(layout, r)[i] == MemberOf(layout[i].name, r[i]);
      if r[i].IntValue? {
        CanonicalDigits(Abs(r[i].n));
      }
    }
  }

  lemma MembersRef(layout: Layout, r: Record)
    requires |r| == |layout|
    ensures RefOf(Members(layout, r)) == RefRecord(layout, r)
  {
    forall i | 0 <= i < |r|
      ensures RefOf(Members(layout, r))[i] == RefRecord(layout, r)[i]
    {
      assert Members(layout, r)[i] == MemberOf(layout[i].name, r[i]);
    }
  }

  // ----- reading back -----

  // With distinct keys a member is found under its key, and is unmistakable
  // exactly if no value before it looks like the key.
  lemma {:induction false} LookupAt(ms: seq<Member>, j: nat)
    requires j < |ms| && forall i :: 0 <= i < j ==> ms[i].key != ms[j].key
    ensures Lookup(ms, ms[j].key) == Some(ms[j].value)
    ensures Unmistakable(ms, ms[j].key) <==> forall i :: 0 <= i < j ==> !Mistakable(ms[i].value, ms[j].key)
  {
    if j > 0 {
      assert ms[1..][j - 1] == ms[j];
      assert ms[0].key != ms[j].key;
      forall i | 0 <= i < j - 1
        ensures ms[1..][i].key != ms[j].key
      {
        assert ms[1..][i] == ms[i + 1];
      }
      LookupAt(ms[1..], j - 1);
      if Unmistakable(ms, ms[j].key) {
        forall i | 0 <= i < j
          ensures !Mistakable(ms[i].value, ms[j].key)
        {
          if i > 0 {
            assert ms[i] == ms[1..][i - 1];
          }
        }
      }
      if forall i :: 0 <= i < j ==> !Mistakable(ms[i].value, ms[j].key) {
        forall i | 0 <= i < j - 1
          ensures !Mistakable(ms[1..][i].value, ms[j].key)
        {
          assert ms[1..][i] == ms[i + 1];
        }
      }
    }
  }

  // What can be read back at field j, given that all quotes are guarded.
  predicate FieldReadable(layout: Layout, r: Record, j: nat)
    requires |r| == |layout| && j < |r|
  {
    && r[j] != IntValue(-TWO_63) && (r[j].StrValue? ==> '"' !in r[j].s)
    && forall i :: 0 <= i < j ==> !(r[i].StrValue? && Resembles(r[i].s, layout[j].name))
  }

  // Without quotes in strings, only a string equal to the name looks like it.
  lemma QuoteFreeReadable(layout: Layout, r: Record, j: nat)
    requires |r| == |layout| && j < |r| && QuoteFree(r)
    ensures FieldReadable(layout, r, j) <==>
      r[j] != IntValue(-TWO_63) && forall i :: 0 <= i < j ==> r[i] != StrValue(layout[j].name)
  {
    forall i | 0 <= i < j
      ensures r[i].StrValue? && Resembles(r[i].s, layout[j].name) <==> r[i] == StrValue(layout[j].name)
    {
      if r[i].StrValue? {
        KeyResembles(r[i].s, layout[j].name);
      }
    }
  }

  // Field by field, in any order: a field of a serialised record whose quotes
  // all have a backslash in front is read back as written if and only if it has
  // no quote and is not INT64_MIN, and no string written before it looks like
  // its name.
  lemma FieldRoundTripIff(layout: Layout, r: Record, j: nat)
    requires LayoutOk(layout) && Fits(layout, r) && GuardedRecord(r) && j < |r|
    ensures DecodeField(layout[j], Encode(layout, r)) == Ok(Got(r[j])) <==> FieldReadable(layout, r, j)
  {
    hide ObjectText, MemberOk, GetStr, GetInt, Identifier, Digits, Lookup, Unmistakable, FirstHit;
    var ms, key := Members(layout, r), layout[j].name;
    EncodeIsObject(layout, r);
    ReadObject("", ms, "", "", key);
    HitIsLookup(ms, key);
    UnmistakableAt(layout, r, j);
    assert ms[j].value == ToJson(r[j]);
  }

  lemma UnmistakableAt(layout: Layout, r: Record, j: nat)
    requires LayoutOk(layout) && |r| == |layout| && j < |r|
    ensures var ms, key := Members(layout, r), layout[j].name;
      && Lookup(ms, key) == Some(ms[j].value)
      && (Unmistakable(ms, key) <==> forall i :: 0 <= i < j ==> !(r[i].StrValue? && Resembles(r[i].s, key)))
  {
    hide Identifier, Digits, Lookup, Unmistakable;
    var ms, key := Members(layout, r), layout[j].name;
    assert forall i :: 0 <= i < |ms| ==> ms[i] == MemberOf(layout[i].name, r[i]);
    LookupAt(ms, j);
    forall i | 0 <= i < j
      ensures Mistakable(ms[i].value, key) <==> r[i].StrValue? && Resembles(r[i].s, key)
    {
      assert ms[i] == MemberOf(layout[i].name, r[i]);
    }
  }

  // The reader never yields a quote, nor INT64_MIN.
  lemma DecodedRange(f: FieldDecl, text: string)
    ensures var v := DecodeField(f, text);
      v.Ok? && v.value.Got? ==>
        && v.value.value != IntValue(-TWO_63)
        && (v.value.value.StrValue? ==> '"' !in v.value.value.s)
  {
  }

  // The exact condition on a record for reading back what was written.
  predicate Readable(layout: Layout, r: Record)
    requires |r| == |layout|
  {
    && QuoteFree(r)
    && (forall j :: 0 <= j < |r| ==> r[j] != IntValue(-TWO_63))
    && forall i, j :: 0 <= i < j < |r| ==> r[i] != StrValue(layout[j].name)
  }

  // Deserialising a serialised record gives the record back if and only if its
  // strings have no quotes, none of them equals the name of a later field, and
  // no int is INT64_MIN.
  lemma RoundTripIff(layout: Layout, r: Record)
    requires LayoutOk(layout) && Fits(layout, r)
    ensures Decode(layout, Encode(layout, r)) == Ok(Whole(r)) <==> Readable(layout, r)
  {
    hide DecodeField, Decode, Encode, LayoutOk, FieldReadable;
    var text := Encode(layout, r);
    DecodeAll(layout, text, r);
    if Decode(layout, text) == Ok(Whole(r)) {
      forall i | 0 <= i < |r|
        ensures r[i].StrValue? ==> '"' !in r[i].s
      {
        assert DecodeField(layout[i], text) == Ok(Got(r[i]));
        DecodedRange(layout[i], text);
      }
    }
    if QuoteFree(r) {
      QuoteFreeGuarded(r);
      forall j | 0 <= j < |r|
        ensures DecodeField(layout[j], text) == Ok(Got(r[j])) <==> FieldReadable(layout, r, j)
      {
        FieldRoundTripIff(layout, r, j);
      }
      forall j | 0 <= j < |r|
        ensures FieldReadable(layout, r, j) <==>
          r[j] != IntValue(-TWO_63) && forall i :: 0 <= i < j ==> r[i] != StrValue(layout[j].name)
      {
        QuoteFreeReadable(layout, r, j);
      }
    }
  }

  // A string equal to a later field's name is not read back as anything else:
  // the later field is unset if it is a string, and the reader exits if not.
  lemma MistakenFieldFails(layout: Layout, r: Record, i: nat, j: nat)
    requires LayoutOk(layout) && Fits(layout, r) && QuoteFree(r)
    requires i < j < |r| && r[i] == StrValue(layout[j].name)
    ensures DecodeField(layout[j], Encode(layout, r)) ==
      if layout[j].kind.StrKind? then Ok(Unset) else Err(BadInt(layout[j].name, NoColon))
  {
    hide ObjectText, MemberOk, GetStr, GetInt, Identifier, Digits, Lookup, Unmistakable;
    var ms, key := Members(layout, r), layout[j].name;
    QuoteFreeGuarded(r);
    EncodeIsObject(layout, r);
    ReadObject("", ms, "", "", key);
    HitIsLookup(ms, key);
    assert forall k :: 0 <= k < |ms| ==> ms[k] == MemberOf(layout[k].name, r[k]);
    LookupAt(ms, j);
    assert ms[i].value == JStr(key);
    KeyResembles(key, key);
  }

  // ----- any encoding of an event -----

  predicate Denotes(v: Option<JsonValue>, f: FieldValue) {
    match (v, f)
    case (Some(JStr(s)), StrValue(t)) => s == t && '"' !in s
    case (Some(JNum(neg, digits)), IntValue(n)) =>
      ValueOk(v.value) && NumberOf(v.value) == n && n != -TWO_63
    case _ => false
  }

  // An object, with white space, in any order and possibly with further
  // members, whose values under the layout's names denote the record.
  predicate EncodesEvent(before: string, ms: seq<Member>, inside: string, after: string, layout: Layout, r: Record) {
    && ObjectOk(before, ms, inside, after) && LayoutOk(layout) && Fits(layout, r)
    && forall j :: 0 <= j < |r| ==>
         Unmistakable(ms, layout[j].name) && Denotes(Lookup(ms, layout[j].name), r[j])
  }

  lemma DecodeEvent(before: string, ms: seq<Member>, inside: string, after: string, layout: Layout, r: Record)
    requires EncodesEvent(before, ms, inside, after, layout, r)
    ensures Decode(layout, ObjectText(before, ms, inside, after)) == Ok(Whole(r))
  {
    hide ObjectText, ObjectOk, MemberOk, GetStr, GetInt, Identifier, Decode, Lookup, Unmistakable, FirstHit;
    var text := ObjectText(before, ms, inside, after);
    DecodeAll(layout, text, r);
    forall j | 0 <= j < |r|
      ensures DecodeField(layout[j], text) == Ok(Got(r[j]))
    {
      ReadObject(before, ms, inside, after, layout[j].name);
      HitIsLookup(ms, layout[j].name);
    }
  }

  // From one generated program to the next: if the handler's response is
  // readable, the entry point turns any encoding of an event into the text of
  // the response, and a reader with the response layout gets the response.
  lemma HandleComposes(before: string, ms: seq<Member>, inside: string, after: string,
                       eventLayout: Layout, responseLayout: Layout, e: Record, handle: Event -> Record)
    requires EncodesEvent(before, ms, inside, after, eventLayout, e)
    requires LayoutOk(responseLayout) && Fits(responseLayout, handle(Whole(e)))
    requires Readable(responseLayout, handle(Whole(e)))
    ensures Decode(eventLayout, ObjectText(before, ms, inside, after)) == Ok(Whole(e))
    ensures Decode(responseLayout, Encode(responseLayout, handle(Whole(e)))) == Ok(Whole(handle(Whole(e))))
  {
    hide Decode, Encode, EncodesEvent, Readable, ObjectText;
    DecodeEvent(before, ms, inside, after, eventLayout, e);
    RoundTripIff(responseLayout, handle(Whole(e)));
  }

  // ----- the exact length -----

  function FieldLength(f: FieldDecl, v: FieldValue): nat {
    |f.name| + 3 + |JsonText(v)|
  }

  function TotalLength(layout: Layout, r: Record): nat
    requires |r| == |layout|
  {
    if r == [] then 0
    else TotalLength(layout[..|r| - 1], r[..|r| - 1]) + FieldLength(layout[|r| - 1], r[|r| - 1])
  }

  // Two braces, a comma between fields, and the fields: quotes and colon, the
  // name and the value.
  lemma {:induction false} EncodeExactLength(layout: Layout, r: Record)
    requires |r| == |layout|
    ensures |Encode(layout, r)| == 2 + (if |r| == 0 then 0 else |r| - 1) + TotalLength(layout, r)
  {
    hide Encode, Members, Body, JsonText;
    var n := |r|;
    if n == 0 {
      EmptyEncoding(layout, r);
    } else {
      EncodeExactLength(layout[..n - 1], r[..n - 1]);
      LastFieldLength(layout, r);
    }
  }

  lemma EmptyEncoding(layout: Layout, r: Record)
    requires |r| == |layout| == 0
    ensures |Encode(layout, r)| == 2
  {
    EncodeLength(layout, r);
  }

  // What the last field adds to the length.
  lemma LastFieldLength(layout: Layout, r: Record)
    requires |r| == |layout| > 0
    ensures var n := |r| - 1;
      |Encode(layout, r)| == |Encode(layout[..n], r[..n])| + (if n > 0 then 1 else 0) + FieldLength(layout[n], r[n])
  {
    hide Body, JsonText, Encode;
    var n, ms := |r| - 1, Members(layout, r);
    EncodeLength(layout, r);
    EncodeLength(layout[..n], r[..n]);
    assert ms[..n] == Members(layout[..n], r[..n]) && ms[..n + 1] == ms;
    EncodeStep(layout, r, n);
    NonEmptyBody(ms[..n]);
  }
}
