// The code generated for lambpie_handle: read each field of the event by name,
// call the handler, write each field of the response in order.

module Codec {
  import opened Wrappers
  import opened MachineInt
  import opened Decimal
  import opened JsonReader
  import opened JsonObject
  import opened JsonWriter

  // A class as the compiler lays it out, its reference count left out.
  datatype Kind = StrKind | IntKind

  datatype FieldDecl = FieldDecl(name: string, kind: Kind)

  type Layout = seq<FieldDecl>

  datatype FieldValue = StrValue(s: string) | IntValue(n: Int64)

  type Record = seq<FieldValue>

  // A field of an event.  Unset is a string that was not found: its pointer is
  // null and its length was never written.
  datatype Received = Got(value: FieldValue) | Unset

  type Event = seq<Received>

  // An event with all its fields.
  function Whole(r: Record): (e: Event)
    ensures |e| == |r|
  {
    seq(|r|, i requires 0 <= i < |r| => Got(r[i]))
  }

  predicate LayoutOk(layout: Layout) {
    && (forall i :: 0 <= i < |layout| ==> Identifier(layout[i].name))
    && forall i, j :: 0 <= i < j < |layout| ==> layout[i].name != layout[j].name
  }

  predicate Fits(layout: Layout, r: Record) {
    |r| == |layout| && forall i :: 0 <= i < |r| ==> (r[i].StrValue? <==> layout[i].kind.StrKind?)
  }

  // ----- writing -----

  function ToJson(v: FieldValue): JsonValue {
    match v
    case StrValue(s) => JStr(s)
    case IntValue(n) => JNum(n < 0, Digits(Abs(n)))
  }

  function MemberOf(name: string, v: FieldValue): Member {
    Member("", name, "", "", ToJson(v), "")
  }

  function Members(layout: Layout, r: Record): (ms: seq<Member>)
    requires |r| == |layout|
    ensures |ms| == |r|
  {
    seq(|r|, i requires 0 <= i < |r| => MemberOf(layout[i].name, r[i]))
  }

  // The serialised record: an object without white space.
  function Encode(layout: Layout, r: Record): string
    requires |r| == |layout|
  {
    ObjectText("", Members(layout, r), "", "")
  }

  function JsonText(v: FieldValue): string {
    match v
    case StrValue(s) => Quoted(s)
    case IntValue(n) => Text(n)
  }

  lemma MemberTextIs(name: string, v: FieldValue)
    ensures MemberText(MemberOf(name, v)) == Quoted(name) + ":" + JsonText(v)
  {
    hide Quoted, Digits, Abs, JsonText;
    var m := MemberOf(name, v);
    NoWhiteSpace(Quoted(name), JsonText(v));
    assert ValueText(m.value) == JsonText(v) by {
      ToJsonText(v);
    }
  }

  lemma ToJsonText(v: FieldValue)
    ensures ValueText(ToJson(v)) == JsonText(v)
  {
  }

  lemma NoWhiteSpace(key: string, value: string)
    ensures "" + key + "" + ":" + "" + value + "" == key + ":" + value
  {
  }

  // A body grows at its end by a comma, unless it was empty, and a member.
  lemma {:induction false} BodySnoc(ms: seq<Member>, m: Member)
    ensures Body(ms + [m]) == Body(ms) + (if ms == [] then "" else ",") + MemberText(m)
  {
    if ms == [] {
      assert ms + [m] == [m];
    } else {
      assert (ms + [m])[1..] == ms[1..] + [m];
      BodySnoc(ms[1..], m);
      if |ms| == 1 {
        assert Body(ms[1..]) == "";
      } else {
        Reassociate(MemberText(ms[0]), Body(ms[1..]), MemberText(m));
      }
    }
  }

  lemma Reassociate(a: string, b: string, c: string)
    ensures a + "," + (b + "," + c) == a + "," + b + "," + c
  {
  }

  // One more field in the buffer: the comma test on the position is the test
  // for the first field.
  lemma EncodeStep(layout: Layout, r: Record, i: nat)
    requires |r| == |layout| && i < |r|
    ensures var so, on := "{" + Body(Members(layout, r)[..i]), "{" + Body(Members(layout, r)[..i + 1]);
      on == so + FieldText(|so|, layout[i].name, JsonText(r[i]))
  {
    hide Body, MemberText, MemberOf, JsonText, Quoted;
    var ms := Members(layout, r);
    assert ms[..i + 1] == ms[..i] + [ms[i]];
    BodySnoc(ms[..i], ms[i]);
    MemberTextIs(layout[i].name, r[i]);
    NonEmptyBody(ms[..i]);
    Braced(Body(ms[..i]), if i == 0 then "" else ",", Quoted(layout[i].name), JsonText(r[i]));
  }

  lemma Braced(body: string, comma: string, key: string, value: string)
    ensures "{" + (body + comma + (key + ":" + value)) == "{" + body + (comma + key + ":" + value)
  {
  }

  lemma NonEmptyBody(ms: seq<Member>)
    ensures ms == [] <==> Body(ms) == ""
  {
    if ms != [] {
      assert |MemberText(ms[0])| > 0;
    }
  }

  lemma {:induction false} BodyPrefix(ms: seq<Member>, i: nat)
    requires i <= |ms|
    ensures |Body(ms[..i])| <= |Body(ms)|
    decreases |ms| - i
  {
    if i < |ms| {
      assert ms[..i + 1] == ms[..i] + [ms[i]];
      BodySnoc(ms[..i], ms[i]);
      BodyPrefix(ms, i + 1);
    } else {
      assert ms[..i] == ms;
    }
  }

  method WriteField(buf: array<char>, pos: nat, name: string, v: FieldValue) returns (next: nat)
    requires pos + |FieldText(pos, name, JsonText(v))| <= buf.Length
    modifies buf
    ensures next == pos + |FieldText(pos, name, JsonText(v))|
    ensures Wrote(old(buf[..]), buf[..], pos, FieldText(pos, name, JsonText(v)))
  {
    match v {
      case StrValue(s) =>
        next := JsonWriteStr(buf, pos, name, s);
      case IntValue(n) =>
        next := JsonWriteInt(buf, pos, name, n);
    }
  }

  // Serialises a record.  All writes stay in the buffer if the encoding fits;
  // the position returned is its exact length.
  method WriteRecord(layout: Layout, r: Record, buf: array<char>) returns (pos: nat)
    requires |r| == |layout| && |Encode(layout, r)| <= buf.Length
    modifies buf
    ensures pos == |Encode(layout, r)|
    ensures buf[..pos] == Encode(layout, r) && buf[pos..] == old(buf[pos..])
  {
    hide Body, FieldText, Members, Wrote, Encode, JsonText;
    ghost var ms, b0 := Members(layout, r), buf[..];
    assert ms[..0] == [] && ms[..|r|] == ms;
    EmptyBody("x");
    assert "{" + Body(ms[..0]) == "{";
    EncodeLength(layout, r);
    pos := JsonOpen(buf, 0);
    var i := 0;
    while i < |r|
      invariant 0 <= i <= |r|
      invariant pos == |"{" + Body(ms[..i])| && Wrote(b0, buf[..], 0, "{" + Body(ms[..i]))
    {
      ghost var b1, so := buf[..], "{" + Body(ms[..i]);
      EncodeStep(layout, r, i);
      BodyPrefix(ms, i + 1);
      pos := WriteField(buf, pos, layout[i].name, r[i]);
      WroteThen(b0, b1, buf[..], 0, so, FieldText(|so|, layout[i].name, JsonText(r[i])));
      i := i + 1;
    }
    ghost var b2 := buf[..];
    pos := JsonClose(buf, pos);
    WroteThen(b0, b2, buf[..], 0, "{" + Body(ms), "}");
    WroteAll(b0, buf[..], Encode(layout, r));
  }

  lemma WroteAll(before: seq<char>, after: seq<char>, text: string)
    requires Wrote(before, after, 0, text)
    ensures |before| == |after| && |text| <= |after|
    ensures after[..|text|] == text && after[|text|..] == before[|text|..]
  {
  }

  lemma EncodeLength(layout: Layout, r: Record)
    requires |r| == |layout|
    ensures Encode(layout, r) == "{" + Body(Members(layout, r)) + "}"
  {
    hide Body;
    Bare(Body(Members(layout, r)));
  }

  lemma Bare(body: string)
    ensures "" + "{" + body + "" + "}" + "" == "{" + body + "}"
  {
  }

  // ----- reading -----

  // The int reader exits where it finds no number.
  datatype DecodeError = BadInt(name: string, why: IntError)

  function DecodeField(f: FieldDecl, text: string): Result<Received, DecodeError> {
    match f.kind
    case StrKind =>
      var s := GetStr(text, f.name);
      Ok(if s.None? then Unset else Got(StrValue(text[s.value.0..s.value.0 + s.value.1])))
    case IntKind =>
      var n := GetInt(text, f.name);
      if n.Err? then Err(BadInt(f.name, n.error)) else Ok(Got(IntValue(n.value)))
  }

  function Decode(layout: Layout, text: string): Result<Event, DecodeError> {
    if layout == [] then Ok([])
    else
      var first :- DecodeField(layout[0], text);
      var rest :- Decode(layout[1..], text);
      Ok([first] + rest)
  }

  method ReadRecord(layout: Layout, text: string) returns (r: Result<Event, DecodeError>)
    ensures r == Decode(layout, text)
  {
    hide GetStr, GetInt;
    var record: Event := [];
    var i := 0;
    GlueNothing(Decode(layout, text));
    assert layout[0..] == layout;
    while i < |layout|
      invariant 0 <= i <= |layout|
      invariant Decode(layout, text) == Glue(record, Decode(layout[i..], text))
    {
      assert layout[i..][1..] == layout[i + 1..];
      GlueStep(record, layout[i..], text);
      match layout[i].kind {
        case StrKind =>
          var s := JsonGetStr(text, layout[i].name);
          record := record +
            [if s.None? then Unset else Got(StrValue(text[s.value.0..s.value.0 + s.value.1]))];
        case IntKind =>
          var n := JsonGetInt(text, layout[i].name);
          if n.Err? {
            return Err(BadInt(layout[i].name, n.error));
          }
          record := record + [Got(IntValue(n.value))];
      }
      i := i + 1;
    }
    assert record + [] == record;
    return Ok(record);
  }

  // An event under construction and what is still to be read.
  function Glue(done: Event, rest: Result<Event, DecodeError>): Result<Event, DecodeError> {
    if rest.Ok? then Ok(done + rest.value) else rest
  }

  lemma GlueNothing(rest: Result<Event, DecodeError>)
    ensures Glue([], rest) == rest
  {
    if rest.Ok? {
      assert [] + rest.value == rest.value;
    }
  }

  lemma GlueStep(done: Event, layout: Layout, text: string)
    requires layout != []
    ensures var f := DecodeField(layout[0], text);
      Glue(done, Decode(layout, text)) ==
        if f.Err? then Err(f.error) else Glue(done + [f.value], Decode(layout[1..], text))
  {
    hide DecodeField;
    var rest := Decode(layout[1..], text);
    var f := DecodeField(layout[0], text);
    if f.Ok? && rest.Ok? {
      assert done + ([f.value] + rest.value) == done + [f.value] + rest.value;
    }
  }

  lemma {:induction false} DecodeAll(layout: Layout, text: string, r: Record)
    requires |r| == |layout|
    ensures Decode(layout, text) == Ok(Whole(r))
       <==> forall i :: 0 <= i < |r| ==> DecodeField(layout[i], text) == Ok(Got(r[i]))
  {
    hide DecodeField, Whole;
    if layout == [] {
      assert Whole(r) == [];
    } else {
      DecodeAll(layout[1..], text, r[1..]);
      DecodeCons(layout, text, r);
      if forall i :: 0 <= i < |r| ==> DecodeField(layout[i], text) == Ok(Got(r[i])) {
        assert forall i :: 0 <= i < |r[1..]| ==> layout[1..][i] == layout[i + 1] && r[1..][i] == r[i + 1];
      }
      if DecodeField(layout[0], text) == Ok(Got(r[0])) && Decode(layout[1..], text) == Ok(Whole(r[1..])) {
        forall i | 0 <= i < |r|
          ensures DecodeField(layout[i], text) == Ok(Got(r[i]))
        {
          assert i > 0 ==> layout[i] == layout[1..][i - 1] && r[i] == r[1..][i - 1];
        }
      }
    }
  }

  lemma DecodeCons(layout: Layout, text: string, r: Record)
    requires |r| == |layout| > 0
    ensures Decode(layout, text) == Ok(Whole(r))
       <==> DecodeField(layout[0], text) == Ok(Got(r[0])) && Decode(layout[1..], text) == Ok(Whole(r[1..]))
  {
    hide DecodeField;
    assert Whole(r) == [Got(r[0])] + Whole(r[1..]) && Whole(r)[1..] == Whole(r[1..]);
    if Decode(layout, text).Ok? {
      assert Decode(layout, text).value[1..] == Decode(layout[1..], text).value;
    }
  }

  // ----- the generated entry point -----

  // Reads the event, calls the handler and writes its response.  The buffer's
  // capacity is not checked: it is the caller's to provide.
  method LambpieHandle(eventLayout: Layout, responseLayout: Layout, event: string,
                       handle: Event -> Record, buf: array<char>)
    returns (r: Result<nat, DecodeError>)
    requires var e := Decode(eventLayout, event);
      e.Ok? ==> (&& |handle(e.value)| == |responseLayout|
                 && |Encode(responseLayout, handle(e.value))| <= buf.Length)
    modifies buf
    ensures match Decode(eventLayout, event)
      case Ok(e) =>
        var text := Encode(responseLayout, handle(e));
        r == Ok(|text|) && buf[..|text|] == text && buf[|text|..] == old(buf[|text|..])
      case Err(why) => r == Err(why) && buf[..] == old(buf[..])
  {
    var e := ReadRecord(eventLayout, event);
    if e.Err? {
      return Err(e.error);
    }
    var pos := WriteRecord(responseLayout, handle(e.value), buf);
    return Ok(pos);
  }
}
