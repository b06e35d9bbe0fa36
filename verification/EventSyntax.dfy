// What the generated entry point takes an event for, whatever its text is:
// field by field, from what stands behind the field's name.

module EventSyntax {
  import opened Wrappers
  import opened Decimal
  import opened JsonReader
  import opened JsonSyntax
  import opened Codec

  ghost predicate StrStands(text: string, name: string, s: string) {
    exists v: nat :: ValueAt(text, name, v) && QuotedText(text, v, s)
  }

  ghost predicate IntStands(text: string, name: string, n: int) {
    exists minus, digits ::
      && IntAt(text, name, minus, digits) && Value(digits) < 0x8000_0000_0000_0000
      && n == if minus then 0 - Value(digits) else Value(digits)
  }

  // A string field has the text in quotes behind its name, and is unset if
  // there is none; an int field has the number there.
  ghost predicate FieldSays(f: FieldDecl, text: string, r: Received) {
    match f.kind
    case StrKind =>
      if r.Unset? then forall s :: !StrStands(text, f.name, s)
      else r.value.StrValue? && StrStands(text, f.name, r.value.s)
    case IntKind => r.Got? && r.value.IntValue? && IntStands(text, f.name, r.value.n)
  }

  lemma QuotedUnique(text: string, v: nat, s: string)
    requires QuotedText(text, v, s)
    ensures v + 1 + |s| <= |text| && s == text[v + 1..v + 1 + |s|]
  {
    var q := "\"" + s + "\"";
    forall i | 0 <= i < |s|
      ensures text[v + 1..v + 1 + |s|][i] == s[i]
    {
      assert text[v + (i + 1)] == q[i + 1];
    }
  }

  lemma StrFieldSays(f: FieldDecl, text: string)
    requires f.kind.StrKind?
    ensures DecodeField(f, text).Ok? && FieldSays(f, text, DecodeField(f, text).value)
  {
    hide ValueAt, QuotedText, GetStr;
    var got := GetStr(text, f.name);
    if got.Some? {
      var (start, len) := got.value;
      StrReadIff(text, f.name, start, len);
      assert StrStands(text, f.name, text[start..start + len]);
    } else {
      forall v: nat, s | ValueAt(text, f.name, v) && QuotedText(text, v, s)
        ensures false
      {
        QuotedUnique(text, v, s);
        StrReadIff(text, f.name, v + 1, |s|);
      }
    }
  }

  lemma IntStandsIs(text: string, name: string, n: int)
    ensures IntStands(text, name, n) <==>
      -0x8000_0000_0000_0000 < n < 0x8000_0000_0000_0000 && GetInt(text, name) == Ok(n)
  {
    hide IntAt, GetInt, Value;
    IntReadIff(text, name);
  }

  lemma IntFieldSays(f: FieldDecl, text: string)
    requires f.kind.IntKind?
    ensures match DecodeField(f, text)
      case Ok(r) => FieldSays(f, text, r)
      case Err(BadInt(name, _)) => name == f.name && forall n :: !IntStands(text, f.name, n)
  {
    hide GetInt, IntStands;
    forall n
      ensures IntStands(text, f.name, n) <==>
        -0x8000_0000_0000_0000 < n < 0x8000_0000_0000_0000 && GetInt(text, f.name) == Ok(n)
    {
      IntStandsIs(text, f.name, n);
    }
    NeverLeast(text, f.name);
  }

  // The reader accumulates the digits before it applies the sign.
  lemma NeverLeast(text: string, name: string)
    ensures GetInt(text, name).Ok? ==> GetInt(text, name).value > -0x8000_0000_0000_0000
  {
  }

  // For every text: the event has a field for each of the layout, and each says
  // what the text says; or an int field, and none before it, has no number of
  // 64 bits.
  lemma {:induction false} EventRead(layout: Layout, text: string)
    ensures match Decode(layout, text)
      case Ok(e) => |e| == |layout| && forall i :: 0 <= i < |layout| ==> FieldSays(layout[i], text, e[i])
      case Err(e) => SomeBad(layout, text, e.name)
  {
    hide DecodeField, FieldSays, FirstBad;
    if layout != [] {
      if layout[0].kind.StrKind? {
        StrFieldSays(layout[0], text);
      } else {
        IntFieldSays(layout[0], text);
      }
      EventRead(layout[1..], text);
      var rest := Decode(layout[1..], text);
      var first := DecodeField(layout[0], text);
      if first.Err? {
        FirstIsBad(layout, text);
      } else if rest.Err? {
        BadLater(layout, text, rest.error.name, first.value);
      } else {
        assert forall i :: 0 < i < |layout| ==> layout[i] == layout[1..][i - 1];
      }
    }
  }

  ghost predicate FirstBad(layout: Layout, text: string, i: nat, name: string)
    requires i < |layout|
  {
    && layout[i].name == name && layout[i].kind.IntKind? && (forall n :: !IntStands(text, name, n))
    && forall j :: 0 <= j < i && layout[j].kind.IntKind? ==> exists n :: IntStands(text, layout[j].name, n)
  }

  lemma FirstIsBad(layout: Layout, text: string)
    requires layout != [] && layout[0].kind.IntKind? && forall n :: !IntStands(text, layout[0].name, n)
    ensures SomeBad(layout, text, layout[0].name)
  {
    assert FirstBad(layout, text, 0, layout[0].name);
  }

  ghost predicate SomeBad(layout: Layout, text: string, name: string) {
    exists i :: 0 <= i < |layout| && FirstBad(layout, text, i, name)
  }

  lemma BadLater(layout: Layout, text: string, name: string, first: Received)
    requires layout != [] && SomeBad(layout[1..], text, name) && FieldSays(layout[0], text, first)
    ensures SomeBad(layout, text, name)
  {
    hide IntStands, StrStands;
    var i :| 0 <= i < |layout| - 1 && FirstBad(layout[1..], text, i, name);
    forall j | 0 <= j < i + 1 && layout[j].kind.IntKind?
      ensures exists n :: IntStands(text, layout[j].name, n)
    {
      if j > 0 {
        assert layout[j] == layout[1..][j - 1];
      } else {
        assert IntStands(text, layout[0].name, first.value.n);
      }
    }
    assert layout[1..][i] == layout[i + 1];
    assert FirstBad(layout, text, i + 1, name);
  }
}
