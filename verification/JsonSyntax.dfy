// What the reader accepts, read off any text at all: the first quoted key, the
// colon, and the value behind it.

module JsonSyntax {
  import opened Wrappers
  import opened MachineInt
  import opened Decimal
  import opened JsonReader
  import opened JsonObject
  import opened JsonReading

  predicate Blank(w: string) {
    forall i :: 0 <= i < |w| ==> w[i] == ' ' || w[i] == '\t' || w[i] == '\r' || w[i] == '\n'
  }

  // The key in quotes stands at k, and nowhere before.
  predicate FirstKey(json: string, key: string, k: nat) {
    && key != "" && At(json, k, "\"" + key + "\"")
    && forall j: nat :: j < k ==> !At(json, j, "\"" + key + "\"")
  }

  // Behind the first key come a colon, with white space around it, and v.
  predicate Leads(json: string, key: string, k: nat, w1: string, w2: string, v: nat) {
    && FirstKey(json, key, k) && Blank(w1) && Blank(w2)
    && At(json, k, "\"" + key + "\"" + w1 + ":" + w2) && v == k + |key| + 2 + |w1| + 1 + |w2|
    && (v < |json| ==> !Blank([json[v]]))
  }

  ghost predicate ValueAt(json: string, key: string, v: nat) {
    exists k: nat, w1, w2 :: Leads(json, key, k, w1, w2, v)
  }

  // An optional minus and all the digits behind it, at least one.
  predicate Number(json: string, v: nat, minus: bool, digits: string) {
    && digits != "" && AllDigits(digits)
    && At(json, v, (if minus then "-" else "") + digits)
    && var end := v + (if minus then 1 else 0) + |digits|;
       end < |json| ==> !('0' <= json[end] <= '9')
  }

  // A quote, the text up to the next one, and that.
  predicate QuotedText(json: string, v: nat, text: string) {
    '"' !in text && At(json, v, "\"" + text + "\"")
  }

  // ----- keys -----

  lemma QuotedKey(json: string, key: string, i: nat)
    ensures At(json, i, "\"" + key + "\"") <==> MatchAt(json, key, i)
  {
    var q := "\"" + key + "\"";
    MatchAtChars(json, key, i);
    if MatchAt(json, key, i) {
      forall k | 0 <= k < |q|
        ensures json[i + k] == q[k]
      {
        if 0 < k <= |key| {
          assert json[i + 1 + (k - 1)] == key[k - 1];
        }
      }
    }
    if At(json, i, q) {
      assert json[i + 0] == q[0] && json[i + (|key| + 1)] == q[|key| + 1];
      forall k | 0 <= k < |key|
        ensures json[i + 1..i + 1 + |key|][k] == key[k]
      {
        assert json[i + (k + 1)] == q[k + 1];
      }
    }
  }

  lemma KeyFound(json: string, key: string)
    ensures FindKey(json, key) <= |json|
    ensures FindKey(json, key) < |json| <==> exists k: nat :: FirstKey(json, key, k)
    ensures forall k: nat :: FirstKey(json, key, k) <==> FindKey(json, key) == k < |json|
  {
    hide At;
    forall i: nat
      ensures At(json, i, "\"" + key + "\"") <==> MatchAt(json, key, i)
    {
      QuotedKey(json, key, i);
    }
    assert FindKey(json, key) < |json| ==> FirstKey(json, key, FindKey(json, key));
  }

  // ----- the way to the value -----

  lemma BlankIs(w: string)
    ensures Blank(w) <==> AllWs(w)
  {
  }

  lemma {:induction false} SkippedBlank(json: string, pos: nat)
    requires pos <= |json|
    ensures var p := SkipWs(json, pos);
      Blank(json[pos..p]) && (p < |json| ==> !Blank([json[p]]))
    decreases |json| - pos
  {
    if pos < |json| && IsWs(json[pos]) {
      SkippedBlank(json, pos + 1);
      var p := SkipWs(json, pos);
      assert json[pos..p] == [json[pos]] + json[pos + 1..p];
    } else if pos < |json| {
      assert [json[pos]][0] == json[pos];
    }
  }

  lemma Pieces(json: string, key: string, k: nat, w1: string, w2: string)
    ensures At(json, k, "\"" + key + "\"" + w1 + ":" + w2) <==>
      && At(json, k, "\"" + key + "\"") && At(json, k + |key| + 2, w1)
      && At(json, k + |key| + 2 + |w1|, ":") && At(json, k + |key| + 2 + |w1| + 1, w2)
  {
    hide At;
    var q := "\"" + key + "\"";
    AtSplit(json, k, q + w1 + ":", w2);
    AtSplit(json, k, q + w1, ":");
    AtSplit(json, k, q, w1);
  }

  lemma SliceAt(json: string, i: nat, j: nat)
    requires i <= j <= |json|
    ensures At(json, i, json[i..j])
  {
  }

  lemma ColonAt(json: string, p: nat)
    ensures At(json, p, ":") <==> p < |json| && json[p] == ':'
  {
    if p < |json| && json[p] == ':' {
      assert json[p + 0] == ":"[0];
    }
    if At(json, p, ":") {
      assert json[p + 0] == ":"[0];
    }
  }

  // White space in front of something else is what is skipped.
  lemma SkipsBlank(json: string, pos: nat, w: string)
    requires At(json, pos, w) && Blank(w) && (pos + |w| < |json| ==> !Blank([json[pos + |w|]]))
    ensures SkipWs(json, pos) == pos + |w|
  {
    BlankIs(w);
    if pos + |w| < |json| {
      BlankIs([json[pos + |w|]]);
    }
    SkipWsRun(json, pos, w);
  }

  // The reader goes to the value of the first key, if there is one.
  lemma ValueStartIff(json: string, key: string)
    ensures ValueStart(json, key).Some? ==> ValueAt(json, key, ValueStart(json, key).value)
    ensures forall v: nat :: ValueAt(json, key, v) <==> ValueStart(json, key) == Some(v)
  {
    hide At, FindKey, Blank, FirstKey;
    KeyFound(json, key);
    if ValueStart(json, key).Some? {
      ValueReached(json, key);
    }
    forall k: nat, w1, w2, v: nat | Leads(json, key, k, w1, w2, v)
      ensures ValueStart(json, key) == Some(v)
    {
      Pieces(json, key, k, w1, w2);
      var p := k + |key| + 2 + |w1|;
      ColonAt(json, p);
      ColonNotBlank();
      SkipsBlank(json, k + |key| + 2, w1);
      SkipsBlank(json, p + 1, w2);
    }
  }

  lemma ColonNotBlank()
    ensures !Blank([':'])
  {
    assert [':'][0] == ':';
  }

  lemma ValueReached(json: string, key: string)
    requires ValueStart(json, key).Some?
    ensures ValueAt(json, key, ValueStart(json, key).value)
  {
    hide At, Blank, FirstKey;
    KeyFound(json, key);
    var k, v := FindKey(json, key), ValueStart(json, key).value;
    var c := k + |key| + 2;
    var p := SkipWs(json, c);
    KeyFits(json, key, k);
    SkippedBlank(json, c);
    SkippedBlank(json, p + 1);
    SliceAt(json, c, p);
    SliceAt(json, p + 1, v);
    ColonAt(json, p);
    Pieces(json, key, k, json[c..p], json[p + 1..v]);
    assert Leads(json, key, k, json[c..p], json[p + 1..v], v);
  }

  lemma KeyFits(json: string, key: string, k: nat)
    requires FirstKey(json, key, k)
    ensures k + |key| + 2 <= |json| && At(json, k, "\"" + key + "\"")
  {
  }

  // ----- numbers -----

  // The end of the digits at i.
  function DigitsEnd(json: string, i: nat): (j: nat)
    requires i <= |json|
    ensures i <= j <= |json| && AllDigits(json[i..j]) && (j < |json| ==> !IsDigit(json[j]))
    decreases |json| - i
  {
    if i < |json| && IsDigit(json[i]) then
      var j := DigitsEnd(json, i + 1);
      assert json[i..j] == [json[i]] + json[i + 1..j];
      j
    else i
  }

  lemma SignIs(json: string, v: nat, minus: bool, digits: string)
    requires Number(json, v, minus, digits)
    ensures v < |json| && (json[v] == '-' <==> minus)
    ensures var pos := if minus then v + 1 else v;
      At(json, pos, digits) && pos < |json| && IsDigit(json[pos])
  {
    var s := if minus then "-" else "";
    AtSplit(json, v, s, digits);
    assert json[v + |s| + 0] == digits[0] && IsDigit(digits[0]);
    if minus {
      assert json[v + 0] == "-"[0];
    }
  }

  lemma NotLonger(json: string, at: nat, d: string, e: string)
    requires At(json, at, d) && At(json, at, e) && AllDigits(e)
    requires at + |d| < |json| ==> !IsDigit(json[at + |d|])
    ensures |e| <= |d|
  {
    forall p | at <= p < at + |e|
      ensures IsDigit(json[p])
    {
      assert json[at + (p - at)] == e[p - at];
    }
  }

  lemma NumberUnique(json: string, v: nat, minus: bool, digits: string, minus': bool, digits': string)
    requires Number(json, v, minus, digits) && Number(json, v, minus', digits')
    ensures minus == minus' && digits == digits'
  {
    SignIs(json, v, minus, digits);
    SignIs(json, v, minus', digits');
    var at := if minus then v + 1 else v;
    NotLonger(json, at, digits, digits');
    NotLonger(json, at, digits', digits);
    forall i | 0 <= i < |digits|
      ensures digits[i] == digits'[i]
    {
      assert json[at + i] == digits[i] && json[at + i] == digits'[i];
    }
  }

  // A digit, maybe behind a minus, begins a number; and nothing else does.
  lemma NumberThere(json: string, v: nat, pos: nat)
    requires v < |json| && pos == (if json[v] == '-' then v + 1 else v)
    ensures if pos < |json| && IsDigit(json[pos]) then
        Number(json, v, json[v] == '-', json[pos..DigitsEnd(json, pos)])
      else forall sign, digits :: !Number(json, v, sign, digits)
  {
    if pos < |json| && IsDigit(json[pos]) {
      SomeDigits(json, pos);
      MinusAt(json, v);
      AtSplit(json, v, if json[v] == '-' then "-" else "", json[pos..DigitsEnd(json, pos)]);
    } else {
      forall sign, digits | Number(json, v, sign, digits)
        ensures false
      {
        SignIs(json, v, sign, digits);
      }
    }
  }

  lemma SomeDigits(json: string, pos: nat)
    requires pos < |json| && IsDigit(json[pos])
    ensures var digits := json[pos..DigitsEnd(json, pos)];
      digits != "" && AllDigits(digits) && At(json, pos, digits)
  {
    SliceAt(json, pos, DigitsEnd(json, pos));
  }

  lemma MinusAt(json: string, v: nat)
    requires v < |json|
    ensures json[v] == '-' ==> At(json, v, "-")
    ensures At(json, v, "")
  {
    assert json[v] == '-' ==> json[v + 0] == "-"[0];
  }

  lemma DigitsRead(json: string, pos: nat)
    requires pos < |json| && IsDigit(json[pos])
    ensures var digits := json[pos..DigitsEnd(json, pos)];
      Accumulate(json, pos, 0) == if Value(digits) < TWO_63 then Some(Value(digits)) else None
  {
    hide Accumulate, DigitsEnd;
    var digits := json[pos..DigitsEnd(json, pos)];
    SomeDigits(json, pos);
    assert digits[..0] == [];
    AccumulateRun(json, pos, digits, 0);
  }

  ghost predicate IntAt(json: string, key: string, minus: bool, digits: string) {
    exists v: nat :: ValueAt(json, key, v) && Number(json, v, minus, digits)
  }

  lemma IntAtIs(json: string, key: string)
    ensures match GetInt(json, key)
      case Ok(n) => exists minus, digits ::
        && IntOnly(json, key, minus, digits) && Value(digits) < TWO_63
        && n == if minus then 0 - Value(digits) else Value(digits)
      case Err(Overflow) => exists minus, digits :: IntOnly(json, key, minus, digits) && Value(digits) >= TWO_63
      case Err(_) => forall minus, digits :: !IntAt(json, key, minus, digits)
  {
    hide Number, ValueAt, FindKey, Accumulate, Value, IntOnly, SkipWs;
    ValueStartIff(json, key);
    var start := ValueStart(json, key);
    if start.Some? && start.value < |json| {
      var v := start.value;
      var pos := if json[v] == '-' then v + 1 else v;
      NumberThere(json, v, pos);
      if pos < |json| && IsDigit(json[pos]) {
        DigitsRead(json, pos);
        var digits := json[pos..DigitsEnd(json, pos)];
        OnlyNumber(json, key, v, json[v] == '-', digits);
        assert IntOnly(json, key, json[v] == '-', digits);
      }
    } else if start.Some? {
      NoNumber(json, start.value);
    }
  }

  lemma NoNumber(json: string, v: nat)
    requires v >= |json|
    ensures forall minus, digits :: !Number(json, v, minus, digits)
  {
    forall minus, digits | Number(json, v, minus, digits)
      ensures false
    {
      SignIs(json, v, minus, digits);
    }
  }

  ghost predicate IntOnly(json: string, key: string, minus: bool, digits: string) {
    && AllDigits(digits)
    && forall m, d :: IntAt(json, key, m, d) <==> m == minus && d == digits
  }

  lemma OnlyNumber(json: string, key: string, v: nat, minus: bool, digits: string)
    requires Number(json, v, minus, digits) && forall u: nat :: ValueAt(json, key, u) <==> u == v
    ensures IntOnly(json, key, minus, digits) && AllDigits(digits)
  {
    assert AllDigits(digits);
    hide ValueAt, Number;
    forall m, d | Number(json, v, m, d)
      ensures m == minus && d == digits
    {
      NumberUnique(json, v, m, d, minus, digits);
    }
  }

  // For every text and key: the int reader returns n if and only if behind the
  // first quoted key, a colon and white space there is a number that denotes n
  // and is below 2^63; it exits for a missing key exactly if there is no quoted
  // key, and the accumulator overflows exactly if the number is larger.
  lemma IntReadIff(json: string, key: string)
    ensures forall n :: GetInt(json, key) == Ok(n) <==> exists minus, digits ::
      && IntAt(json, key, minus, digits) && Value(digits) < 0x8000_0000_0000_0000
      && n == if minus then 0 - Value(digits) else Value(digits)
    ensures GetInt(json, key) == Err(Overflow) <==> exists minus, digits ::
      IntAt(json, key, minus, digits) && Value(digits) >= 0x8000_0000_0000_0000
    ensures GetInt(json, key) == Err(KeyNotFound) <==> !exists k: nat :: FirstKey(json, key, k)
  {
    hide IntAt, GetInt;
    IntAtIs(json, key);
    NotFound(json, key);
    if GetInt(json, key).Ok? || GetInt(json, key) == Err(Overflow) {
      var minus, digits :| IntOnly(json, key, minus, digits);
      assert IntAt(json, key, minus, digits);
    }
  }

  lemma NotFound(json: string, key: string)
    ensures GetInt(json, key) == Err(KeyNotFound) <==> !exists k: nat :: FirstKey(json, key, k)
  {
    hide FirstKey, FindKey, ValueStart, Accumulate;
    KeyFound(json, key);
  }

  // ----- strings -----

  // For every text and key: the string reader returns the span of a text if and
  // only if behind the first quoted key, a colon and white space this text
  // stands in quotes, and is the text up to the next quote.
  lemma StrReadIff(json: string, key: string, start: nat, len: nat)
    ensures GetStr(json, key) == Some((start, len)) <==> StrAt(json, key, start, len)
  {
    hide ValueAt, ValueStart;
    ValueStartIff(json, key);
    if start > 0 && start + len <= |json| {
      QuotedIs(json, start - 1, len);
    }
  }

  ghost predicate StrAt(json: string, key: string, start: nat, len: nat) {
    && 0 < start && start + len <= |json|
    && ValueAt(json, key, start - 1) && QuotedText(json, start - 1, json[start..start + len])
  }

  lemma QuotedIs(json: string, v: nat, len: nat)
    requires v + 1 + len <= |json|
    ensures QuotedText(json, v, json[v + 1..v + 1 + len]) <==>
      json[v] == '"' && NextQuote(json, v + 1) == v + 1 + len < |json|
  {
    var text := json[v + 1..v + 1 + len];
    SliceAt(json, v + 1, v + 1 + len);
    AtSplit(json, v, "\"" + text, "\"");
    AtSplit(json, v, "\"", text);
    assert forall i :: 0 <= i < len ==> text[i] == json[v + 1 + i];
    QuoteAt(json, v);
    QuoteAt(json, v + 1 + len);
    var q := NextQuote(json, v + 1);
    if q == v + 1 + len {
      assert '"' !in text;
    }
    assert forall i :: v + 1 <= i < v + 1 + len ==> text[i - v - 1] == json[i];
  }

  lemma QuoteAt(json: string, p: nat)
    ensures At(json, p, "\"") <==> p < |json| && json[p] == '"'
  {
    if p < |json| && json[p] == '"' {
      assert json[p + 0] == "\""[0];
    }
    if At(json, p, "\"") {
      assert json[p + 0] == "\""[0];
    }
  }
}
