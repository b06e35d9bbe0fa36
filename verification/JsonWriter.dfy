// The writer: it appends to a buffer at a position and returns the position
// behind what it wrote.

module JsonWriter {
  import opened MachineInt
  import opened Decimal
  import opened JsonObject

  // `text` was written at pos; nothing else changed.
  predicate Wrote(before: seq<char>, after: seq<char>, pos: nat, text: string) {
    && pos + |text| <= |before| == |after|
    && after == before[..pos] + text + before[pos + |text|..]
  }

  lemma WroteThen(a: seq<char>, b: seq<char>, c: seq<char>, pos: nat, s: string, t: string)
    requires Wrote(a, b, pos, s) && Wrote(b, c, pos + |s|, t)
    ensures Wrote(a, c, pos, s + t)
  {
    assert b[..pos + |s|] == a[..pos] + s;
    assert b[pos + |s| + |t|..] == a[pos + |s| + |t|..];
  }

  // A comma except for the first field; json_open leaves the position at 1.
  function FieldText(pos: nat, key: string, value: string): string {
    (if pos > 1 then "," else "") + Quoted(key) + ":" + value
  }

  // Appending to what was written from `start` on into a buffer that held b0.
  method Put(buf: array<char>, pos: nat, c: char, ghost b0: seq<char>, ghost start: nat, ghost done: string)
    returns (next: nat)
    requires Wrote(b0, buf[..], start, done) && pos == start + |done| < buf.Length
    modifies buf
    ensures next == pos + 1 && Wrote(b0, buf[..], start, done + [c])
  {
    ghost var b1 := buf[..];
    buf[pos] := c;
    next := pos + 1;
    assert Wrote(b1, buf[..], pos, [c]);
    WroteThen(b0, b1, buf[..], start, done, [c]);
  }

  // memcpy.
  method Copy(buf: array<char>, pos: nat, s: string, ghost b0: seq<char>, ghost start: nat, ghost done: string)
    returns (next: nat)
    requires Wrote(b0, buf[..], start, done) && pos == start + |done| && pos + |s| <= buf.Length
    modifies buf
    ensures next == pos + |s| && Wrote(b0, buf[..], start, done + s)
  {
    ghost var b1 := buf[..];
    var i := 0;
    while i < |s|
      invariant 0 <= i <= |s|
      invariant forall k :: 0 <= k < buf.Length ==>
        buf[k] == if pos <= k < pos + i then s[k - pos] else b1[k]
    {
      buf[pos + i] := s[i];
      i := i + 1;
    }
    next := pos + |s|;
    assert Wrote(b1, buf[..], pos, s);
    WroteThen(b0, b1, buf[..], start, done, s);
  }

  lemma WroteNothing(b: seq<char>, pos: nat)
    requires pos <= |b|
    ensures Wrote(b, b, pos, "")
  {
  }

  method JsonOpen(buf: array<char>, pos: nat) returns (next: nat)
    requires pos < buf.Length
    modifies buf
    ensures next == pos + 1 && Wrote(old(buf[..]), buf[..], pos, "{")
  {
    next := Put(buf, pos, '{', buf[..], pos, "");
  }

  method JsonClose(buf: array<char>, pos: nat) returns (next: nat)
    requires pos < buf.Length
    modifies buf
    ensures next == pos + 1 && Wrote(old(buf[..]), buf[..], pos, "}")
  {
    next := Put(buf, pos, '}', buf[..], pos, "");
  }

  // The comma, the quoted key and the colon.
  method WriteKey(buf: array<char>, pos: nat, key: string) returns (next: nat)
    requires pos + |FieldText(pos, key, "")| <= buf.Length
    modifies buf
    ensures next == pos + |FieldText(pos, key, "")|
    ensures Wrote(old(buf[..]), buf[..], pos, FieldText(pos, key, ""))
  {
    hide Wrote;
    ghost var b0 := buf[..];
    WroteNothing(b0, pos);
    next := pos;
    ghost var comma := if pos > 1 then "," else "";
    if pos > 1 {
      next := Put(buf, next, ',', b0, pos, "");
    }
    next := Put(buf, next, '"', b0, pos, comma);
    next := Copy(buf, next, key, b0, pos, comma + "\"");
    next := Put(buf, next, '"', b0, pos, comma + "\"" + key);
    next := Put(buf, next, ':', b0, pos, comma + "\"" + key + "\"");
    assert comma + "\"" + key + "\"" + ":" == FieldText(pos, key, "");
  }

  lemma FieldTextSplit(pos: nat, key: string, value: string)
    ensures FieldText(pos, key, value) == FieldText(pos, key, "") + value
  {
    assert (if pos > 1 then "," else "") + Quoted(key) + ":" + "" == (if pos > 1 then "," else "") + Quoted(key) + ":";
  }

  method JsonWriteStr(buf: array<char>, pos: nat, key: string, val: string) returns (next: nat)
    requires pos + |FieldText(pos, key, Quoted(val))| <= buf.Length
    modifies buf
    ensures next == pos + |FieldText(pos, key, Quoted(val))|
    ensures Wrote(old(buf[..]), buf[..], pos, FieldText(pos, key, Quoted(val)))
  {
    hide Wrote;
    FieldTextSplit(pos, key, Quoted(val));
    ghost var b0, head := buf[..], FieldText(pos, key, "");
    next := WriteKey(buf, pos, key);
    next := Put(buf, next, '"', b0, pos, head);
    next := Copy(buf, next, val, b0, pos, head + "\"");
    next := Put(buf, next, '"', b0, pos, head + "\"" + val);
    assert head + "\"" + val + "\"" == head + Quoted(val);
  }

  // ----- decimal conversion -----

  function Reversed(s: string): (r: string)
    ensures |r| == |s|
  {
    if s == [] then [] else [s[|s| - 1]] + Reversed(s[..|s| - 1])
  }

  lemma {:induction false} ReversedAt(s: string, k: nat)
    requires k < |s|
    ensures Reversed(s)[k] == s[|s| - 1 - k]
  {
    if k > 0 {
      ReversedAt(s[..|s| - 1], k - 1);
    }
  }

  lemma WordDigits(v: nat)
    requires v <= TWO_63
    ensures |Digits(v)| <= 19
  {
    assert Pow10(4) == 10000;
    assert Pow10(8) == 10000 * Pow10(4);
    assert Pow10(12) == 10000 * Pow10(8);
    assert Pow10(16) == 10000 * Pow10(12);
    assert Pow10(19) == 1000 * Pow10(16);
    DigitsLength(v, 19);
  }

  // The digits of a positive number, last digit first, in a scratch buffer of
  // 20 bytes, of which at most 19 are used.
  method DivideLoop(v: nat, tmp: array<char>) returns (n: nat)
    requires 0 < v <= TWO_63 && tmp.Length == 20
    modifies tmp
    ensures n == |Digits(v)| <= 19 && Reversed(tmp[..n]) == Digits(v)
  {
    hide Digits, Reversed, DigitChar;
    WordDigits(v);
    var uval: nat := v;
    n := 0;
    ReversedEmpty();
    while uval > 0
      invariant 0 <= n <= 19
      invariant uval > 0 ==> Digits(uval) + Reversed(tmp[..n]) == Digits(v)
      invariant uval == 0 ==> Reversed(tmp[..n]) == Digits(v)
    {
      ghost var done := tmp[..n];
      DivideStep(v, uval, done);
      tmp[n] := DigitChar(uval % 10);
      assert tmp[..n + 1] == done + [tmp[n]];
      n := n + 1;
      uval := uval / 10;
    }
  }

  lemma ReversedEmpty()
    ensures Reversed("") == ""
  {
  }

  // One division moves the last digit of the rest to the scratch buffer.
  lemma DivideStep(v: nat, rest: nat, done: string)
    requires rest > 0 && Digits(rest) + Reversed(done) == Digits(v)
    ensures |done| < |Digits(v)|
    ensures var more := Reversed(done + [DigitChar(rest % 10)]);
      if rest / 10 > 0 then Digits(rest / 10) + more == Digits(v) else more == Digits(v)
  {
    hide Digits, Reversed, DigitChar, AllDigits, Value;
    var d := DigitChar(rest % 10);
    ReversedSnoc(done, d);
    DigitsStep(rest);
    Regroup(if rest < 10 then [] else Digits(rest / 10), d, Reversed(done));
  }

  lemma Regroup(a: string, c: char, b: string)
    ensures a + [c] + b == a + ([c] + b)
    ensures a == [] ==> a + [c] + b == [c] + b
    ensures |b| < |a + [c] + b|
  {
    assert a + [c] + b == a + ([c] + b);
  }

  lemma DigitsStep(n: nat)
    ensures Digits(n) == (if n < 10 then [] else Digits(n / 10)) + [DigitChar(n % 10)]
  {
  }

  lemma ReversedSnoc(s: string, c: char)
    ensures Reversed(s + [c]) == [c] + Reversed(s)
  {
    assert (s + [c])[..|s|] == s;
  }

  // The scratch buffer, copied in reverse.
  method ReverseLoop(buf: array<char>, pos: nat, tmp: array<char>, n: nat) returns (next: nat)
    requires n <= tmp.Length && pos + n <= buf.Length && buf != tmp
    modifies buf
    ensures next == pos + n && Wrote(old(buf[..]), buf[..], pos, Reversed(tmp[..n]))
  {
    var i := n;
    next := pos;
    while i > 0
      invariant 0 <= i <= n && next == pos + (n - i)
      invariant forall k :: 0 <= k < buf.Length ==>
        buf[k] == if pos <= k < next then tmp[n - 1 - (k - pos)] else old(buf[k])
    {
      i := i - 1;
      buf[next] := tmp[i];
      next := next + 1;
    }
    forall k | 0 <= k < n
      ensures buf[pos + k] == Reversed(tmp[..n])[k]
    {
      ReversedAt(tmp[..n], k);
    }
  }

  method WriteDigits(buf: array<char>, pos: nat, v: nat, ghost b0: seq<char>, ghost start: nat, ghost done: string)
    returns (next: nat)
    requires Wrote(b0, buf[..], start, done) && pos == start + |done|
    requires 0 < v <= TWO_63 && pos + |Digits(v)| <= buf.Length
    modifies buf
    ensures next == pos + |Digits(v)| && Wrote(b0, buf[..], start, done + Digits(v))
  {
    hide Wrote;
    ghost var b1 := buf[..];
    var tmp := new char[20];
    var n := DivideLoop(v, tmp);
    next := ReverseLoop(buf, pos, tmp, n);
    WroteThen(b0, b1, buf[..], start, done, Digits(v));
  }

  // Canonical decimal notation for every int64, the minimum included: it is
  // negated in unsigned arithmetic.
  method JsonWriteInt(buf: array<char>, pos: nat, key: string, val: Int64) returns (next: nat)
    requires pos + |FieldText(pos, key, Text(val))| <= buf.Length
    modifies buf
    ensures next == pos + |FieldText(pos, key, Text(val))|
    ensures Wrote(old(buf[..]), buf[..], pos, FieldText(pos, key, Text(val)))
  {
    hide Wrote, Digits;
    FieldTextSplit(pos, key, Text(val));
    ghost var b0, head := buf[..], FieldText(pos, key, "");
    next := WriteKey(buf, pos, key);
    if val == 0 {
      ZeroText();
      next := Put(buf, next, '0', b0, pos, head);
    } else if val < 0 {
      next := Put(buf, next, '-', b0, pos, head);
      var uval := if val == -TWO_63 then TWO_63 else 0 - val;
      next := WriteDigits(buf, next, uval, b0, pos, head + "-");
      assert head + "-" + Digits(uval) == head + Text(val);
    } else {
      next := WriteDigits(buf, next, val, b0, pos, head);
    }
  }

  lemma ZeroText()
    ensures Text(0) == "0"
  {
  }
}
