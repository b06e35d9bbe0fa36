// The flat-object reader: a sliding-window search for a quoted key, then the
// value behind it.  Bytes are modelled as chars.

module JsonReader {
  import opened Wrappers
  import opened MachineInt
  import opened Decimal

  predicate IsWs(c: char) {
    c == ' ' || c == '\t' || c == '\r' || c == '\n'
  }

  // "key", quotes included, stands at index i.
  predicate MatchAt(json: string, key: string, i: nat) {
    && i + |key| + 1 < |json|
    && json[i] == '"' && json[i + 1..i + 1 + |key|] == key && json[i + 1 + |key|] == '"'
  }

  lemma MatchAtChars(json: string, key: string, i: nat)
    ensures MatchAt(json, key, i) ==>
      && json[i + 1 + |key|] == '"'
      && forall k :: 0 <= k < |key| ==> json[i + 1 + k] == key[k]
  {
    if MatchAt(json, key, i) {
      forall k | 0 <= k < |key|
        ensures json[i + 1 + k] == key[k]
      {
        assert json[i + 1 + k] == json[i + 1..i + 1 + |key|][k];
      }
    }
  }

  // The least index from i on where the quoted key stands, |json| if there is
  // none.
  function Search(json: string, key: string, i: nat): (k: nat)
    requires i <= |json|
    ensures i <= k <= |json|
    ensures k < |json| ==> MatchAt(json, key, k)
    ensures forall j :: i <= j < k ==> !MatchAt(json, key, j)
    decreases |json| - i
  {
    if i == |json| || MatchAt(json, key, i) then i else Search(json, key, i + 1)
  }

  function FindKey(json: string, key: string): nat {
    if key == [] then |json| else Search(json, key, 0)
  }

  function SkipWs(json: string, pos: nat): (p: nat)
    ensures pos <= p
    ensures pos <= |json| ==> p <= |json|
    decreases |json| - pos
  {
    if pos < |json| && IsWs(json[pos]) then SkipWs(json, pos + 1) else pos
  }

  // The first quote from pos on, |json| if there is none.
  function NextQuote(json: string, pos: nat): (p: nat)
    requires pos <= |json|
    ensures pos <= p <= |json| && (p < |json| ==> json[p] == '"')
    ensures forall j :: pos <= j < p ==> json[j] != '"'
    decreases |json| - pos
  {
    if pos == |json| || json[pos] == '"' then pos else NextQuote(json, pos + 1)
  }

  // Where the value of the key starts: behind the colon and white space.
  function ValueStart(json: string, key: string): (v: Option<nat>)
    ensures v.Some? ==> v.value <= |json|
  {
    var k := FindKey(json, key);
    if k == |json| then None
    else
      var p := SkipWs(json, k + |key| + 2);
      if p >= |json| || json[p] != ':' then None else Some(SkipWs(json, p + 1))
  }

  // A string value: its start and length in the text.
  function GetStr(json: string, key: string): (r: Option<(nat, nat)>)
    ensures r.Some? ==> r.value.0 + r.value.1 <= |json|
    ensures r.Some? ==> '"' !in json[r.value.0..r.value.0 + r.value.1]
  {
    var v := ValueStart(json, key);
    if v.None? || v.value >= |json| || json[v.value] != '"' then None
    else
      var end := NextQuote(json, v.value + 1);
      if end >= |json| then None else Some((v.value + 1, end - (v.value + 1)))
  }

  // The reader exits on the first four; Overflow is its accumulator leaving
  // int64, undefined in C.
  datatype IntError = KeyNotFound | NoColon | NoValue | NoDigit | Overflow

  // The digits from pos on, accumulated; None if the accumulator overflows.
  function Accumulate(json: string, pos: nat, acc: nat): (r: Option<nat>)
    requires acc < TWO_63
    ensures r.Some? ==> r.value < TWO_63
    decreases |json| - pos
  {
    if pos < |json| && IsDigit(json[pos]) then
      var next := 10 * acc + DigitValue(json[pos]);
      if next >= TWO_63 then None else Accumulate(json, pos + 1, next)
    else Some(acc)
  }

  function GetInt(json: string, key: string): Result<Int64, IntError> {
    if FindKey(json, key) == |json| then Err(KeyNotFound)
    else
      var v := ValueStart(json, key);
      if v.None? then Err(NoColon)
      else if v.value >= |json| then Err(NoValue)
      else
        var negative := json[v.value] == '-';
        var pos := if negative then v.value + 1 else v.value;
        if pos >= |json| || !IsDigit(json[pos]) then Err(NoDigit)
        else
          var n := Accumulate(json, pos, 0);
          if n.None? then Err(Overflow)
          else if negative then Ok(0 - n.value) else Ok(n.value)
  }

  // ----- the reader's loops -----

  // memcmp over the key.
  method SameBytes(json: string, at: nat, key: string) returns (same: bool)
    requires at + |key| <= |json|
    ensures same == (json[at..at + |key|] == key)
  {
    var k := 0;
    while k < |key|
      invariant 0 <= k <= |key|
      invariant forall j :: 0 <= j < k ==> json[at + j] == key[j]
    {
      if json[at + k] != key[k] {
        assert json[at..at + |key|][k] != key[k];
        return false;
      }
      k := k + 1;
    }
    return true;
  }

  // The least index of the quoted key, |json| exactly if it does not occur.
  method FindKeyLoop(json: string, key: string) returns (i: nat)
    ensures i == FindKey(json, key)
    ensures i <= |json|
    ensures i < |json| ==> key != [] && MatchAt(json, key, i)
    ensures key != [] ==> forall j :: 0 <= j < i ==> !MatchAt(json, key, j)
  {
    if key == [] || |json| < |key| + 2 {
      if key != [] {
        assert Search(json, key, 0) == |json|;
      }
      return |json|;
    }
    i := 0;
    while i + |key| + 1 < |json|
      invariant i <= |json|
      invariant Search(json, key, i) == Search(json, key, 0)
    {
      if json[i] == '"' {
        var same := SameBytes(json, i + 1, key);
        if same && json[i + 1 + |key|] == '"' {
          assert MatchAt(json, key, i);
          return i;
        }
      }
      i := i + 1;
    }
    i := |json|;
  }

  method SkipWsLoop(json: string, pos: nat) returns (p: nat)
    ensures p == SkipWs(json, pos)
  {
    p := pos;
    while p < |json| && IsWs(json[p])
      invariant SkipWs(json, p) == SkipWs(json, pos)
      decreases |json| - p
    {
      p := p + 1;
    }
  }

  method JsonGetStr(json: string, key: string) returns (r: Option<(nat, nat)>)
    ensures r == GetStr(json, key)
  {
    var keyPos := FindKeyLoop(json, key);
    if keyPos == |json| {
      return None;
    }
    var pos := SkipWsLoop(json, keyPos + 1 + |key| + 1);
    if pos >= |json| || json[pos] != ':' {
      return None;
    }
    pos := SkipWsLoop(json, pos + 1);
    if pos >= |json| || json[pos] != '"' {
      return None;
    }
    pos := pos + 1;
    var start := pos;
    while pos < |json| && json[pos] != '"'
      invariant start <= pos <= |json|
      invariant NextQuote(json, pos) == NextQuote(json, start)
    {
      pos := pos + 1;
    }
    if pos >= |json| {
      return None;
    }
    return Some((start, pos - start));
  }

  method JsonGetInt(json: string, key: string) returns (r: Result<Int64, IntError>)
    ensures r == GetInt(json, key)
  {
    var keyPos := FindKeyLoop(json, key);
    if keyPos == |json| {
      return Err(KeyNotFound);
    }
    var pos := SkipWsLoop(json, keyPos + 1 + |key| + 1);
    if pos >= |json| || json[pos] != ':' {
      return Err(NoColon);
    }
    pos := SkipWsLoop(json, pos + 1);
    if pos >= |json| {
      return Err(NoValue);
    }
    var negative := false;
    if json[pos] == '-' {
      negative := true;
      pos := pos + 1;
    }
    if pos >= |json| || !IsDigit(json[pos]) {
      return Err(NoDigit);
    }
    var result: nat := 0;
    ghost var start := pos;
    while pos < |json| && IsDigit(json[pos])
      invariant start <= pos <= |json| && result < TWO_63
      invariant Accumulate(json, pos, result) == Accumulate(json, start, 0)
    {
      result := 10 * result + DigitValue(json[pos]);
      if result >= TWO_63 {
        return Err(Overflow);
      }
      pos := pos + 1;
    }
    return Ok(if negative then 0 - result else result);
  }
}
