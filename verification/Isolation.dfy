// Invocations over the two arenas: what a handler can reach, that the static
// arena stays as init left it, and that no request sees an earlier one, even
// though a reset does not clear memory.

module Isolation {
  import opened Wrappers
  import opened Arena

  const STATIC_ARENA_SIZE := 64 * 1024
  const REQ_ARENA_SIZE := 256 * 1024

  datatype Tag = StaticTag | ReqTag

  // What compiled code does to memory: construct an object, whose constructor
  // writes the reference count and every field; load a word; or return.
  datatype Command = New(tag: Tag, fields: seq<int>) | Load(at: nat) | Finish(response: seq<char>)

  // A handler is any function of the event and of what it has seen: the
  // addresses it got and the words it loaded.
  type Handler = (seq<char>, seq<int>) -> Command

  // Memory in 8-byte words, by address; words never written are 0.  `kept` are
  // the objects of the static arena.
  datatype Proc = Proc(words: map<nat, int>, statics: Bump, requests: Bump, kept: seq<Block>, frozen: bool) {
    function Word(at: nat): int {
      if at in words then words[at] else 0
    }

    ghost predicate Valid() {
      && statics.Valid() && requests.Valid()
      && (statics.limit <= requests.base || requests.limit <= statics.base)
      && ObjectsSound(words, statics, kept)
    }

    function Cell(tag: Tag): Bump {
      if tag.StaticTag? then statics else requests
    }

    // Allocated when init was done.
    predicate InStatics(at: nat) {
      at % 8 == 0 && statics.base <= at < statics.cursor
    }
  }

  // Exhausted: the allocator exits.  Crashed: a write to the frozen arena.
  // Unsafe: a load outside the objects the code can know.
  datatype Outcome = Response(text: seq<char>) | Exhausted | Crashed | Unsafe

  // A running invocation with its objects and what it has seen.
  datatype Activation =
    | Active(p: Proc, live: seq<Block>, seen: seq<int>)
    | Stopped(outcome: Outcome, q: Proc)

  function ObjectSize(fields: seq<int>): nat {
    8 * (1 + |fields|)
  }

  // The words of an object: its reference count, then its fields.
  function Construct(words: map<nat, int>, at: nat, fields: seq<int>): map<nat, int> {
    if fields == [] then words[at := 1]
    else
      var n := |fields| - 1;
      Construct(words, at, fields[..n])[at + 8 * (n + 1) := fields[n]]
  }

  predicate InBlock(b: Block, at: nat) {
    at % 8 == 0 && b.at <= at < b.at + b.size
  }

  predicate InLive(live: seq<Block>, at: nat) {
    exists i :: 0 <= i < |live| && InBlock(live[i], at)
  }

  function Take(h: Handler, event: seq<char>, a: Activation): Activation
    requires a.Active?
  {
    var p := a.p;
    match h(event, a.seen)
    case Finish(response) => Stopped(Response(response), p)
    case Load(at) =>
      if p.InStatics(at) || InLive(a.live, at) then a.(seen := a.seen + [p.Word(at)]) else Stopped(Unsafe, p)
    case New(tag, fields) =>
      match Alloc(p.Cell(tag), ObjectSize(fields))
      case None => Stopped(Exhausted, p)
      case Some((at, cell)) =>
        if tag.StaticTag? then
          if p.frozen then Stopped(Crashed, p.(statics := cell))
          else
            Active(p.(statics := cell, words := Construct(p.words, at, fields),
                      kept := p.kept + [Block(at, ObjectSize(fields))]),
                   a.live, a.seen + [at])
        else
          Active(p.(requests := cell, words := Construct(p.words, at, fields)),
                 a.live + [Block(at, ObjectSize(fields))], a.seen + [at])
  }

  function Steps(h: Handler, event: seq<char>, a: Activation, n: nat): Activation
    decreases n
  {
    if n == 0 || a.Stopped? then a else Steps(h, event, Take(h, event, a), n - 1)
  }

  lemma {:induction false} StepsMore(h: Handler, event: seq<char>, a: Activation, m: nat, n: nat)
    requires Steps(h, event, a, m).Stopped? && m <= n
    ensures Steps(h, event, a, n) == Steps(h, event, a, m)
    decreases m
  {
    if m > 0 && a.Active? {
      StepsMore(h, event, Take(h, event, a), m - 1, n - 1);
    }
  }

  // ----- constructors write their objects, and nothing else -----

  lemma {:induction false} ConstructWrites(words: map<nat, int>, at: nat, fields: seq<int>, k: nat)
    ensures var w := Construct(words, at, fields);
      if InBlock(Block(at, ObjectSize(fields)), k) && at % 8 == 0 then
        k in w && w[k] == if k == at then 1 else fields[(k - at) / 8 - 1]
      else at % 8 == 0 ==> (k in w <==> k in words) && (k in w ==> w[k] == words[k])
  {
    if fields != [] {
      var n := |fields| - 1;
      ConstructWrites(words, at, fields[..n], k);
    }
  }

  // ----- safety of an invocation -----

  // The objects are aligned, disjoint and inside their arena, below its
  // cursor; all their words have been written.
  ghost predicate ObjectsSound(words: map<nat, int>, arena: Bump, bs: seq<Block>) {
    && AllSafe(Used(arena), bs)
    && forall i, k :: 0 <= i < |bs| && InBlock(bs[i], k) ==> k in words
  }

  // The part of an arena that has been handed out.
  function Used(arena: Bump): Bump {
    Bump(arena.base, arena.base, arena.cursor)
  }

  // This holds of the live objects in the request arena, and of those kept in
  // the static arena.
  ghost predicate Sound(p0: Proc, a: Activation) {
    a.Active? ==>
      && a.p.Valid() && a.p.requests.base == p0.requests.base && a.p.requests.limit == p0.requests.limit
      && ObjectsSound(a.p.words, a.p.requests, a.live)
  }

  lemma ObjectsMore(words: map<nat, int>, words': map<nat, int>, arena: Bump, arena': Bump, bs: seq<Block>)
    requires ObjectsSound(words, arena, bs) && words.Keys <= words'.Keys
    requires arena'.base == arena.base && arena.cursor <= arena'.cursor
    ensures ObjectsSound(words', arena', bs)
  {
    forall i | 0 <= i < |bs|
      ensures Inside(Used(arena'), bs[i])
    {
      assert Inside(Used(arena), bs[i]);
    }
  }

  // A newly constructed object.
  lemma ObjectsSnoc(words: map<nat, int>, words': map<nat, int>, arena: Bump, arena': Bump, bs: seq<Block>, b: Block)
    requires ObjectsSound(words, arena, bs) && words.Keys <= words'.Keys && arena.Valid()
    requires arena'.base == arena.base && b.at == arena.cursor && b.at + b.size <= arena'.cursor
    requires forall k :: InBlock(b, k) ==> k in words'
    ensures ObjectsSound(words', arena', bs + [b])
  {
    ObjectsMore(words, words', arena, arena, bs);
    SafeSnoc(Used(arena), bs, b, arena'.cursor);
    forall i, k | 0 <= i < |bs + [b]| && InBlock((bs + [b])[i], k)
      ensures k in words'
    {
      assert i < |bs| ==> InBlock(bs[i], k);
    }
  }

  lemma TakeSound(h: Handler, event: seq<char>, p0: Proc, a: Activation)
    requires a.Active? && Sound(p0, a)
    ensures Sound(p0, Take(h, event, a))
  {
    hide ObjectsSound, Construct, RoundUp;
    var a' := Take(h, event, a);
    match h(event, a.seen)
    case New(tag, fields) =>
      var size := ObjectSize(fields);
      RoundUpIs(size);
      if a'.Active? {
        var at := Alloc(a.p.Cell(tag), size).value.0;
        Constructed(a.p.words, at, fields);
        if tag.StaticTag? {
          ObjectsSnoc(a.p.words, a'.p.words, a.p.statics, a'.p.statics, a.p.kept, Block(at, size));
          ObjectsMore(a.p.words, a'.p.words, a.p.requests, a'.p.requests, a.live);
        } else {
          ObjectsMore(a.p.words, a'.p.words, a.p.statics, a'.p.statics, a.p.kept);
          ObjectsSnoc(a.p.words, a'.p.words, a.p.requests, a'.p.requests, a.live, Block(at, size));
        }
      }
    case _ =>
  }

  lemma Constructed(words: map<nat, int>, at: nat, fields: seq<int>)
    requires at % 8 == 0
    ensures var words' := Construct(words, at, fields);
      words.Keys <= words'.Keys && forall k :: InBlock(Block(at, ObjectSize(fields)), k) ==> k in words'
  {
    hide Construct;
    forall k: nat
      ensures k in words ==> k in Construct(words, at, fields)
      ensures InBlock(Block(at, ObjectSize(fields)), k) ==> k in Construct(words, at, fields)
    {
      ConstructWrites(words, at, fields, k);
    }
  }

  // In every state of an invocation that starts with an empty request arena,
  // and of the module's top-level statements.
  lemma {:induction false} StepsSound(h: Handler, event: seq<char>, p0: Proc, a: Activation, n: nat)
    requires Sound(p0, a)
    ensures Sound(p0, Steps(h, event, a, n))
    decreases n
  {
    if n > 0 && a.Active? {
      TakeSound(h, event, p0, a);
      StepsSound(h, event, p0, Take(h, event, a), n - 1);
    }
  }

  function Sizes(bs: seq<Block>): seq<nat> {
    seq(|bs|, i requires 0 <= i < |bs| => bs[i].size)
  }

  // The places handed out in an invocation depend on nothing but the sizes
  // asked for in it.
  lemma {:induction false} OffsetsFromSizes(h: Handler, event: seq<char>, arena: Bump, a: Activation, n: nat)
    requires a.Active? && a.live == Blocks(arena, Sizes(a.live)) && After(arena, Sizes(a.live)) == Some(a.p.requests)
    ensures var b := Steps(h, event, a, n); b.Active? ==> b.live == Blocks(arena, Sizes(b.live))
    decreases n
  {
    hide Alloc, Blocks, After, Construct;
    if n > 0 {
      var b := Take(h, event, a);
      if b.Active? {
        if b.live != a.live {
          var x := b.live[|a.live|];
          assert Sizes(b.live) == Sizes(a.live) + [x.size];
          BlocksSnoc(arena, Sizes(a.live), x.size);
        }
        OffsetsFromSizes(h, event, arena, b, n - 1);
      }
    }
  }

  // ----- the frozen arena -----

  function Memory(a: Activation): Proc {
    if a.Active? then a.p else a.q
  }

  // Same static arena, at least what the handler can reach of it.
  ghost predicate SameStatics(p: Proc, q: Proc) {
    && p.statics.base == q.statics.base && p.statics.limit == q.statics.limit && p.frozen == q.frozen
    && forall k :: p.statics.base <= k < p.statics.limit ==> p.Word(k) == q.Word(k)
  }

  // No step changes the contents of the frozen arena; a surviving invocation
  // leaves its cursor alone, too.
  lemma {:induction false} StaticsFrozen(h: Handler, event: seq<char>, p0: Proc, a: Activation, n: nat)
    requires Sound(p0, a) && a.Active? && a.p.frozen
    ensures var m := Memory(Steps(h, event, a, n));
      && SameStatics(a.p, m)
      && (Steps(h, event, a, n) != Stopped(Crashed, m) ==> m.statics == a.p.statics)
    decreases n
  {
    if n > 0 {
      var b := Take(h, event, a);
      TakeSound(h, event, p0, a);
      TakeStatics(h, event, a);
      if b.Active? {
        StaticsFrozen(h, event, p0, b, n - 1);
      }
    }
  }

  lemma TakeStatics(h: Handler, event: seq<char>, a: Activation)
    requires a.Active? && a.p.frozen && a.p.Valid()
    ensures var b := Take(h, event, a);
      && SameStatics(a.p, Memory(b))
      && (b != Stopped(Crashed, Memory(b)) ==> Memory(b).statics == a.p.statics)
  {
    match h(event, a.seen)
    case New(ReqTag, fields) =>
      if Alloc(a.p.requests, ObjectSize(fields)).Some? {
        RoundUpIs(ObjectSize(fields));
        forall k | a.p.statics.base <= k < a.p.statics.limit
          ensures Take(h, event, a).p.Word(k) == a.p.Word(k)
        {
          ConstructWrites(a.p.words, a.p.requests.cursor, fields, k);
        }
      }
    case _ =>
  }

  // ----- two runs -----

  // Nothing the code can see distinguishes the two: same cursors, same static
  // contents, same objects with the same words.
  ghost predicate Alike(a: Activation, b: Activation) {
    match (a, b)
    case (Active(p, live, seen), Active(q, live2, seen2)) =>
      && live == live2 && seen == seen2 && p.statics == q.statics && p.requests == q.requests
      && p.frozen == q.frozen
      && (forall k :: p.InStatics(k) || InLive(live, k) ==> p.Word(k) == q.Word(k))
    case (Stopped(o, _), Stopped(o2, _)) => o == o2
    case _ => false
  }

  lemma TakeAlike(h: Handler, event: seq<char>, p0: Proc, a: Activation, b: Activation)
    requires a.Active? && b.Active? && Alike(a, b) && Sound(p0, a)
    ensures Alike(Take(h, event, a), Take(h, event, b))
  {
    match h(event, a.seen)
    case New(tag, fields) =>
      var got := Alloc(a.p.Cell(tag), ObjectSize(fields));
      RoundUpIs(ObjectSize(fields));
      if got.Some? && !(tag.StaticTag? && a.p.frozen) {
        var at := got.value.0;
        var a', b' := Take(h, event, a), Take(h, event, b);
        forall k | a'.p.InStatics(k) || InLive(a'.live, k)
          ensures a'.p.Word(k) == b'.p.Word(k)
        {
          ConstructWrites(a.p.words, at, fields, k);
          ConstructWrites(b.p.words, at, fields, k);
          NewOrOld(a, a', tag, at, fields, k);
        }
      }
    case _ =>
  }

  // A reachable word is one of the new object, or was reachable before.
  lemma NewOrOld(a: Activation, a': Activation, tag: Tag, at: nat, fields: seq<int>, k: nat)
    requires a.Active? && a'.Active? && a.p.Valid() && Alloc(a.p.Cell(tag), ObjectSize(fields)).Some?
    requires var (place, cell) := Alloc(a.p.Cell(tag), ObjectSize(fields)).value;
      && at == place
      && (if tag.StaticTag? then a'.p.statics == cell && a'.live == a.live
          else a'.p.statics == a.p.statics && a'.live == a.live + [Block(at, ObjectSize(fields))])
    requires a'.p.InStatics(k) || InLive(a'.live, k)
    ensures InBlock(Block(at, ObjectSize(fields)), k) || a.p.InStatics(k) || InLive(a.live, k)
  {
    RoundUpIs(ObjectSize(fields));
    if InLive(a'.live, k) && !InBlock(Block(at, ObjectSize(fields)), k) {
      var i :| 0 <= i < |a'.live| && InBlock(a'.live[i], k);
      assert i < |a.live| ==> a.live[i] == a'.live[i];
    }
  }

  lemma {:induction false} StepsAlike(h: Handler, event: seq<char>, p0: Proc, a: Activation, b: Activation, n: nat)
    requires Alike(a, b) && Sound(p0, a)
    ensures Alike(Steps(h, event, a, n), Steps(h, event, b, n))
    decreases n
  {
    if n > 0 && a.Active? {
      TakeAlike(h, event, p0, a, b);
      TakeSound(h, event, p0, a);
      StepsAlike(h, event, p0, Take(h, event, a), Take(h, event, b), n - 1);
    }
  }

  // ----- whole sessions -----

  function Reset(p: Proc): Proc {
    p.(requests := p.requests.(cursor := p.requests.base))
  }

  // One served request: the process before and after it, and its steps.
  datatype Served = Served(event: seq<char>, text: seq<char>, steps: nat, before: Proc, after: Proc)

  predicate Serves(h: Handler, s: Served) {
    Steps(h, s.event, Active(s.before, [], []), s.steps) == Stopped(Response(s.text), s.after)
  }

  // Requests served one after the other, the request arena reset after each.
  ghost predicate Session(h: Handler, p0: Proc, log: seq<Served>) {
    forall i :: 0 <= i < |log| ==>
      && Serves(h, log[i])
      && log[i].before == StartOf(p0, log, i)
  }

  function StartOf(p0: Proc, log: seq<Served>, i: nat): Proc
    requires i < |log|
  {
    if i == 0 then p0 else Reset(log[i - 1].after)
  }

  ghost predicate ReadyToServe(p: Proc) {
    p.Valid() && p.frozen && p.requests.cursor == p.requests.base
  }

  // At every poll the request arena is empty, and the static arena is as it
  // was when it was frozen.
  lemma {:induction false} AtEveryPoll(h: Handler, p0: Proc, log: seq<Served>, i: nat)
    requires ReadyToServe(p0) && Session(h, p0, log) && i < |log|
    ensures var p := log[i].before;
      && ReadyToServe(p) && p.requests == p0.requests && p.statics == p0.statics && SameStatics(p0, p)
    ensures SameStatics(p0, log[i].after) && log[i].after.statics == p0.statics
  {
    hide Session, Serves, SameStatics;
    SessionAt(h, p0, log, i);
    if i > 0 {
      var last := log[i - 1];
      AtEveryPoll(h, p0, log, i - 1);
      SessionAt(h, p0, log, i - 1);
      ServedKeeps(h, last);
      SameStaticsTrans(p0, last.before, log[i].before);
    } else {
      SameStaticsTrans(p0, p0, p0);
    }
    ServedKeeps(h, log[i]);
    SameStaticsTrans(p0, log[i].before, log[i].after);
  }

  lemma SessionAt(h: Handler, p0: Proc, log: seq<Served>, i: nat)
    requires Session(h, p0, log) && i < |log|
    ensures Serves(h, log[i]) && log[i].before == StartOf(p0, log, i)
  {
  }

  lemma SameStaticsTrans(p: Proc, q: Proc, r: Proc)
    ensures SameStatics(p, q) && SameStatics(q, r) ==> SameStatics(p, r)
    ensures SameStatics(p, p)
  {
    if SameStatics(p, q) && SameStatics(q, r) {
      forall k | p.statics.base <= k < p.statics.limit
        ensures p.Word(k) == r.Word(k)
      {
        assert p.Word(k) == q.Word(k);
      }
    }
  }

  // Serving leaves the bounds of the request arena alone, whatever the arena
  // held before.
  lemma ServedKeeps(h: Handler, s: Served)
    requires s.before.Valid() && s.before.frozen && Serves(h, s)
    ensures ReadyToServe(Reset(s.after)) && Reset(s.after).requests == Reset(s.before).requests
    ensures s.after.statics == s.before.statics
    ensures SameStatics(s.before, s.after) && SameStatics(s.before, Reset(s.after))
  {
    StaticsFrozen(h, s.event, s.before, Active(s.before, [], []), s.steps);
    LastActive(h, s.event, s.before, Active(s.before, [], []), s.steps);
  }

  // A response is given in a state that satisfies the invariant.
  lemma {:induction false} LastActive(h: Handler, event: seq<char>, p0: Proc, a: Activation, n: nat)
    requires a.Active? && Sound(p0, a)
    ensures var b := Steps(h, event, a, n);
      b.Stopped? && b.outcome.Response? ==>
        b.q.Valid() && b.q.requests.base == p0.requests.base && b.q.requests.limit == p0.requests.limit
    decreases n
  {
    if n > 0 {
      TakeSound(h, event, p0, a);
      var b := Take(h, event, a);
      if b.Active? {
        LastActive(h, event, p0, b, n - 1);
      }
    }
  }

  // In two sessions from the same frozen state, whatever was served before, the
  // same event gets the same response.
  lemma SameEventSameResponse(h: Handler, p0: Proc, log: seq<Served>, i: nat, log2: seq<Served>, j: nat)
    requires ReadyToServe(p0) && Session(h, p0, log) && Session(h, p0, log2)
    requires i < |log| && j < |log2| && log[i].event == log2[j].event
    ensures log[i].text == log2[j].text
  {
    AtEveryPoll(h, p0, log, i);
    AtEveryPoll(h, p0, log2, j);
    var s, t := log[i], log2[j];
    var a, b := Active(s.before, [], []), Active(t.before, [], []);
    forall k | s.before.InStatics(k)
      ensures s.before.Word(k) == t.before.Word(k)
    {
      assert p0.Word(k) == s.before.Word(k) && p0.Word(k) == t.before.Word(k);
    }
    StepsAlike(h, s.event, p0, a, b, s.steps);
    if s.steps <= t.steps {
      StepsMore(h, s.event, b, s.steps, t.steps);
    } else {
      StepsMore(h, s.event, b, t.steps, s.steps);
    }
  }
}
