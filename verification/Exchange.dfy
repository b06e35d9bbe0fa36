// The exchange of a handler with memory, command by command, as the code sees
// it: where its objects are, what it loads, and when it gets no reply.  A
// process answers an event exactly if this exchange ends in the answer.

module Exchange {
  import opened Arena
  import opened Isolation

  // A command, and the word that the code gets back.
  datatype Turn = Turn(command: Command, reply: int)

  function Replies(turns: seq<Turn>): (r: seq<int>)
    ensures |r| == |turns|
  {
    seq(|turns|, i requires 0 <= i < |turns| => turns[i].reply)
  }

  // The reference count and the fields, 8 bytes each.
  function Bytes(fields: seq<int>): nat {
    8 + 8 * |fields|
  }

  // The bytes handed out with a tag.
  function Handed(turns: seq<Turn>, tag: Tag): nat {
    if turns == [] then 0
    else
      var last := turns[|turns| - 1].command;
      Handed(turns[..|turns| - 1], tag) + if last.New? && last.tag == tag then Bytes(last.fields) else 0
  }

  predicate Builds(turn: Turn, at: nat) {
    turn.command.New? && turn.reply <= at < turn.reply + Bytes(turn.command.fields)
  }

  // The word last written at an address by a construction, or what was there
  // before.
  function LastWritten(p: Proc, turns: seq<Turn>, at: nat): int {
    if turns == [] then p.Word(at)
    else
      var last := turns[|turns| - 1];
      if Builds(last, at) then
        if at == last.reply then 1
        else
          var k := (at - last.reply) / 8 - 1;
          if 0 <= k < |last.command.fields| then last.command.fields[k] else 0
      else LastWritten(p, turns[..|turns| - 1], at)
  }

  function Place(p: Proc, turns: seq<Turn>, tag: Tag): nat {
    Handed(turns, tag) + match tag
      case StaticTag => p.statics.cursor
      case ReqTag => p.requests.cursor
  }

  // The address lies in an object of the request arena.
  predicate Built(turns: seq<Turn>, at: nat) {
    exists i :: 0 <= i < |turns| && Builds(turns[i], at) && turns[i].command.tag.ReqTag?
  }

  // The command gets a reply: a new object fits into its arena, and is not put
  // into the frozen one; a load is aligned and goes to the static arena, as far
  // as it is handed out, or to an object constructed in this exchange.
  predicate Replied(p: Proc, turns: seq<Turn>, c: Command) {
    match c
    case New(StaticTag, fields) => !p.frozen && Place(p, turns, StaticTag) + Bytes(fields) <= p.statics.limit
    case New(ReqTag, fields) => Place(p, turns, ReqTag) + Bytes(fields) <= p.requests.limit
    case Load(at) =>
      at % 8 == 0 &&
      (|| p.statics.base <= at < Place(p, turns, StaticTag)
       || Built(turns, at))
    case Finish(_) => false
  }

  function ReplyTo(p: Proc, turns: seq<Turn>, c: Command): int {
    match c
    case New(tag, _) => Place(p, turns, tag)
    case Load(at) => LastWritten(p, turns, at)
    case Finish(_) => 0
  }

  // Each command is the handler's on the replies so far, and is replied to.
  ghost predicate Exchanged(h: Handler, event: seq<char>, p: Proc, turns: seq<Turn>) {
    forall i :: 0 <= i < |turns| ==>
      && turns[i].command == h(event, Replies(turns[..i]))
      && Replied(p, turns[..i], turns[i].command) && turns[i].reply == ReplyTo(p, turns[..i], turns[i].command)
  }

  // The handler's exchange with memory ends in t, after fewer than `budget`
  // commands.
  ghost predicate EndsIn(h: Handler, event: seq<char>, p: Proc, budget: nat, turns: seq<Turn>, t: seq<char>) {
    Exchanged(h, event, p, turns) && |turns| < budget && h(event, Replies(turns)) == Finish(t)
  }

  // ----- the steps of a process follow the exchange -----

  lemma {:induction false} StepsSnoc(h: Handler, event: seq<char>, a: Activation, n: nat)
    ensures Steps(h, event, a, n + 1) ==
      var b := Steps(h, event, a, n); if b.Active? then Take(h, event, b) else b
    decreases n
  {
    if n > 0 && a.Active? {
      StepsSnoc(h, event, Take(h, event, a), n - 1);
    }
  }

  // The activation that the turns have led to.
  ghost predicate Mirrors(p: Proc, turns: seq<Turn>, a: Activation) {
    && a.Active? && a.seen == Replies(turns)
    && a.p.statics == p.statics.(cursor := Place(p, turns, StaticTag))
    && a.p.requests == p.requests.(cursor := Place(p, turns, ReqTag))
    && a.p.frozen == p.frozen && Place(p, turns, StaticTag) % 8 == 0 && Place(p, turns, ReqTag) % 8 == 0
    && (forall k: nat :: k % 8 == 0 ==> a.p.Word(k) == LastWritten(p, turns, k))
    && (forall k: nat :: k % 8 == 0 ==> (InLive(a.live, k) <==> Built(turns, k)))
  }

  lemma MirrorsStart(p: Proc)
    requires p.Valid()
    ensures Mirrors(p, [], Active(p, [], []))
  {
  }

  // Whole words are not rounded.
  lemma WholeWords(n: nat)
    requires n % 8 == 0
    ensures RoundUp(n) == n
  {
    hide RoundUp;
    RoundUpIs(n);
    var r := RoundUp(n);
    assert r == 8 * (r / 8) && n == 8 * (n / 8);
  }

  lemma TurnSnoc(turns: seq<Turn>, t: Turn)
    ensures Replies(turns + [t]) == Replies(turns) + [t.reply]
    ensures (turns + [t])[..|turns|] == turns
    ensures forall tag :: (
      Handed(turns + [t], tag) ==
      Handed(turns, tag) + if t.command.New? && t.command.tag == tag then Bytes(t.command.fields) else 0)
  {
    assert (turns + [t])[..|turns|] == turns;
  }

  // A command of the handler: replied to exactly if the process goes on, and
  // then the two stay in step.
  lemma TakeTurn(h: Handler, event: seq<char>, p: Proc, turns: seq<Turn>, a: Activation)
    requires Mirrors(p, turns, a)
    ensures var c := h(event, a.seen);
      && (c.Finish? ==> Take(h, event, a) == Stopped(Response(c.response), a.p) && !Replied(p, turns, c))
      && (!c.Finish? ==> (Take(h, event, a).Active? <==> Replied(p, turns, c)))
      && (!Replied(p, turns, c) && !c.Finish? ==> !Take(h, event, a).outcome.Response?)
      && (Replied(p, turns, c) ==> Mirrors(p, turns + [Turn(c, ReplyTo(p, turns, c))], Take(h, event, a)))
  {
    hide RoundUp, Construct, Handed, LastWritten;
    var c := h(event, a.seen);
    if c.New? {
      WholeWords(ObjectSize(c.fields));
    }
    if Replied(p, turns, c) {
      if c.Load? {
        LoadMirrors(h, event, p, turns, a);
      } else {
        NewMirrors(h, event, p, turns, a);
      }
    }
  }

  lemma LoadMirrors(h: Handler, event: seq<char>, p: Proc, turns: seq<Turn>, a: Activation)
    requires Mirrors(p, turns, a) && h(event, a.seen).Load? && Replied(p, turns, h(event, a.seen))
    ensures var c := h(event, a.seen); Mirrors(p, turns + [Turn(c, ReplyTo(p, turns, c))], Take(h, event, a))
  {
    hide Handed, Built, InLive, LastWritten;
    var c := h(event, a.seen);
    var t := Turn(c, ReplyTo(p, turns, c));
    TurnSnoc(turns, t);
    forall k: nat | k % 8 == 0
      ensures LastWritten(p, turns + [t], k) == LastWritten(p, turns, k)
      ensures Built(turns + [t], k) <==> Built(turns, k)
    {
      LoadKeeps(p, turns, t, k);
      BuiltSnoc(turns, t, k);
    }
  }

  lemma LoadKeeps(p: Proc, turns: seq<Turn>, t: Turn, k: nat)
    requires t.command.Load?
    ensures LastWritten(p, turns + [t], k) == LastWritten(p, turns, k)
  {
    assert (turns + [t])[..|turns|] == turns;
  }

  lemma BuiltSnoc(turns: seq<Turn>, t: Turn, k: nat)
    ensures Built(turns + [t], k) <==> Built(turns, k) || (Builds(t, k) && t.command.tag.ReqTag?)
  {
    var more := turns + [t];
    assert more[|turns|] == t;
    if Built(turns, k) {
      var i :| 0 <= i < |turns| && Builds(turns[i], k) && turns[i].command.tag.ReqTag?;
      assert more[i] == turns[i];
    }
  }

  // What a construction does to the process.
  lemma NewTaken(h: Handler, event: seq<char>, p: Proc, turns: seq<Turn>, a: Activation)
    requires Mirrors(p, turns, a) && h(event, a.seen).New? && Replied(p, turns, h(event, a.seen))
    ensures var c, b := h(event, a.seen), Take(h, event, a);
      var at := Place(p, turns, c.tag);
      && b.Active? && b.seen == a.seen + [at] && b.p.frozen == a.p.frozen
      && b.p.words == Construct(a.p.words, at, c.fields)
      && (match c.tag
          case StaticTag =>
            && b.live == a.live && b.p.requests == a.p.requests
            && b.p.statics == a.p.statics.(cursor := at + Bytes(c.fields))
          case ReqTag =>
            && b.live == a.live + [Block(at, Bytes(c.fields))] && b.p.statics == a.p.statics
            && b.p.requests == a.p.requests.(cursor := at + Bytes(c.fields)))
  {
    hide Handed, RoundUp, Construct, LastWritten, InLive, Built;
    WholeWords(ObjectSize(h(event, a.seen).fields));
  }

  lemma NewMirrors(h: Handler, event: seq<char>, p: Proc, turns: seq<Turn>, a: Activation)
    requires Mirrors(p, turns, a) && h(event, a.seen).New? && Replied(p, turns, h(event, a.seen))
    ensures var c := h(event, a.seen); Mirrors(p, turns + [Turn(c, ReplyTo(p, turns, c))], Take(h, event, a))
  {
    hide Handed, Construct, Take, LastWritten, Builds, Built, InLive;
    var c := h(event, a.seen);
    var t := Turn(c, ReplyTo(p, turns, c));
    var b := Take(h, event, a);
    NewTaken(h, event, p, turns, a);
    TurnSnoc(turns, t);
    forall k: nat | k % 8 == 0
      ensures b.p.Word(k) == LastWritten(p, turns + [t], k)
      ensures InLive(b.live, k) <==> Built(turns + [t], k)
    {
      WordSnoc(p, turns, t, a.p, b.p, k);
      BuiltSnoc(turns, t, k);
      if c.tag.ReqTag? {
        LiveSnoc(a.live, Block(t.reply, Bytes(c.fields)), k);
        BlockBuilt(t, k);
      }
    }
  }

  lemma BlockBuilt(t: Turn, k: nat)
    requires t.command.New? && t.reply >= 0 && k % 8 == 0
    ensures InBlock(Block(t.reply, Bytes(t.command.fields)), k) <==> Builds(t, k)
  {
  }

  lemma WordSnoc(p: Proc, turns: seq<Turn>, t: Turn, q: Proc, r: Proc, k: nat)
    requires t.command.New? && t.reply >= 0 && t.reply % 8 == 0 && k % 8 == 0
    requires r.words == Construct(q.words, t.reply, t.command.fields) && q.Word(k) == LastWritten(p, turns, k)
    ensures r.Word(k) == LastWritten(p, turns + [t], k)
  {
    hide Construct;
    assert (turns + [t])[..|turns|] == turns;
    ConstructWrites(q.words, t.reply, t.command.fields, k);
  }

  lemma LiveSnoc(live: seq<Block>, b: Block, k: nat)
    ensures InLive(live + [b], k) <==> InLive(live, k) || InBlock(b, k)
  {
    assert (live + [b])[|live|] == b;
    if InLive(live, k) {
      var i :| 0 <= i < |live| && InBlock(live[i], k);
      assert (live + [b])[i] == live[i];
    }
  }

  lemma ExchangedSnoc(h: Handler, event: seq<char>, p: Proc, turns: seq<Turn>, t: Turn)
    ensures Exchanged(h, event, p, turns + [t]) <==>
      && Exchanged(h, event, p, turns) && t.command == h(event, Replies(turns))
      && Replied(p, turns, t.command) && t.reply == ReplyTo(p, turns, t.command)
  {
    hide Replied, ReplyTo, Replies;
    var more := turns + [t];
    assert more[..|turns|] == turns && more[|turns|] == t;
    forall i | 0 <= i < |turns|
      ensures more[i] == turns[i] && more[..i] == turns[..i]
    {
    }
  }

  // Any exchange is what the process does.
  lemma {:induction false} ExchangeRuns(h: Handler, event: seq<char>, p: Proc, turns: seq<Turn>)
    requires p.Valid() && Exchanged(h, event, p, turns)
    ensures Mirrors(p, turns, Steps(h, event, Active(p, [], []), |turns|))
    decreases |turns|
  {
    hide Mirrors, Take, Replied, ReplyTo;
    if turns == [] {
      MirrorsStart(p);
    } else {
      var n := |turns| - 1;
      var before, t := turns[..n], turns[n];
      assert turns == before + [t];
      ExchangedSnoc(h, event, p, before, t);
      ExchangeRuns(h, event, p, before);
      var a := Steps(h, event, Active(p, [], []), n);
      StepsSnoc(h, event, Active(p, [], []), n);
      MirrorsSeen(p, before, a);
      TakeTurn(h, event, p, before, a);
    }
  }

  lemma MirrorsSeen(p: Proc, turns: seq<Turn>, a: Activation)
    requires Mirrors(p, turns, a)
    ensures a.Active? && a.seen == Replies(turns)
  {
  }

  // As long as the process runs, there is an exchange; and it answers with what
  // the exchange ends in.
  lemma {:induction false} RunsExchange(h: Handler, event: seq<char>, p: Proc, n: nat) returns (turns: seq<Turn>)
    requires p.Valid()
    ensures Exchanged(h, event, p, turns)
    ensures var b := Steps(h, event, Active(p, [], []), n);
      && (b.Active? ==> |turns| == n && Mirrors(p, turns, b))
      && (b.Stopped? && b.outcome.Response? ==>
            |turns| < n && h(event, Replies(turns)) == Finish(b.outcome.text))
    decreases n
  {
    hide Mirrors, Take, Replied, ReplyTo;
    if n == 0 {
      turns := [];
      MirrorsStart(p);
    } else {
      turns := RunsExchange(h, event, p, n - 1);
      var a := Steps(h, event, Active(p, [], []), n - 1);
      StepsSnoc(h, event, Active(p, [], []), n - 1);
      if a.Active? {
        MirrorsSeen(p, turns, a);
        TakeTurn(h, event, p, turns, a);
        var c := h(event, a.seen);
        if Replied(p, turns, c) {
          ExchangedSnoc(h, event, p, turns, Turn(c, ReplyTo(p, turns, c)));
          turns := turns + [Turn(c, ReplyTo(p, turns, c))];
        }
      }
    }
  }

  // A process gives the response t within the budget if and only if the
  // handler's exchange with its memory ends in t.
  lemma RespondsIff(h: Handler, event: seq<char>, p: Proc, budget: nat, t: seq<char>)
    requires p.Valid()
    ensures var b := Steps(h, event, Active(p, [], []), budget);
      (b.Stopped? && b.outcome == Response(t)) <==> exists turns :: EndsIn(h, event, p, budget, turns, t)
  {
    hide Take, Replied, ReplyTo, Exchanged, Mirrors;
    var start := Active(p, [], []);
    var b := Steps(h, event, start, budget);
    if b.Stopped? && b.outcome == Response(t) {
      var turns := RunsExchange(h, event, p, budget);
      assert EndsIn(h, event, p, budget, turns, t);
    }
    if turns :| EndsIn(h, event, p, budget, turns, t) {
      ExchangeRuns(h, event, p, turns);
      var a := Steps(h, event, start, |turns|);
      MirrorsSeen(p, turns, a);
      TakeTurn(h, event, p, turns, a);
      StepsSnoc(h, event, start, |turns|);
      StepsMore(h, event, start, |turns| + 1, budget);
    }
  }
}
