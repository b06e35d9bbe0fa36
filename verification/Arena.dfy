// The bump allocator.

module Arena {
  import opened Wrappers
  import opened MachineInt

  // ----- bit tricks -----

  // (size + 7) & ~7, ~7 being -8 in two's complement.
  function RoundUp(size: nat): int {
    PythonBits(AndBits, size + 7, -8)
  }

  lemma {:induction false} AndOnes(x: int)
    ensures PythonBits(AndBits, x, -1) == x
    decreases Abs(x)
  {
    if x != 0 && x != -1 {
      AndOnes(x / 2);
    }
  }

  // The least multiple of 8 that is not below the size.
  lemma RoundUpIs(size: nat)
    ensures RoundUp(size) % 8 == 0 && size <= RoundUp(size) < size + 8
  {
    hide PythonBits;
    var x := size + 7;
    AndEven(x, 4);
    AndEven(x / 2, 2);
    AndEven(x / 2 / 2, 1);
    var c := x / 2 / 2 / 2;
    AndOnes(c);
    Eighth(x);
    assert RoundUp(size) == 8 * c;
  }

  lemma Eighth(x: nat)
    ensures var c := x / 2 / 2 / 2; 8 * c <= x < 8 * c + 8 && (8 * c) % 8 == 0
  {
  }

  lemma AndEven(x: nat, c: nat)
    requires c > 0
    ensures PythonBits(AndBits, x, -2 * c) == 2 * PythonBits(AndBits, x / 2, 0 - c)
  {
    var b := -2 * c;
    assert b % 2 == 0 && b / 2 == 0 - c;
  }

  // ----- the allocator -----

  datatype Bump = Bump(base: nat, cursor: nat, limit: nat) {
    predicate Valid() {
      base % 8 == 0 && cursor % 8 == 0 && base <= cursor <= limit
    }
  }

  datatype Block = Block(at: nat, size: nat)

  // None: the arena is exhausted and the process exits.
  function Alloc(a: Bump, size: nat): Option<(nat, Bump)> {
    RoundUpIs(size);
    var rounded := RoundUp(size);
    if a.cursor + rounded > a.limit then None
    else Some((a.cursor, a.(cursor := a.cursor + rounded)))
  }

  class ArenaCell {
    var base: nat
    var cursor: nat
    var limit: nat

    ghost function State(): Bump
      reads this
    {
      Bump(base, cursor, limit)
    }

    // mmap hands out page-aligned memory.
    constructor Init(at: nat, capacity: nat)
      requires at % 4096 == 0
      ensures State() == Bump(at, at, at + capacity) && State().Valid()
    {
      base, cursor, limit := at, at, at + capacity;
    }

    method ArenaAlloc(size: nat) returns (p: Option<nat>)
      modifies this`cursor
      ensures match Alloc(old(State()), size)
        case None => p == None && State() == old(State())
        case Some((at, a)) => p == Some(at) && State() == a
    {
      RoundUpIs(size);
      var rounded := RoundUp(size);
      if cursor + rounded > limit {
        return None;
      }
      p := Some(cursor);
      cursor := cursor + rounded;
    }

    method ArenaReset()
      modifies this`cursor
      ensures State() == old(State()).(cursor := old(base))
    {
      cursor := base;
    }
  }

  // ----- whole sequences of allocations -----

  // The blocks handed out for a sequence of sizes, up to exhaustion.
  function Blocks(a: Bump, sizes: seq<nat>): seq<Block>
    decreases sizes
  {
    if sizes == [] then []
    else
      match Alloc(a, sizes[0])
      case None => []
      case Some((at, b)) => [Block(at, sizes[0])] + Blocks(b, sizes[1..])
  }

  // The arena behind these allocations, None if it was exhausted.
  function After(a: Bump, sizes: seq<nat>): Option<Bump>
    decreases sizes
  {
    if sizes == [] then Some(a)
    else
      match Alloc(a, sizes[0])
      case None => None
      case Some((_, b)) => After(b, sizes[1..])
  }

  lemma {:induction false} BlocksSnoc(a: Bump, sizes: seq<nat>, size: nat)
    requires After(a, sizes).Some? && Alloc(After(a, sizes).value, size).Some?
    ensures var (at, b) := Alloc(After(a, sizes).value, size).value;
      After(a, sizes + [size]) == Some(b) && Blocks(a, sizes + [size]) == Blocks(a, sizes) + [Block(at, size)]
    decreases sizes
  {
    hide Alloc;
    if sizes == [] {
      assert [size][1..] == [];
      assert Blocks(After(a, []).value, [size][1..]) == [];
    } else {
      assert (sizes + [size])[1..] == sizes[1..] + [size];
      BlocksSnoc(Alloc(a, sizes[0]).value.1, sizes[1..], size);
    }
  }

  // The bytes that allocations of these sizes take, in whole words.
  function Taken(sizes: seq<nat>): nat {
    if sizes == [] then 0 else Taken(sizes[..|sizes| - 1]) + 8 * ((sizes[|sizes| - 1] + 7) / 8)
  }

  lemma {:induction false} TakenCons(size: nat, sizes: seq<nat>)
    ensures Taken([size] + sizes) == 8 * ((size + 7) / 8) + Taken(sizes)
  {
    var all := [size] + sizes;
    if sizes == [] {
      assert all[..0] == [] && all == [size];
    } else {
      var n := |sizes| - 1;
      TakenCons(size, sizes[..n]);
      assert all[..n + 1] == [size] + sizes[..n] && all[n + 1] == sizes[n];
    }
  }

  lemma AllocIs(a: Bump, size: nat)
    ensures var taken := 8 * ((size + 7) / 8);
      Alloc(a, size) == if a.cursor + taken <= a.limit then Some((a.cursor, a.(cursor := a.cursor + taken))) else None
  {
    hide RoundUp;
    RoundUpIs(size);
    WordsUnique(size, RoundUp(size));
  }

  lemma WordsUnique(size: nat, r: nat)
    requires r % 8 == 0 && size <= r < size + 8
    ensures r == 8 * ((size + 7) / 8)
  {
    assert r == 8 * (r / 8);
    Eighths(size + 7, r / 8);
  }

  lemma Eighths(x: nat, q: nat)
    requires 8 * q <= x < 8 * q + 8
    ensures x / 8 == q
  {
  }

  // For all sizes: allocation number i succeeds exactly if what it and those
  // before it take fits, and its block is right behind theirs.
  lemma {:induction false} BlocksIff(a: Bump, sizes: seq<nat>, i: nat)
    requires i < |sizes| && a.cursor <= a.limit
    ensures i < |Blocks(a, sizes)| <==> a.cursor + Taken(sizes[..i + 1]) <= a.limit
    ensures i < |Blocks(a, sizes)| ==> Blocks(a, sizes)[i] == Block(a.cursor + Taken(sizes[..i]), sizes[i])
    decreases i
  {
    hide Alloc;
    AllocIs(a, sizes[0]);
    assert sizes[..i + 1] == [sizes[0]] + sizes[1..][..i];
    TakenCons(sizes[0], sizes[1..][..i]);
    if i > 0 {
      assert sizes[..i] == [sizes[0]] + sizes[1..][..i - 1];
      TakenCons(sizes[0], sizes[1..][..i - 1]);
      if Alloc(a, sizes[0]).Some? {
        BlocksIff(Alloc(a, sizes[0]).value.1, sizes[1..], i - 1);
      }
    } else {
      assert sizes[1..][..0] == [] && Taken([]) == 0;
    }
  }

  // The arena is not exhausted by them exactly if all of them fit.
  lemma {:induction false} AfterIff(a: Bump, sizes: seq<nat>)
    requires a.cursor <= a.limit
    ensures After(a, sizes) ==
      if a.cursor + Taken(sizes) <= a.limit then Some(a.(cursor := a.cursor + Taken(sizes))) else None
    decreases sizes
  {
    hide Alloc;
    if sizes != [] {
      AllocIs(a, sizes[0]);
      TakenCons(sizes[0], sizes[1..]);
      assert sizes == [sizes[0]] + sizes[1..];
      if Alloc(a, sizes[0]).Some? {
        AfterIff(Alloc(a, sizes[0]).value.1, sizes[1..]);
      }
    }
  }

  predicate Disjoint(x: Block, y: Block) {
    x.at + x.size <= y.at || y.at + y.size <= x.at
  }

  // Aligned, and between the cursor and the limit.
  predicate Inside(a: Bump, x: Block) {
    x.at % 8 == 0 && a.cursor <= x.at && x.at + x.size <= a.limit
  }

  predicate AllSafe(a: Bump, bs: seq<Block>) {
    && (forall i :: 0 <= i < |bs| ==> Inside(a, bs[i]))
    && (forall i, j :: 0 <= i < j < |bs| ==> Disjoint(bs[i], bs[j]))
  }

  // From a valid arena all blocks are aligned, lie between the cursor and the
  // limit, and are pairwise disjoint.
  lemma {:induction false} BlocksSafe(a: Bump, sizes: seq<nat>)
    requires a.Valid()
    ensures AllSafe(a, Blocks(a, sizes))
    decreases sizes
  {
    hide RoundUp;
    if sizes != [] && Alloc(a, sizes[0]).Some? {
      var (at, b) := Alloc(a, sizes[0]).value;
      RoundUpIs(sizes[0]);
      BlocksSafe(b, sizes[1..]);
      SafeCons(a, b, Block(at, sizes[0]), Blocks(b, sizes[1..]));
    }
  }

  lemma SafeCons(a: Bump, b: Bump, x: Block, rest: seq<Block>)
    requires AllSafe(b, rest) && Inside(a, x) && x.at + x.size <= b.cursor
    requires a.cursor <= b.cursor && b.limit == a.limit
    ensures AllSafe(a, [x] + rest)
  {
    var bs := [x] + rest;
    forall i | 0 <= i < |bs|
      ensures Inside(a, bs[i]) && (i > 0 ==> bs[i] == rest[i - 1] && Disjoint(x, bs[i]))
    {
      if i > 0 {
        assert Inside(b, rest[i - 1]);
      }
    }
  }

  // One more block, behind all others.
  lemma SafeSnoc(a: Bump, bs: seq<Block>, x: Block, limit: nat)
    requires AllSafe(a, bs) && x.at % 8 == 0 && a.cursor <= a.limit <= x.at && x.at + x.size <= limit
    ensures AllSafe(a.(limit := limit), bs + [x])
  {
    var more := bs + [x];
    forall i | 0 <= i < |more|
      ensures Inside(a.(limit := limit), more[i]) && (i < |bs| ==> Disjoint(more[i], x))
    {
      if i < |bs| {
        assert more[i] == bs[i] && Inside(a, bs[i]);
      }
    }
  }
}
