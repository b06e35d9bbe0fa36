// Dominance in the block language: a temporary is defined before it is used on
// every path through the graph, taken or not.  A certificate that gives, for
// each block, what is defined on entry to it settles this for all paths.

module Dominance {
  import opened BlockIr

  // ----- definitions, uses and paths -----

  function OperandTemps(o: Operand): set<nat> {
    if o.Tmp? then {o.t} else {}
  }

  function Uses(i: Instr): set<nat> {
    match i
    case Alloca(_, _) => {}
    case StoreI(val, addr) => OperandTemps(val) + OperandTemps(addr)
    case Load(_, addr) => OperandTemps(addr)
    case Gep(_, base, index) => OperandTemps(base) + OperandTemps(index)
    case BinI(_, _, l, r) => OperandTemps(l) + OperandTemps(r)
    case Icmp(_, _, l, r) => OperandTemps(l) + OperandTemps(r)
    case CondBr(cond, _, _) => OperandTemps(cond)
    case Ret(result) => OperandTemps(result)
    case _ => {}
  }

  function Defines(i: Instr): set<nat> {
    if i.Alloca? || i.Load? || i.Gep? || i.BinI? || i.Icmp? then {i.dst} else {}
  }

  function Successors(i: Instr): set<nat> {
    if i.Br? then {i.target} else if i.CondBr? then {i.yes, i.no} else {}
  }

  // Temporaries defined once `code` has run, d being those defined before.
  function Defined(d: set<nat>, code: Block): set<nat> {
    if code == [] then d
    else Defined(d, code[..|code| - 1]) + Defines(code[|code| - 1])
  }

  // A path through the graph, block by block, from the entry.
  predicate Path(p: seq<Block>, path: seq<nat>) {
    && |path| > 0 && path[0] == 0
    && (forall i :: 0 <= i < |path| ==> path[i] < |p|)
    && forall i :: 0 < i < |path| ==> Edge(p, path[i - 1], path[i])
  }

  function EndOf(path: seq<nat>): nat
    requires path != []
  {
    path[|path| - 1]
  }

  predicate Edge(p: seq<Block>, a: nat, b: nat) {
    a < |p| && exists k :: 0 <= k < |p[a]| && b in Successors(p[a][k])
  }

  // What is defined on arrival at the last block of the path.
  function DefinedOn(p: seq<Block>, path: seq<nat>): set<nat>
    requires Path(p, path)
  {
    if |path| == 1 then {}
    else
      PathPrefix(p, path);
      Defined(DefinedOn(p, path[..|path| - 1]), p[path[|path| - 2]])
  }

  lemma PathPrefix(p: seq<Block>, path: seq<nat>)
    requires Path(p, path) && |path| > 1
    ensures Path(p, path[..|path| - 1])
  {
    var q := path[..|path| - 1];
    forall i | 0 < i < |q|
      ensures Edge(p, q[i - 1], q[i])
    {
      assert Edge(p, path[i - 1], path[i]);
    }
  }

  // ----- a certificate: what is defined on entry to each block -----

  predicate InstrOk(ins: seq<set<nat>>, d: set<nat>, i: Instr) {
    && Uses(i) <= d
    && forall b :: b in Successors(i) ==> b < |ins| && ins[b] <= d
  }

  predicate CodeOk(ins: seq<set<nat>>, d: set<nat>, code: Block) {
    forall k :: 0 <= k < |code| ==> InstrOk(ins, Defined(d, code[..k]), code[k])
  }

  predicate Certified(blocks: seq<Block>, ins: seq<set<nat>>) {
    && |ins| == |blocks|
    && forall b :: 0 <= b < |blocks| ==> CodeOk(ins, ins[b], blocks[b])
  }

  lemma {:induction false} DefinedAppend(d: set<nat>, xs: Block, ys: Block)
    ensures Defined(d, xs + ys) == Defined(Defined(d, xs), ys)
  {
    if ys == [] {
      assert xs + ys == xs;
    } else {
      assert (xs + ys)[..|xs + ys| - 1] == xs + ys[..|ys| - 1];
      DefinedAppend(d, xs, ys[..|ys| - 1]);
    }
  }

  lemma {:induction false} DefinedMono(d: set<nat>, e: set<nat>, code: Block, k: nat)
    requires d <= e && k <= |code|
    ensures d <= Defined(d, code)
    ensures Defined(d, code[..k]) <= Defined(e, code)
  {
    if code == [] {
    } else if k == |code| {
      assert code[..k] == code;
      DefinedMono(d, e, code[..|code| - 1], |code| - 1);
      assert code[..|code| - 1][..|code| - 1] == code[..|code| - 1];
    } else {
      DefinedMono(d, e, code[..|code| - 1], k);
      assert code[..|code| - 1][..k] == code[..k];
    }
  }

  lemma CodeOkAppend(ins: seq<set<nat>>, d: set<nat>, xs: Block, ys: Block)
    requires CodeOk(ins, d, xs) && CodeOk(ins, Defined(d, xs), ys)
    ensures CodeOk(ins, d, xs + ys)
  {
    forall k | 0 <= k < |xs + ys|
      ensures InstrOk(ins, Defined(d, (xs + ys)[..k]), (xs + ys)[k])
    {
      hide CodeOk, InstrOk, Defined;
      AppendedInstrOk(ins, d, xs, ys, k);
    }
  }

  lemma AppendedInstrOk(ins: seq<set<nat>>, d: set<nat>, xs: Block, ys: Block, k: nat)
    requires CodeOk(ins, d, xs) && CodeOk(ins, Defined(d, xs), ys) && k < |xs + ys|
    ensures InstrOk(ins, Defined(d, (xs + ys)[..k]), (xs + ys)[k])
  {
    hide InstrOk, Defined, CodeOk;
    if k < |xs| {
      assert (xs + ys)[..k] == xs[..k];
      CodeOkAt(ins, d, xs, k);
    } else {
      var j := k - |xs|;
      assert (xs + ys)[..k] == xs + ys[..j];
      DefinedAppend(d, xs, ys[..j]);
      CodeOkAt(ins, Defined(d, xs), ys, j);
    }
  }

  lemma CodeOkAt(ins: seq<set<nat>>, d: set<nat>, code: Block, k: nat)
    requires CodeOk(ins, d, code) && k < |code|
    ensures InstrOk(ins, Defined(d, code[..k]), code[k])
  {
  }

  lemma CodeOkOne(ins: seq<set<nat>>, d: set<nat>, xs: Block, i: Instr)
    requires CodeOk(ins, d, xs) && InstrOk(ins, Defined(d, xs), i)
    ensures CodeOk(ins, d, xs + [i])
    ensures Defined(d, xs + [i]) == Defined(d, xs) + Defines(i)
  {
    hide InstrOk;
    var e := Defined(d, xs);
    DefinedNothing(e);
    assert CodeOk(ins, e, [i]) by {
      hide Defined;
      assert [i][..0] == [];
    }
    hide CodeOk;
    CodeOkAppend(ins, d, xs, [i]);
    assert (xs + [i])[..|xs|] == xs;
  }

  lemma DefinedNothing(d: set<nat>)
    ensures Defined(d, []) == d
  {
  }

  // A certificate settles the matter for every path.
  lemma {:induction false} CertifiedPath(p: seq<Block>, ins: seq<set<nat>>, path: seq<nat>)
    requires Certified(p, ins) && Path(p, path) && ins[0] == {}
    ensures ins[EndOf(path)] <= DefinedOn(p, path)
  {
    if |path| > 1 {
      var n := |path|;
      PathPrefix(p, path);
      CertifiedPath(p, ins, path[..n - 1]);
      var a, b := path[n - 2], path[n - 1];
      assert Edge(p, path[(n - 1) - 1], path[n - 1]);
      var k :| 0 <= k < |p[a]| && b in Successors(p[a][k]);
      assert CodeOk(ins, ins[a], p[a]);
      assert InstrOk(ins, Defined(ins[a], p[a][..k]), p[a][k]);
      DefinedMono(ins[a], DefinedOn(p, path[..n - 1]), p[a], k);
    }
  }

  lemma CertifiedUse(p: seq<Block>, ins: seq<set<nat>>, path: seq<nat>, k: nat)
    requires Certified(p, ins) && |ins| > 0 && ins[0] == {}
    requires Path(p, path) && k < |p[EndOf(path)]|
    ensures var b := p[EndOf(path)]; Uses(b[k]) <= Defined(DefinedOn(p, path), b[..k])
  {
    hide Uses, DefinedOn;
    var b := EndOf(path);
    CertifiedPath(p, ins, path);
    assert CodeOk(ins, ins[b], p[b]);
    assert InstrOk(ins, Defined(ins[b], p[b][..k]), p[b][k]);
    DefinedMono(ins[b], DefinedOn(p, path), p[b][..k], k);
    assert p[b][..k][..k] == p[b][..k];
  }
}
