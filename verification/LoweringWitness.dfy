// The other half of the dominance condition: where a name is not safe in the
// source, some path through the emitted graph gets there without the alloca
// that the name stands for, so the code is safe only if the names are.

module LoweringWitness {
  import opened Wrappers
  import opened MachineInt
  import opened PieSource
  import opened BlockIr
  import opened Lowering
  import opened LoweringForm
  import opened LoweringExact
  import opened NameSafety
  import opened Dominance
  import opened LoweringDominance

  // ----- paths to the generator's position -----

  // What a path to the generator's block has defined once the code so far ran.
  function Here(p: seq<Block>, g: Gen, path: seq<nat>): set<nat>
    requires Path(p, path) && g.Valid()
  {
    Defined(DefinedOn(p, path), g.blocks[g.cur])
  }

  // A path that never defines t, nor any temporary not yet handed out.
  predicate Route(p: seq<Block>, g: Gen, path: seq<nat>, t: nat)
    requires g.Valid()
  {
    && Path(p, path) && EndOf(path) == g.cur
    && t !in Here(p, g, path) && Here(p, g, path) <= Below(g.next)
  }

  ghost predicate Avoids(p: seq<Block>, g: Gen, t: nat)
    requires g.Valid()
  {
    exists path :: Route(p, g, path, t)
  }

  // Every slot that the names are not sure of can be avoided.
  ghost predicate Witnessed(p: seq<Block>, g: Gen, r: Reach)
    requires g.Valid()
  {
    r.Live? ==>
      && Avoids(p, g, g.next)
      && forall x :: x in g.scope && x !in r.safe ==> Avoids(p, g, g.scope[x].ptr)
  }

  // A reachable position can be reached without any later temporary.
  lemma AvoidsLater(p: seq<Block>, g: Gen, t: nat, u: nat)
    requires g.Valid() && Avoids(p, g, t) && u >= g.next
    ensures Avoids(p, g, u)
  {
    hide Here, Path;
    var path :| Route(p, g, path, t);
    assert Route(p, g, path, u);
  }

  // What code defines, added to what was defined before.
  lemma {:induction false} DefinedIn(d: set<nat>, code: Block)
    ensures Defined(d, code) == d + Defined({}, code)
  {
    if code != [] {
      DefinedIn(d, code[..|code| - 1]);
    }
  }

  // Code that defines only the temporaries from n to m.
  predicate DefinesFrom(code: Block, n: nat, m: nat) {
    forall t :: t in Defined({}, code) ==> n <= t < m
  }

  lemma DefinesAppend(xs: Block, ys: Block, n: nat, m: nat, k: nat)
    requires n <= m <= k && DefinesFrom(xs, n, m) && DefinesFrom(ys, m, k)
    ensures DefinesFrom(xs + ys, n, k)
  {
    hide Defined;
    DefinedAppend({}, xs, ys);
    DefinedIn(Defined({}, xs), ys);
  }

  lemma DefinesOne(i: Instr, n: nat, m: nat)
    requires forall t :: t in Defines(i) ==> n <= t < m
    ensures DefinesFrom([i], n, m)
  {
    assert [i][..0] == [];
    DefinedNothing({});
  }

  lemma DefinesNone(n: nat, m: nat)
    ensures DefinesFrom([], n, m)
  {
  }

  lemma DefinesPrefix(code: Block, k: nat, n: nat, m: nat)
    requires DefinesFrom(code, n, m) && k <= |code|
    ensures DefinesFrom(code[..k], n, m)
  {
    DefinedMono({}, {}, code, k);
  }

  // Going on in the same block.
  lemma EmitAvoids(p: seq<Block>, g: Gen, instrs: seq<Instr>, next': nat, t: nat)
    requires g.Valid() && g.next <= next' && DefinesFrom(instrs, g.next, next')
    requires Avoids(p, g, t) && (t < g.next || next' <= t)
    ensures Avoids(p, Emit(g, instrs).(next := next'), t)
  {
    hide Defined, Path, DefinedOn;
    var g' := Emit(g, instrs).(next := next');
    var path :| Route(p, g, path, t);
    var d := DefinedOn(p, path);
    DefinedAppend(d, g.blocks[g.cur], instrs);
    DefinedIn(Here(p, g, path), instrs);
    assert Route(p, g', path, t);
  }

  lemma EmitWitnessed(p: seq<Block>, g: Gen, instrs: seq<Instr>, next': nat, r: Reach)
    requires g.Valid() && g.next <= next' && DefinesFrom(instrs, g.next, next')
    requires Witnessed(p, g, r) && ScopeBelow(g.scope, g.next)
    ensures Witnessed(p, Emit(g, instrs).(next := next'), r)
  {
    hide Avoids, DefinesFrom;
    var g' := Emit(g, instrs).(next := next');
    if r.Live? {
      AvoidsLater(p, g, g.next, next');
      EmitAvoids(p, g, instrs, next', next');
      forall x | x in g'.scope && x !in r.safe
        ensures Avoids(p, g', g'.scope[x].ptr)
      {
        EmitAvoids(p, g, instrs, next', g.scope[x].ptr);
      }
    }
  }

  // A slot that can be avoided is not used by code whose uses are defined.
  lemma UseNotAvoided(p: seq<Block>, g: Gen, instrs: seq<Instr>, k: nat, t: nat, m: nat)
    requires g.Valid() && UsesDefined(p) && Extends(p, Emit(g, instrs).blocks)
    requires k < |instrs| && t in Uses(instrs[k]) && t < g.next && DefinesFrom(instrs, g.next, m)
    ensures !Avoids(p, g, t)
  {
    hide Defined, DefinedOn, Uses, Extends;
    if Avoids(p, g, t) {
      var path :| Route(p, g, path, t);
      var n := |g.blocks[g.cur]|;
      var b := p[g.cur];
      EmittedPrefix(p, g, instrs);
      assert b[n + k] == (g.blocks[g.cur] + instrs)[n + k] == instrs[k];
      assert UseDefined(p, path, n + k);
      assert b[..n + k] == g.blocks[g.cur] + instrs[..k];
      DefinedAppend(DefinedOn(p, path), g.blocks[g.cur], instrs[..k]);
      DefinedIn(Here(p, g, path), instrs[..k]);
      DefinesPrefix(instrs, k, g.next, m);
      assert false;
    }
  }

  lemma EmittedPrefix(p: seq<Block>, g: Gen, instrs: seq<Instr>)
    requires g.Valid() && Extends(p, Emit(g, instrs).blocks)
    ensures g.cur < |p| && g.blocks[g.cur] + instrs <= p[g.cur]
  {
    assert Emit(g, instrs).blocks[g.cur] == g.blocks[g.cur] + instrs;
  }

  // ----- expressions -----

  // The code of an expression defines the temporaries it is given.
  lemma {:induction false} ExprDefines(scope: Scope, n: nat, e: Expr)
    requires ExprCode(scope, n, e).Ok?
    ensures DefinesFrom(ExprCode(scope, n, e).value.instrs, n, ExprCode(scope, n, e).value.next)
    decreases e, 0
  {
    hide DefinesFrom, AddressExpr;
    DefinesNone(n, n);
    match e
    case Const(_) =>
    case Name(id) =>
      if scope[id].ty.IntTy? {
        DefinesOne(Load(n, Tmp(scope[id].ptr)), n, n + 1);
      }
    case Binary(_, l, r) =>
      var a := ExprCode(scope, n, l).value;
      var b := ExprCode(scope, a.next, r).value;
      ExprDefines(scope, n, l);
      ExprDefines(scope, a.next, r);
      DefinesAppend(a.instrs, b.instrs, n, a.next, b.next);
      LastDefines(Code(a.instrs + b.instrs, b.opd, b.next), n, ExprCode(scope, n, e).value);
    case Unary(op, x) =>
      var a := ExprCode(scope, n, x).value;
      ExprDefines(scope, n, x);
      if !op.UAdd? {
        LastDefines(a, n, ExprCode(scope, n, e).value);
      }
    case Subscript(arr, index) =>
      ElementDefines(scope, n, arr, index);
      LastDefines(ElementCode(scope, n, arr, index).value, n, ExprCode(scope, n, e).value);
  }

  lemma LastDefines(a: Code, n: nat, b: Code)
    requires n <= a.next && DefinesFrom(a.instrs, n, a.next) && b.next == a.next + 1
    requires |b.instrs| == |a.instrs| + 1 && b.instrs[..|a.instrs|] == a.instrs
    requires forall t :: t in Defines(b.instrs[|a.instrs|]) ==> t == a.next
    ensures DefinesFrom(b.instrs, n, b.next)
  {
    var i := b.instrs[|a.instrs|];
    assert b.instrs == a.instrs + [i];
    DefinesOne(i, a.next, b.next);
    DefinesAppend(a.instrs, [i], n, a.next, b.next);
  }

  lemma {:induction false} ElementDefines(scope: Scope, n: nat, arr: string, index: Expr)
    requires ElementCode(scope, n, arr, index).Ok?
    ensures DefinesFrom(ElementCode(scope, n, arr, index).value.instrs, n, ElementCode(scope, n, arr, index).value.next)
    decreases index, 1
  {
    hide DefinesFrom;
    ExprDefines(scope, n, index);
    LastDefines(ExprCode(scope, n, index).value, n, ElementCode(scope, n, arr, index).value);
  }

  lemma CondDefines(scope: Scope, n: nat, c: Cond)
    requires CondCode(scope, n, c).Ok?
    ensures DefinesFrom(CondCode(scope, n, c).value.instrs, n, CondCode(scope, n, c).value.next)
  {
    hide DefinesFrom;
    var a := ExprCode(scope, n, c.left).value;
    var b := ExprCode(scope, a.next, c.right).value;
    ExprDefines(scope, n, c.left);
    ExprDefines(scope, a.next, c.right);
    DefinesAppend(a.instrs, b.instrs, n, a.next, b.next);
    LastDefines(Code(a.instrs + b.instrs, b.opd, b.next), n, CondCode(scope, n, c).value);
  }

  // The slot of each name is used by some instruction.
  predicate UsesSlots(scope: Scope, names: set<string>, instrs: seq<Instr>) {
    forall x :: x in names ==> x in scope && UsedIn(scope[x].ptr, instrs)
  }

  predicate UsedIn(t: nat, instrs: seq<Instr>) {
    exists k :: 0 <= k < |instrs| && t in Uses(instrs[k])
  }

  lemma UsedAppend(scope: Scope, names: set<string>, xs: seq<Instr>, ys: seq<Instr>)
    requires UsesSlots(scope, names, xs) || UsesSlots(scope, names, ys)
    ensures UsesSlots(scope, names, xs + ys)
  {
    hide Uses;
    forall x | x in names
      ensures x in scope && UsedIn(scope[x].ptr, xs + ys)
    {
      if UsesSlots(scope, names, xs) {
        assert UsedIn(scope[x].ptr, xs);
        var k :| 0 <= k < |xs| && scope[x].ptr in Uses(xs[k]);
        assert (xs + ys)[k] == xs[k];
      } else {
        assert UsedIn(scope[x].ptr, ys);
        var k :| 0 <= k < |ys| && scope[x].ptr in Uses(ys[k]);
        assert (xs + ys)[|xs| + k] == ys[k];
      }
    }
  }

  lemma UsedOne(scope: Scope, x: string, i: Instr)
    requires x in scope && scope[x].ptr in Uses(i)
    ensures UsesSlots(scope, {x}, [i])
  {
    assert [i][0] == i;
  }

  lemma UsedUnion(scope: Scope, xs: set<string>, ys: set<string>, instrs: seq<Instr>)
    requires UsesSlots(scope, xs, instrs) && UsesSlots(scope, ys, instrs)
    ensures UsesSlots(scope, xs + ys, instrs)
  {
  }

  lemma {:induction false} ExprUses(scope: Scope, n: nat, e: Expr)
    requires ExprCode(scope, n, e).Ok?
    ensures UsesSlots(scope, Loads(Types(scope), e), ExprCode(scope, n, e).value.instrs)
    decreases e, 1
  {
    hide UsesSlots, AddressExpr, UsedIn;
    UsesNothing(scope, ExprCode(scope, n, e).value.instrs);
    match e
    case Const(_) =>
    case Name(id) =>
      if scope[id].ty.IntTy? {
        UsedOne(scope, id, Load(n, Tmp(scope[id].ptr)));
      }
    case Binary(_, l, r) =>
      var a := ExprCode(scope, n, l).value;
      var b := ExprCode(scope, a.next, r).value;
      var code := ExprCode(scope, n, e).value;
      PairUses(scope, n, e, l, r);
      UsedAppend(scope, Loads(Types(scope), e), a.instrs + b.instrs, code.instrs[|a.instrs| + |b.instrs|..]);
    case Unary(op, x) =>
      var a := ExprCode(scope, n, x).value;
      ExprUses(scope, n, x);
      if !op.UAdd? {
        UsedAppend(scope, Loads(Types(scope), e), a.instrs, ExprCode(scope, n, e).value.instrs[|a.instrs|..]);
      }
    case Subscript(arr, index) =>
      var a := ElementCode(scope, n, arr, index).value;
      ElementUses(scope, n, arr, index);
      UsedAppend(scope, Loads(Types(scope), e), a.instrs, [Load(a.next, a.opd)]);
  }

  lemma UsesNothing(scope: Scope, instrs: seq<Instr>)
    ensures UsesSlots(scope, {}, instrs)
  {
  }

  lemma {:induction false} PairUses(scope: Scope, n: nat, e: Expr, l: Expr, r: Expr)
    requires l < e && r < e && ExprCode(scope, n, l).Ok?
    requires ExprCode(scope, ExprCode(scope, n, l).value.next, r).Ok?
    ensures var a := ExprCode(scope, n, l).value;
      UsesSlots(scope, Loads(Types(scope), l) + Loads(Types(scope), r),
                a.instrs + ExprCode(scope, a.next, r).value.instrs)
    decreases e, 0
  {
    hide UsesSlots, ExprCode, Loads;
    var a := ExprCode(scope, n, l).value;
    var b := ExprCode(scope, a.next, r).value;
    ExprUses(scope, n, l);
    ExprUses(scope, a.next, r);
    UsedAppend(scope, Loads(Types(scope), l), a.instrs, b.instrs);
    UsedAppend(scope, Loads(Types(scope), r), a.instrs, b.instrs);
    UsedUnion(scope, Loads(Types(scope), l), Loads(Types(scope), r), a.instrs + b.instrs);
  }

  lemma {:induction false} ElementUses(scope: Scope, n: nat, arr: string, index: Expr)
    requires ElementCode(scope, n, arr, index).Ok?
    ensures UsesSlots(scope, {arr} + Loads(Types(scope), index), ElementCode(scope, n, arr, index).value.instrs)
    decreases index, 2
  {
    hide UsesSlots, ExprCode, AddressExpr, Loads;
    var a := ExprCode(scope, n, index).value;
    var i := Gep(a.next, Tmp(scope[arr].ptr), a.opd);
    ExprUses(scope, n, index);
    UsedOne(scope, arr, i);
    UsedAppend(scope, {arr}, a.instrs, [i]);
    UsedAppend(scope, Loads(Types(scope), index), a.instrs, [i]);
    UsedUnion(scope, {arr}, Loads(Types(scope), index), a.instrs + [i]);
  }

  lemma CondUses(scope: Scope, n: nat, c: Cond)
    requires CondCode(scope, n, c).Ok?
    ensures UsesSlots(scope, CondLoads(Types(scope), c), CondCode(scope, n, c).value.instrs)
  {
    hide UsesSlots, ExprCode, AddressExpr, Loads;
    var a := ExprCode(scope, n, c.left).value;
    var b := ExprCode(scope, a.next, c.right).value;
    PairUses(scope, n, Binary(Add, c.left, c.right), c.left, c.right);
    UsedAppend(scope, CondLoads(Types(scope), c), a.instrs + b.instrs,
               CondCode(scope, n, c).value.instrs[|a.instrs| + |b.instrs|..]);
  }

  // Names whose slots are used here are safe.
  lemma NamesSafe(p: seq<Block>, g: Gen, instrs: seq<Instr>, m: nat, r: Reach, names: set<string>)
    requires g.Valid() && UsesDefined(p) && Extends(p, Emit(g, instrs).blocks)
    requires DefinesFrom(instrs, g.next, m) && ScopeBelow(g.scope, g.next) && UsesSlots(g.scope, names, instrs)
    requires r.Live? && Witnessed(p, g, r)
    ensures names <= r.safe
  {
    hide Avoids, DefinesFrom, UsesDefined, Extends, Uses;
    forall x | x in names
      ensures x in r.safe
    {
      assert UsedIn(g.scope[x].ptr, instrs);
      var k :| 0 <= k < |instrs| && g.scope[x].ptr in Uses(instrs[k]);
      UseNotAvoided(p, g, instrs, k, g.scope[x].ptr, m);
    }
  }

  // ----- statements that stay in their block -----

  lemma ExprWitness(p: seq<Block>, g: Gen, e: Expr, r: Reach)
    requires g.Valid() && UsesDefined(p) && LowerExpr(g, e).Ok? && Extends(p, LowerExpr(g, e).value.0.blocks)
    requires ScopeBelow(g.scope, g.next) && r.Live? && Witnessed(p, g, r)
    ensures Loads(Types(g.scope), e) <= r.safe && Witnessed(p, LowerExpr(g, e).value.0, r)
  {
    hide Witnessed, DefinesFrom, UsesSlots, UsesDefined, ExprCode, Extends, ScopeBelow;
    var code := ExprCode(g.scope, g.next, e).value;
    ExprDefines(g.scope, g.next, e);
    ExprUses(g.scope, g.next, e);
    NamesSafe(p, g, code.instrs, code.next, r, Loads(Types(g.scope), e));
    EmitWitnessed(p, g, code.instrs, code.next, r);
  }

  lemma StoreWitness(p: seq<Block>, g: Gen, value: Expr, addr: Operand, r: Reach)
    requires g.Valid() && UsesDefined(p) && StoreTo(g, value, addr).Ok?
    requires Extends(p, StoreTo(g, value, addr).value.blocks)
    requires ScopeBelow(g.scope, g.next) && r.Live? && Witnessed(p, g, r)
    ensures Loads(Types(g.scope), value) <= r.safe && Witnessed(p, StoreTo(g, value, addr).value, r)
    ensures forall x :: x in g.scope && addr == Tmp(g.scope[x].ptr) ==> x in r.safe
  {
    hide Witnessed, DefinesFrom, UsesSlots, UsesDefined, ExprCode, Extends, ScopeBelow, AddressExpr;
    var v := LowerExpr(g, value).value;
    var i := StoreI(v.1, addr);
    EmitExtends(v.0, [i]);
    ExtendsTrans(p, Emit(v.0, [i]).blocks, v.0.blocks);
    ExprWitness(p, g, value, r);
    DefinesOne(i, v.0.next, v.0.next);
    BelowMono(g.scope, g.next, v.0.next);
    EmitWitnessed(p, v.0, [i], v.0.next, r);
    forall x | x in g.scope && addr == Tmp(g.scope[x].ptr)
      ensures x in r.safe
    {
      UsedOne(g.scope, x, i);
      NamesSafe(p, v.0, [i], v.0.next, r, {x});
    }
  }

  lemma DeclareWitness(p: seq<Block>, g: Gen, id: string, ty: Ty, r: Reach)
    requires g.Valid() && ScopeBelow(g.scope, g.next) && r.Live? && Witnessed(p, g, r)
    ensures Witnessed(p, DeclareSlot(g, id, ty), Live(r.safe + {id}))
  {
    hide Avoids, DefinesFrom;
    var g' := DeclareSlot(g, id, ty);
    DefinesOne(Alloca(g.next, ty), g.next, g.next + 1);
    var ge := Emit(g, [Alloca(g.next, ty)]).(next := g.next + 1);
    EmitWitnessed(p, g, [Alloca(g.next, ty)], g.next + 1, r);
    AvoidsSame(p, ge, g', g'.next);
    forall x | x in g'.scope && x !in r.safe + {id}
      ensures Avoids(p, g', g'.scope[x].ptr)
    {
      AvoidsSame(p, ge, g', g.scope[x].ptr);
    }
  }

  lemma AvoidsSame(p: seq<Block>, g: Gen, g': Gen, t: nat)
    requires g.Valid() && Avoids(p, g, t) && g' == g.(scope := g'.scope)
    ensures Avoids(p, g', t)
  {
    var path :| Route(p, g, path, t);
    assert Route(p, g', path, t);
  }

  lemma FlatWitness(p: seq<Block>, g: Gen, s: Stmt, r: Reach)
    requires g.Valid() && UsesDefined(p) && LowerStmt(g, s).Ok? && Extends(p, LowerStmt(g, s).value.blocks)
    requires ScopeBelow(g.scope, g.next) && r.Live? && Witnessed(p, g, r) && !s.If? && !s.While?
    ensures SafeStmt(Types(g.scope), r, s) && Witnessed(p, LowerStmt(g, s).value, AfterStmt(r, s))
  {
    hide Witnessed, DefinesFrom, UsesSlots, UsesDefined, ExprCode, ElementCode, Extends, ScopeBelow, AddressExpr,
      IsTerminated, Types, Loads, StoreTo;
    match s
    case AnnAssign(id, ty, init) =>
      var g1 := DeclareSlot(g, id, ty);
      DeclareWitness(p, g, id, ty, r);
      if init.Some? {
        DeclareBelow(g, id, ty);
        DeclaredTypes(g, id, ty);
        StoreWitness(p, g1, init.value, Tmp(g.next), Live(r.safe + {id}));
      }
    case Assign(id, value) =>
      StoreWitness(p, g, value, Tmp(g.scope[id].ptr), r);
    case AssignElem(arr, index, value) =>
      ElementWitness(p, g, arr, index, value, r);
    case Return(result) =>
      if result.Some? {
        var v := LowerExpr(g, result.value).value;
        EmitExtends(v.0, [Ret(v.1)]);
        ExtendsTrans(p, Emit(v.0, [Ret(v.1)]).blocks, v.0.blocks);
        ExprWitness(p, g, result.value, r);
      }
      DeadWitnessed(p, LowerStmt(g, s).value);
    case Pass =>
    case ExprStmt(value) =>
      ExprWitness(p, g, value, r);
  }

  lemma DeadWitnessed(p: seq<Block>, g: Gen)
    requires g.Valid()
    ensures Witnessed(p, g, Dead)
  {
  }

  lemma ElementWitness(p: seq<Block>, g: Gen, arr: string, index: Expr, value: Expr, r: Reach)
    requires g.Valid() && UsesDefined(p) && ElementCode(g.scope, g.next, arr, index).Ok?
    requires var a := ElementCode(g.scope, g.next, arr, index).value;
      StoreTo(EmitCode(g, a), value, a.opd).Ok? && Extends(p, StoreTo(EmitCode(g, a), value, a.opd).value.blocks)
    requires ScopeBelow(g.scope, g.next) && r.Live? && Witnessed(p, g, r)
    ensures {arr} + Loads(Types(g.scope), index) + Loads(Types(g.scope), value) <= r.safe
    ensures var a := ElementCode(g.scope, g.next, arr, index).value;
      Witnessed(p, StoreTo(EmitCode(g, a), value, a.opd).value, r)
  {
    hide Witnessed, DefinesFrom, UsesSlots, UsesDefined, ExprCode, ElementCode, Extends, ScopeBelow, StoreTo,
      Loads, Types;
    var a := ElementCode(g.scope, g.next, arr, index).value;
    var g1 := EmitCode(g, a);
    LoweringExact.StoreExtends(g1, value, a.opd);
    ExtendsTrans(p, StoreTo(g1, value, a.opd).value.blocks, g1.blocks);
    ElementDefines(g.scope, g.next, arr, index);
    ElementUses(g.scope, g.next, arr, index);
    NamesSafe(p, g, a.instrs, a.next, r, {arr} + Loads(Types(g.scope), index));
    EmitWitnessed(p, g, a.instrs, a.next, r);
    BelowMono(g.scope, g.next, a.next);
    StoreWitness(p, g1, value, a.opd, r);
  }

  // ----- edges -----

  // All blocks are complete.
  predicate Complete(p: seq<Block>) {
    forall b :: 0 <= b < |p| ==> WellTerminated(p[b])
  }

  // A block that was complete when the generator left it stays as it was.
  lemma CompleteBlock(p: seq<Block>, q: seq<Block>, b: nat)
    requires Complete(p) && Extends(p, q) && b < |q| && WellTerminated(q[b])
    ensures p[b] == q[b]
  {
    var n := |q[b]|;
    assert q[b] <= p[b];
    assert p[b][n - 1] == q[b][n - 1];
    assert WellTerminated(p[b]);
  }

  // Along a branch to an empty block.
  lemma EdgeAvoids(p: seq<Block>, g: Gen, i: Instr, g': Gen, t: nat)
    requires g.Valid() && g'.Valid() && g.cur < |p| && g'.cur < |p| && p[g.cur] == g.blocks[g.cur] + [i]
    requires g'.cur in Successors(i) && g'.blocks[g'.cur] == [] && g.next <= g'.next
    requires Avoids(p, g, t)
    ensures Avoids(p, g', t)
  {
    hide DefinedOn;
    var path :| Route(p, g, path, t);
    var path' := path + [g'.cur];
    assert p[g.cur][|g.blocks[g.cur]|] == i;
    StepPath(p, path, g'.cur);
    DefinedAppend(DefinedOn(p, path), g.blocks[g.cur], [i]);
    assert [i][..0] == [];
    DefinedNothing(DefinedOn(p, path'));
    assert Route(p, g', path', t);
  }

  lemma StepPath(p: seq<Block>, path: seq<nat>, b: nat)
    requires Path(p, path) && b < |p| && Edge(p, EndOf(path), b)
    ensures Path(p, path + [b]) && EndOf(path + [b]) == b
    ensures DefinedOn(p, path + [b]) == Defined(DefinedOn(p, path), p[EndOf(path)])
  {
    var path' := path + [b];
    forall i | 0 < i < |path'|
      ensures Edge(p, path'[i - 1], path'[i])
    {
      if i < |path| {
        assert Edge(p, path[i - 1], path[i]);
      }
    }
    assert path'[..|path'| - 1] == path;
  }

  lemma EdgeWitnessed(p: seq<Block>, g: Gen, i: Instr, g': Gen, r: Reach)
    requires g.Valid() && g'.Valid() && g.cur < |p| && g'.cur < |p| && p[g.cur] == g.blocks[g.cur] + [i]
    requires g'.cur in Successors(i) && g'.blocks[g'.cur] == [] && g.next <= g'.next
    requires g'.scope == g.scope && Witnessed(p, g, r)
    ensures Witnessed(p, g', r)
  {
    hide Avoids;
    if r.Live? {
      AvoidsLater(p, g, g.next, g'.next);
      EdgeAvoids(p, g, i, g', g'.next);
      forall x | x in g'.scope && x !in r.safe
        ensures Avoids(p, g', g'.scope[x].ptr)
      {
        EdgeAvoids(p, g, i, g', g.scope[x].ptr);
      }
    }
  }

  // ----- tests -----

  // The generator in front of the test, in the block made for it.
  function Header(g: Gen, g1: Gen): Gen
    requires |g.blocks| < |g1.blocks|
  {
    Gen(g1.blocks[|g.blocks| := []], |g.blocks|, g.scope, g.next)
  }

  lemma HeaderCode(p: seq<Block>, g: Gen, test: Cond, extra: nat)
    requires g.Valid() && !g.Closed() && AllTargets(g.blocks, |g.blocks|) && extra >= 2
    requires OpenTest(g, test, extra).Ok? && Complete(p) && Extends(p, OpenTest(g, test, extra).value.blocks)
    ensures var n, g1 := |g.blocks|, OpenTest(g, test, extra).value;
      && n + 2 < |g1.blocks| <= |p| && p[g.cur] == g.blocks[g.cur] + [Br(n)]
      && CondCode(g.scope, g.next, test).Ok?
      && var code := CondCode(g.scope, g.next, test).value;
      && p[n] == code.instrs + [CondBr(code.opd, n + 1, n + 2)] && g1.next == code.next && g1.scope == g.scope
      && g1.blocks[n + 1] == [] && Extends(p, Emit(Header(g, g1), code.instrs).blocks)
      && DefinesFrom(code.instrs, g.next, g1.next)
  {
    hide CondCode, WellTerminated, DefinesFrom;
    OpenTestForm(g, test, extra);
    CondDefines(g.scope, g.next, test);
    var n, g1 := |g.blocks|, OpenTest(g, test, extra).value;
    CompleteBlock(p, g1.blocks, g.cur);
    CompleteBlock(p, g1.blocks, n);
  }

  // Through the test to either of its targets.
  lemma TestAvoids(p: seq<Block>, g: Gen, test: Cond, extra: nat, gm: Gen, t: nat)
    requires g.Valid() && !g.Closed() && AllTargets(g.blocks, |g.blocks|) && extra >= 2
    requires OpenTest(g, test, extra).Ok? && Complete(p) && Extends(p, OpenTest(g, test, extra).value.blocks)
    requires gm.Valid() && (gm.cur == |g.blocks| + 1 || gm.cur == |g.blocks| + 2) && gm.blocks[gm.cur] == []
    requires OpenTest(g, test, extra).value.next <= gm.next
    requires Avoids(p, g, t) && (t < g.next || OpenTest(g, test, extra).value.next <= t)
    ensures Avoids(p, gm, t)
  {
    hide OpenTest, CondCode, Complete, Extends, Avoids, DefinesFrom;
    HeaderCode(p, g, test, extra);
    var n, g1 := |g.blocks|, OpenTest(g, test, extra).value;
    var h, code := Header(g, g1), CondCode(g.scope, g.next, test).value;
    EdgeAvoids(p, g, Br(n), h, t);
    EmitAvoids(p, h, code.instrs, code.next, t);
    var hc := Emit(h, code.instrs).(next := code.next);
    assert hc.blocks[n] == [] + code.instrs == code.instrs;
    EdgeAvoids(p, hc, CondBr(code.opd, n + 1, n + 2), gm, t);
  }

  lemma TestWitness(p: seq<Block>, g: Gen, test: Cond, extra: nat, r: Reach)
    requires g.Valid() && !g.Closed() && AllTargets(g.blocks, |g.blocks|) && extra >= 2 && ScopeBelow(g.scope, g.next)
    requires OpenTest(g, test, extra).Ok? && Extends(p, OpenTest(g, test, extra).value.blocks)
    requires Complete(p) && UsesDefined(p) && r.Live? && Witnessed(p, g, r)
    ensures CondLoads(Types(g.scope), test) <= r.safe && Witnessed(p, OpenTest(g, test, extra).value, r)
  {
    hide OpenTest, CondCode, Complete, Extends, Witnessed, DefinesFrom, UsesSlots, UsesDefined, CondLoads, Types,
      ScopeBelow;
    HeaderCode(p, g, test, extra);
    var n, g1 := |g.blocks|, OpenTest(g, test, extra).value;
    var h, code := Header(g, g1), CondCode(g.scope, g.next, test).value;
    EdgeWitnessed(p, g, Br(n), h, r);
    CondUses(g.scope, g.next, test);
    NamesSafe(p, h, code.instrs, code.next, r, CondLoads(Types(g.scope), test));
    EmitWitnessed(p, h, code.instrs, code.next, r);
    var hc := Emit(h, code.instrs).(next := code.next);
    assert hc.blocks[n] == [] + code.instrs == code.instrs;
    EdgeWitnessed(p, hc, CondBr(code.opd, n + 1, n + 2), g1, r);
  }

  // Around a branch or a loop body: what it declares is not executed.
  lemma SkipWitness(p: seq<Block>, g: Gen, test: Cond, extra: nat, r: Reach, declared: set<string>, gm: Gen)
    requires g.Valid() && !g.Closed() && AllTargets(g.blocks, |g.blocks|) && extra >= 2 && ScopeBelow(g.scope, g.next)
    requires OpenTest(g, test, extra).Ok? && Complete(p) && Extends(p, OpenTest(g, test, extra).value.blocks)
    requires gm.Valid() && gm.cur == |g.blocks| + 2 && gm.blocks[gm.cur] == []
    requires Moves(OpenTest(g, test, extra).value, gm, declared)
    requires r.Live? && Witnessed(p, g, r)
    ensures Witnessed(p, gm, Forget(r, declared))
  {
    hide OpenTest, Complete, Extends, Avoids;
    OpenTestScope(g, test, extra);
    var g1 := OpenTest(g, test, extra).value;
    AvoidsLater(p, g, g.next, gm.next);
    TestAvoids(p, g, test, extra, gm, gm.next);
    forall x | x in gm.scope && x !in r.safe - declared
      ensures Avoids(p, gm, gm.scope[x].ptr)
    {
      if x in declared {
        AvoidsLater(p, g, g.next, gm.scope[x].ptr);
      } else {
        assert gm.scope[x] == g1.scope[x] == g.scope[x];
      }
      TestAvoids(p, g, test, extra, gm, gm.scope[x].ptr);
    }
  }

  // Two ways to the same block.
  lemma JoinWitness(p: seq<Block>, g2: Gen, gm: Gen, declared: set<string>, rb: Reach, ro: Reach)
    requires g2.Valid() && gm.Valid() && gm.blocks[gm.cur] == [] && Moves(g2, gm, declared)
    requires g2.cur < |p| && gm.cur < |p| && (rb.Live? ==> p[g2.cur] == g2.blocks[g2.cur] + [Br(gm.cur)])
    requires Witnessed(p, g2, rb) && Witnessed(p, gm, ro)
    ensures Witnessed(p, gm, Join(Forget(rb, declared), ro))
  {
    hide Avoids;
    if rb.Live? {
      AvoidsLater(p, g2, g2.next, gm.next);
      EdgeAvoids(p, g2, Br(gm.cur), gm, gm.next);
      forall x | x in gm.scope && x !in rb.safe - declared
        ensures Avoids(p, gm, gm.scope[x].ptr)
      {
        if x in declared {
          AvoidsLater(p, g2, g2.next, gm.scope[x].ptr);
        } else {
          assert gm.scope[x] == g2.scope[x];
        }
        EdgeAvoids(p, g2, Br(gm.cur), gm, gm.scope[x].ptr);
      }
    }
  }

  // ----- statements -----

  // The generator stands at an open block that can be reached as r says.
  ghost predicate Stands(p: seq<Block>, g: Gen, r: Reach) {
    && g.Valid() && !g.Closed() && AllTargets(g.blocks, |g.blocks|)
    && ScopeBelow(g.scope, g.next) && Witnessed(p, g, r)
  }

  lemma {:induction false} LiveOpen(r: Reach, ss: seq<Stmt>)
    requires AfterList(r, ss).Live?
    ensures !ListReturns(ss)
    decreases |ss|
  {
    if ss != [] {
      LiveOpen(AfterStmt(r, ss[0]), ss[1..]);
    }
  }

  // A list that may run through ends in a block that branches on.
  lemma {:induction false} BranchWitness(p: seq<Block>, g1: Gen, ss: seq<Stmt>, r: Reach, target: nat)
    requires Stands(p, g1, r) && LowerList(g1, ss).Ok? && TidyList(Types(g1.scope), ss) && target < |g1.blocks|
    requires Complete(p) && UsesDefined(p) && Extends(p, Close(LowerList(g1, ss).value, target).blocks)
    ensures SafeList(Types(g1.scope), r, ss)
    ensures var g2 := LowerList(g1, ss).value;
      && Witnessed(p, g2, AfterList(r, ss)) && g2.cur < |p|
      && (AfterList(r, ss).Live? ==> p[g2.cur] == g2.blocks[g2.cur] + [Br(target)])
    decreases ss, 1
  {
    hide WellTerminated, IsTerminated, Complete, UsesDefined, LowerList, TidyList, SafeList, AfterList, Types, Form,
      Witnessed, ScopeBelow, AllTargets;
    var g2 := LowerList(g1, ss).value;
    CloseGrows(g2, target);
    ExtendsTrans(p, Close(g2, target).blocks, g2.blocks);
    ListWitness(p, g1, ss, r);
    if AfterList(r, ss).Live? {
      LiveOpen(r, ss);
      ListForm(g1, ss);
      FormGrows(g1, g2, false);
      FormOpen(g1, g2);
      CloseForm(g2, target);
      CompleteBlock(p, Close(g2, target).blocks, g2.cur);
    }
  }

  lemma {:induction false} WhileWitness(p: seq<Block>, g: Gen, s: Stmt, r: Reach)
    requires s.While? && Stands(p, g, r) && r.Live? && LowerWhile(g, s).Ok? && Tidy(Types(g.scope), s)
    requires Complete(p) && UsesDefined(p) && Extends(p, LowerWhile(g, s).value.blocks)
    ensures SafeStmt(Types(g.scope), r, s) && Witnessed(p, LowerWhile(g, s).value, AfterStmt(r, s))
    decreases s, 0
  {
    hide IsTerminated, Complete, UsesDefined, OpenTest, Close, LowerList, TidyList, SafeList, AfterList, Types,
      CondLoads, Form, Filled, Witnessed, ScopeBelow, AllTargets, Extends, Moves;
    var n := |g.blocks|;
    WhileFormHolds(g, s);
    var g1 := OpenTest(g, s.test, 2).value;
    var last := Close(LowerList(g1, s.body).value, n);
    RegionGrows(g1, s.body, n);
    ExtendsTrans(p, last.blocks, g1.blocks);
    TestWitness(p, g, s.test, 2, r);
    OpenedStands(p, g, s.test, 2, r);
    BranchWitness(p, g1, s.body, r, n);
    RegionScope(g1, s.body, n);
    MovesAt(g1, last, DeclaredList(s.body), n + 2);
    SkipWitness(p, g, s.test, 2, r, DeclaredList(s.body), At(last, n + 2));
  }

  lemma OpenedStands(p: seq<Block>, g: Gen, test: Cond, extra: nat, r: Reach)
    requires Stands(p, g, r) && extra >= 2 && OpenTest(g, test, extra).Ok?
    requires Witnessed(p, OpenTest(g, test, extra).value, r)
    ensures var g1 := OpenTest(g, test, extra).value; Stands(p, g1, r) && g1.scope == g.scope
  {
    hide Witnessed, OpenTest;
    OpenTestForm(g, test, extra);
  }

  lemma {:induction false} BareIfWitness(p: seq<Block>, g: Gen, s: Stmt, r: Reach)
    requires s.If? && s.orelse == []
    requires Stands(p, g, r) && r.Live? && LowerIf(g, s).Ok? && Tidy(Types(g.scope), s)
    requires Complete(p) && UsesDefined(p) && Extends(p, LowerIf(g, s).value.blocks)
    ensures SafeStmt(Types(g.scope), r, s) && Witnessed(p, LowerIf(g, s).value, AfterStmt(r, s))
    decreases s, 0
  {
    hide IsTerminated, Complete, UsesDefined, OpenTest, Close, LowerList, TidyList, AfterList, Types,
      CondLoads, Form, Filled, Witnessed, ScopeBelow, AllTargets, Extends, DeclaredList;
    var n := |g.blocks|;
    var declared := DeclaredList(s.body);
    IfFormHolds(g, s);
    var g1 := OpenTest(g, s.test, 2).value;
    var g2 := LowerList(g1, s.body).value;
    var g3 := Close(g2, n + 2);
    var gm := At(g3, n + 2);
    RegionGrows(g1, s.body, n + 2);
    ExtendsTrans(p, g3.blocks, g1.blocks);
    TestWitness(p, g, s.test, 2, r);
    OpenedStands(p, g, s.test, 2, r);
    BranchWitness(p, g1, s.body, r, n + 2);
    RegionScope(g1, s.body, n + 2);
    SkipWitness(p, g, s.test, 2, r, declared, gm);
    AfterIf(r, s);
    var rb := AfterList(r, s.body);
    assert Forget(rb, {}) == rb;
    JoinWitness(p, g2, gm, {}, rb, Forget(r, declared));
  }

  lemma {:induction false} ElseWitness(p: seq<Block>, g: Gen, s: Stmt, r: Reach)
    requires s.If? && s.orelse != []
    requires Stands(p, g, r) && r.Live? && LowerIf(g, s).Ok? && Tidy(Types(g.scope), s)
    requires Complete(p) && UsesDefined(p) && Extends(p, LowerIf(g, s).value.blocks)
    ensures SafeStmt(Types(g.scope), r, s) && Witnessed(p, LowerIf(g, s).value, AfterStmt(r, s))
    decreases s, 0
  {
    hide IsTerminated, Complete, UsesDefined, OpenTest, Close, LowerList, TidyList, SafeList, AfterList, Types,
      CondLoads, Form, Filled, Witnessed, ScopeBelow, AllTargets, Extends, DeclaredList, Moves;
    var n := |g.blocks|;
    var db, do := DeclaredList(s.body), DeclaredList(s.orelse);
    IfFormHolds(g, s);
    var g1 := OpenTest(g, s.test, 3).value;
    var g2 := LowerList(g1, s.body).value;
    var g3 := Close(g2, n + 3);
    var ge := At(g3, n + 2);
    var g4 := LowerList(ge, s.orelse).value;
    var last := Close(g4, n + 3);
    var gm := At(last, n + 3);
    RegionGrows(g1, s.body, n + 3);
    RegionGrows(ge, s.orelse, n + 3);
    ExtendsTrans(p, last.blocks, g3.blocks);
    ExtendsTrans(p, g3.blocks, g1.blocks);
    TestWitness(p, g, s.test, 3, r);
    OpenedStands(p, g, s.test, 3, r);
    BranchWitness(p, g1, s.body, r, n + 3);
    RegionScope(g1, s.body, n + 3);
    RegionScope(ge, s.orelse, n + 3);
    MovesAt(g1, g3, db, n + 2);
    SkipWitness(p, g, s.test, 3, r, db, ge);
    ElseStands(p, g1, g3, n + 2, db, Forget(r, db));
    BranchWitness(p, ge, s.orelse, Forget(r, db), n + 3);
    var rb, ro := AfterList(r, s.body), AfterList(Forget(r, db), s.orelse);
    if ro.Live? {
      EdgeWitnessed(p, g4, Br(n + 3), gm, ro);
    } else {
      DeadWitnessed(p, gm);
    }
    FilledKeeps(ge, last);
    MovesFrom(ge, g2, last, do, n + 3);
    JoinWitness(p, g2, gm, do, rb, ro);
    AfterIf(r, s);
    SafeIf(Types(g.scope), r, s);
  }

  lemma SafeIf(types: Context, r: Reach, s: Stmt)
    requires s.If? && r.Live? && CondLoads(types, s.test) <= r.safe && SafeList(types, r, s.body)
    requires SafeList(LeakList(types, s.body), Forget(r, DeclaredList(s.body)), s.orelse)
    ensures SafeStmt(types, r, s)
  {
  }

  lemma MovesAt(g: Gen, g': Gen, declared: set<string>, b: nat)
    requires Moves(g, g', declared)
    ensures Moves(g, At(g', b), declared)
  {
  }

  lemma MovesFrom(ge: Gen, g2: Gen, last: Gen, declared: set<string>, b: nat)
    requires Moves(ge, last, declared) && g2.scope == ge.scope && g2.next == ge.next
    ensures Moves(g2, At(last, b), declared)
  {
  }

  lemma ElseStands(p: seq<Block>, g1: Gen, g3: Gen, b: nat, declared: set<string>, r: Reach)
    requires Filled(g1, g3) && Moves(g1, g3, declared) && ScopeBelow(g1.scope, g1.next)
    requires b < |g3.blocks| && g3.blocks[b] == [] && Witnessed(p, At(g3, b), r)
    ensures Stands(p, At(g3, b), r)
  {
    hide Moves, ScopeBelow;
    MovesBelow(g1, g3, declared);
  }

  // If all uses are defined on all paths, the names of a statement that can be
  // reached are safe, and so are those it leaves for what follows.
  lemma {:induction false} StmtWitness(p: seq<Block>, g: Gen, s: Stmt, r: Reach)
    requires Stands(p, g, r) && r.Live? && LowerStmt(g, s).Ok? && Tidy(Types(g.scope), s)
    requires Complete(p) && UsesDefined(p) && Extends(p, LowerStmt(g, s).value.blocks)
    ensures SafeStmt(Types(g.scope), r, s) && Witnessed(p, LowerStmt(g, s).value, AfterStmt(r, s))
    decreases s, 1
  {
    hide IsTerminated, AllTargets, LowerIf, LowerWhile, Tidy, SafeStmt, AfterStmt, Witnessed, UsesDefined, Complete,
      Extends, ScopeBelow;
    match s
    case If(_, _, orelse) =>
      if orelse == [] {
        BareIfWitness(p, g, s, r);
      } else {
        ElseWitness(p, g, s, r);
      }
    case While(_, _) => WhileWitness(p, g, s, r);
    case _ => FlatWitness(p, g, s, r);
  }

  lemma {:induction false} ListWitness(p: seq<Block>, g: Gen, ss: seq<Stmt>, r: Reach)
    requires Stands(p, g, r) && LowerList(g, ss).Ok? && TidyList(Types(g.scope), ss)
    requires Complete(p) && UsesDefined(p) && Extends(p, LowerList(g, ss).value.blocks)
    ensures SafeList(Types(g.scope), r, ss) && Witnessed(p, LowerList(g, ss).value, AfterList(r, ss))
    decreases ss, 0
  {
    hide IsTerminated, AllTargets, LowerStmt, Tidy, SafeStmt, AfterStmt, Witnessed, UsesDefined, Complete, Extends,
      ScopeBelow, Form, Moves;
    if r.Dead? {
      DeadWitnessed(p, LowerList(g, ss).value);
    } else if ss != [] {
      var g1 := LowerStmt(g, ss[0]).value;
      ListExtends(g1, ss[1..]);
      ExtendsTrans(p, LowerList(g, ss).value.blocks, g1.blocks);
      StmtWitness(p, g, ss[0], r);
      StmtForm(g, ss[0]);
      StmtScope(g, ss[0]);
      if ss[0].Return? {
        ReturnDead(r, ss);
        DeadWitnessed(p, LowerList(g, ss).value);
      } else {
        FormOpen(g, g1);
        MovesBelow(g, g1, Declared(ss[0]));
        ListWitness(p, g1, ss[1..], AfterStmt(r, ss[0]));
      }
    }
  }

  lemma ReturnDead(r: Reach, ss: seq<Stmt>)
    requires ss != [] && ss[0].Return?
    ensures AfterStmt(r, ss[0]).Dead? && AfterList(r, ss).Dead?
  {
  }

  // ----- functions -----

  // Parameters are spilled in the entry block.
  lemma {:induction false} SpillDefines(g: Gen, params: seq<string>, i: nat)
    requires g.Valid() && i <= |params| && DefinesFrom(g.blocks[g.cur], 0, g.next) && ScopeBelow(g.scope, g.next)
    ensures var g' := SpillParams(g, params, i);
      g'.cur == g.cur && DefinesFrom(g'.blocks[g'.cur], 0, g'.next) && ScopeBelow(g'.scope, g'.next)
    decreases |params| - i
  {
    hide DefinesFrom;
    if i < |params| {
      var d := DeclareSlot(g, params[i], IntTy);
      DefinesOne(Alloca(g.next, IntTy), g.next, d.next);
      DefinesAppend(g.blocks[g.cur], [Alloca(g.next, IntTy)], 0, g.next, d.next);
      DefinesOne(StoreI(Arg(i), Tmp(g.next)), d.next, d.next);
      DefinesAppend(d.blocks[g.cur], [StoreI(Arg(i), Tmp(g.next))], 0, d.next, d.next);
      SpillDefines(Emit(d, [StoreI(Arg(i), Tmp(g.next))]), params, i + 1);
    }
  }

  lemma EntryStands(p: seq<Block>, params: seq<string>)
    requires |p| > 0
    ensures Stands(p, SpillParams(EMPTY_GEN, params, 0), Live(ParamContext(params).Keys))
  {
    hide SpillParams;
    var g := SpillParams(EMPTY_GEN, params, 0);
    SpillForm(EMPTY_GEN, params, 0);
    DefinedNothing({});
    SpillDefines(EMPTY_GEN, params, 0);
    SpillTypes(EMPTY_GEN, params, 0);
    assert Route(p, g, [0], g.next);
    forall x | x in g.scope
      ensures x in ParamContext(params)
    {
      assert x in Types(g.scope);
    }
  }

  // A function compiled to complete blocks: every use of a temporary is defined
  // on every path from the entry if and only if every name of the source is
  // safe where it is used.
  lemma DominanceIff(f: Function)
    requires LowerFunction(f).Ok? && TidyList(ParamContext(f.params), f.body)
    ensures UsesDefined(LowerFunction(f).value) <==> SafeFunction(f)
  {
    hide LowerList, SpillParams, TidyList, SafeList, UsesDefined, WellTerminated, Stands, Extends;
    var p := LowerFunction(f).value;
    if SafeFunction(f) {
      SafeDefined(f);
    }
    if UsesDefined(p) {
      var g := SpillParams(EMPTY_GEN, f.params, 0);
      var g1 := LowerList(g, f.body).value;
      FunctionForm(f);
      SpillTypes(EMPTY_GEN, f.params, 0);
      EntryStands(p, f.params);
      ExtendsItself(g1.blocks);
      EmitExtends(g1, [if f.returnsInt then Unreachable else RetVoid]);
      ListWitness(p, g, f.body, Live(ParamContext(f.params).Keys));
    }
  }
}
