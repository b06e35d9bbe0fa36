// The shape of the emitted graph for well-scoped code: visiting it never raises,
// and keeps the slots of the variables it may use.

module LoweringShape {
  import opened Wrappers
  import opened PieSource
  import opened BlockIr
  import opened Lowering
  import opened LoweringForm

  // Every checked variable has a slot of its type.
  predicate Covers(ctx: Context, scope: Scope, n: nat) {
    forall x :: x in ctx ==> x in scope && scope[x].ty == ctx[x] && scope[x].ptr < n
  }

  predicate ScopeKept(ctx: Context, scope: Scope, scope': Scope) {
    forall x :: x in ctx && x in scope ==> x in scope' && scope'[x] == scope[x]
  }

  ghost predicate Progress(ctx: Context, g: Gen, g': Gen, returned: bool) {
    Form(g, g', returned) && ScopeKept(ctx, g.scope, g'.scope)
  }

  ghost predicate Region(ctx: Context, g: Gen, g': Gen) {
    Filled(g, g') && ScopeKept(ctx, g.scope, g'.scope)
  }

  lemma ProgressTrans(ctx: Context, ctx1: Context, g: Gen, g1: Gen, g2: Gen, returned: bool)
    requires Progress(ctx, g, g1, false) && Progress(ctx1, g1, g2, returned)
    requires forall x :: x in ctx ==> x in ctx1
    ensures Progress(ctx, g, g2, returned)
  {
    hide Form;
    FormTrans(g, g1, g2, returned);
  }

  lemma ProgressExtends(ctx: Context, g: Gen, g': Gen, returned: bool)
    requires Progress(ctx, g, g', returned)
    ensures Extends(g'.blocks, g.blocks)
  {
  }

  lemma ProgressOpen(ctx: Context, g: Gen, g1: Gen)
    requires Progress(ctx, g, g1, false)
    ensures g1.Valid() && !g1.Closed() && AllTargets(g1.blocks, |g1.blocks|)
  {
  }

  // ----- expressions -----

  lemma CoversWithin(ctx: Context, scope: Scope, n: nat)
    requires Covers(ctx, scope, n)
    ensures Within(ctx, Types(scope))
  {
  }

  lemma CoversMore(ctx: Context, scope: Scope, m: nat, n: nat)
    requires Covers(ctx, scope, m) && m <= n
    ensures Covers(ctx, scope, n)
  {
  }

  // Checked expressions are ints.
  lemma {:induction false} CheckedValue(ctx: Context, types: Context, e: Expr)
    requires CheckExpr(ctx, e) && Within(ctx, types)
    ensures !AddressExpr(types, e)
  {
    if e.Unary? {
      CheckedValue(ctx, types, e.operand);
    }
  }

  lemma {:induction false} ExprCompiles(ctx: Context, scope: Scope, n: nat, e: Expr)
    requires CheckExpr(ctx, e) && Within(ctx, Types(scope))
    ensures ExprCode(scope, n, e).Ok? && !AddressExpr(Types(scope), e)
    decreases e, 0
  {
    hide AddressExpr;
    CheckedValue(ctx, Types(scope), e);
    match e
    case Const(_) =>
    case Name(_) =>
    case Binary(_, l, r) =>
      ExprCompiles(ctx, scope, n, l);
      ExprCompiles(ctx, scope, ExprCode(scope, n, l).value.next, r);
    case Unary(_, x) => ExprCompiles(ctx, scope, n, x);
    case Subscript(arr, index) => ElementCompiles(ctx, scope, n, arr, index);
  }

  lemma {:induction false} ElementCompiles(ctx: Context, scope: Scope, n: nat, arr: string, index: Expr)
    requires arr in ctx && ctx[arr].ArrayTy? && CheckExpr(ctx, index) && Within(ctx, Types(scope))
    ensures ElementCode(scope, n, arr, index).Ok?
    decreases index, 1
  {
    ExprCompiles(ctx, scope, n, index);
  }

  lemma CondCompiles(ctx: Context, scope: Scope, n: nat, c: Cond)
    requires CheckCond(ctx, c) && Within(ctx, Types(scope))
    ensures CondCode(scope, n, c).Ok?
  {
    hide ExprCode, AddressExpr, CheckExpr;
    ExprCompiles(ctx, scope, n, c.left);
    ExprCompiles(ctx, scope, ExprCode(scope, n, c.left).value.next, c.right);
  }

  lemma {:induction false} AddressCompiles(types: Context, scope: Scope, n: nat, e: Expr)
    requires AddressExpr(types, e) && Within(types, Types(scope))
    ensures ExprCode(scope, n, e).Ok? && ExprCode(scope, n, e).value.instrs == []
    ensures ExprCode(scope, n, e).value.next == n
  {
    if e.Unary? {
      AddressCompiles(types, scope, n, e.operand);
    }
  }

  lemma StoreCompiles(ctx: Context, g: Gen, value: Expr, addr: Operand)
    requires g.Valid() && CheckExpr(ctx, value) && Within(ctx, Types(g.scope))
    ensures StoreTo(g, value, addr).Ok?
  {
    hide ExprCode, CheckExpr, AddressExpr;
    ExprCompiles(ctx, g.scope, g.next, value);
  }

  // ----- statements -----

  // A statement that stays in its block.
  lemma FlatCompiles(ctx: Context, g: Gen, s: Stmt, returnsInt: bool)
    requires g.Valid() && !g.Closed() && AllTargets(g.blocks, |g.blocks|)
    requires CheckStmt(ctx, s, returnsInt) && Covers(ctx, g.scope, g.next) && !s.If? && !s.While?
    ensures LowerStmt(g, s).Ok?
  {
    hide WellTerminated, IsTerminated, AllTargets, ExprCode, ElementCode, CheckExpr, AddressExpr, Within, StoreTo,
      Types;
    CoversWithin(ctx, g.scope, g.next);
    match s
    case AnnAssign(id, ty, init) =>
      if init.Some? {
        var g1 := DeclareSlot(g, id, ty);
        CoversWithin(ctx[id := ty], g1.scope, g1.next);
        StoreCompiles(ctx[id := ty], g1, init.value, Tmp(g.next));
      }
    case Assign(id, value) =>
      StoreCompiles(ctx, g, value, Tmp(g.scope[id].ptr));
    case AssignElem(arr, index, value) =>
      ElementCompiles(ctx, g.scope, g.next, arr, index);
      var a := ElementCode(g.scope, g.next, arr, index).value;
      StoreCompiles(ctx, EmitCode(g, a), value, a.opd);
    case Return(result) =>
      if result.Some? {
        ExprCompiles(ctx, g.scope, g.next, result.value);
        ExprForm(g, result.value);
        var v := LowerExpr(g, result.value).value;
        FormOpen(g, v.0);
      }
    case Pass =>
    case ExprStmt(value) =>
      if CheckExpr(ctx, value) {
        ExprCompiles(ctx, g.scope, g.next, value);
      } else {
        AddressCompiles(ctx, g.scope, g.next, value);
      }
  }

  // What a checked statement that compiles does to blocks and scope.
  lemma Shaped(ctx: Context, g: Gen, s: Stmt, returnsInt: bool)
    requires g.Valid() && !g.Closed() && AllTargets(g.blocks, |g.blocks|)
    requires CheckStmt(ctx, s, returnsInt) && Covers(ctx, g.scope, g.next) && LowerStmt(g, s).Ok?
    ensures Progress(ctx, g, LowerStmt(g, s).value, s.Return?)
    ensures Covers(Declare(ctx, s), LowerStmt(g, s).value.scope, LowerStmt(g, s).value.next)
  {
    hide LowerStmt, AllTargets, Form, CheckStmt, Leak, IsTerminated;
    CoversWithin(ctx, g.scope, g.next);
    CheckedTidy(ctx, Types(g.scope), s, returnsInt);
    StmtForm(g, s);
    StmtScope(g, s);
    var g' := LowerStmt(g, s).value;
    MovedCovers(ctx, Declare(ctx, s), g, g', Declared(s));
  }

  // Slots of names that are not redeclared stay; the new types are given.
  lemma MovedCovers(ctx: Context, ctx': Context, g: Gen, g': Gen, declared: set<string>)
    requires Covers(ctx, g.scope, g.next) && Moves(g, g', declared) && declared !! ctx.Keys
    requires Within(ctx', Types(g'.scope)) && forall x :: x in ctx' ==> x in ctx || x in declared
    ensures ScopeKept(ctx, g.scope, g'.scope) && Covers(ctx', g'.scope, g'.next)
  {
    forall x | x in ctx'
      ensures x in g'.scope && g'.scope[x].ty == ctx'[x] && g'.scope[x].ptr < g'.next
    {
      assert x in Types(g'.scope) && Types(g'.scope)[x] == ctx'[x];
      if x in ctx {
        assert x !in declared;
      }
    }
  }

  // Visiting a well-scoped statement at an open block succeeds.  It changes no
  // block but the current one and new ones, completes all of these but the one
  // it ends in, branches only to existing blocks, and keeps the slots of the
  // variables it may use.
  lemma {:induction false} StmtShape(ctx: Context, g: Gen, s: Stmt, returnsInt: bool)
    requires g.Valid() && !g.Closed() && AllTargets(g.blocks, |g.blocks|)
    requires CheckStmt(ctx, s, returnsInt) && Covers(ctx, g.scope, g.next)
    ensures LowerStmt(g, s).Ok?
    ensures Progress(ctx, g, LowerStmt(g, s).value, s.Return?)
    ensures Covers(Declare(ctx, s), LowerStmt(g, s).value.scope, LowerStmt(g, s).value.next)
    decreases s, 1
  {
    hide WellTerminated, IsTerminated, AllTargets, Progress, Covers, LowerIf, LowerWhile;
    match s {
      case If(_, _, _) => IfPartsHold(ctx, g, s, returnsInt);
      case While(_, _) => WhilePartsHold(ctx, g, s, returnsInt);
      case _ => FlatCompiles(ctx, g, s, returnsInt);
    }
    Shaped(ctx, g, s, returnsInt);
  }

  // A branch compiled at an open block, and closed.
  lemma {:induction false} BranchShape(ctx: Context, g1: Gen, ss: seq<Stmt>, returnsInt: bool, target: nat)
    requires g1.Valid() && !g1.Closed() && AllTargets(g1.blocks, |g1.blocks|) && target < |g1.blocks|
    requires CheckList(ctx, ss, returnsInt) && Covers(ctx, g1.scope, g1.next)
    ensures LowerList(g1, ss).Ok?
    ensures var g2 := LowerList(g1, ss).value; var g3 := Close(g2, target);
      && Region(ctx, g1, g3) && Covers(ctx, g3.scope, g3.next)
      && g3.Valid() && |g1.blocks| <= |g3.blocks| && g3.scope == g2.scope && g3.next == g2.next
      && (forall b :: 0 <= b < |g1.blocks| && b != g1.cur ==> g3.blocks[b] == g1.blocks[b])
      && AllTargets(g3.blocks, |g3.blocks|)
    decreases ss, 1
  {
    hide WellTerminated, IsTerminated, TargetsBelow, ScopeKept, Close, LowerList, AllTargets, Filled, Form, Covers;
    ListShape(ctx, g1, ss, returnsInt);
    var g2 := LowerList(g1, ss).value;
    FormGrows(g1, g2, ListReturns(ss));
    FilledOf(g1, g2, target, ListReturns(ss));
    FilledKeeps(g1, Close(g2, target));
  }

  // The compiled parts of a while: the opened test, then the body as a region.
  ghost predicate WhileParts(ctx: Context, g: Gen, s: Stmt)
    requires g.Valid() && s.While?
  {
    var n := |g.blocks|;
    && OpenTest(g, s.test, 2).Ok?
    && var g1 := OpenTest(g, s.test, 2).value;
    && LowerList(g1, s.body).Ok?
    && var last := Close(LowerList(g1, s.body).value, n);
    && Region(ctx, g1, last) && n + 2 < |last.blocks|
    && last.scope == LowerList(g1, s.body).value.scope && last.next == LowerList(g1, s.body).value.next
    && last.blocks[n + 2] == [] && Covers(ctx, last.scope, last.next)
    && LowerWhile(g, s) == Ok(At(last, n + 2))
  }

  lemma {:induction false} WhilePartsHold(ctx: Context, g: Gen, s: Stmt, returnsInt: bool)
    requires s.While?
    requires g.Valid() && !g.Closed() && AllTargets(g.blocks, |g.blocks|)
    requires CheckStmt(ctx, s, returnsInt) && Covers(ctx, g.scope, g.next)
    ensures WhileParts(ctx, g, s)
    decreases s, 0
  {
    hide WellTerminated, IsTerminated, TargetsBelow, CheckCond, ScopeKept, OpenTest, Close, LowerList;
    hide AllTargets, Region, Covers, CheckList;
    var n := |g.blocks|;
    TestOpens(ctx, g, s.test, 2);
    OpenTestForm(g, s.test, 2);
    var g1 := OpenTest(g, s.test, 2).value;
    CoversMore(ctx, g.scope, g.next, g1.next);
    BranchShape(ctx, g1, s.body, returnsInt, n);
  }

  lemma TestOpens(ctx: Context, g: Gen, test: Cond, extra: nat)
    requires g.Valid() && !g.Closed() && extra >= 2
    requires CheckCond(ctx, test) && Covers(ctx, g.scope, g.next)
    ensures OpenTest(g, test, extra).Ok?
  {
    CoversWithin(ctx, g.scope, g.next);
    CondCompiles(ctx, g.scope, g.next, test);
    OpenTestSucceeds(g, test, extra);
  }

  // The compiled parts of an if: the opened test, then one or two regions.
  ghost predicate IfParts(ctx: Context, g: Gen, s: Stmt)
    requires g.Valid() && s.If?
  {
    var n := |g.blocks|;
    var merge := if s.orelse == [] then n + 2 else n + 3;
    && OpenTest(g, s.test, merge - n).Ok?
    && var g1 := OpenTest(g, s.test, merge - n).value;
    && LowerList(g1, s.body).Ok?
    && var g3 := Close(LowerList(g1, s.body).value, merge);
    && Region(ctx, g1, g3) && Covers(ctx, g3.scope, g3.next) && merge < |g3.blocks|
    && g3.scope == LowerList(g1, s.body).value.scope && g3.next == LowerList(g1, s.body).value.next
    && g3.blocks[merge] == []
    && if s.orelse == [] then LowerIf(g, s) == Ok(At(g3, merge))
       else ElseParts(ctx, g, s, g3)
  }

  ghost predicate ElseParts(ctx: Context, g: Gen, s: Stmt, g3: Gen)
    requires g.Valid() && s.If? && g3.Valid() && |g.blocks| + 3 < |g3.blocks|
  {
    var n := |g.blocks|;
    var ge := At(g3, n + 2);
    && ge.blocks[n + 2] == []
    && LowerList(ge, s.orelse).Ok?
    && var last := Close(LowerList(ge, s.orelse).value, n + 3);
    && Region(ctx, ge, last) && Covers(ctx, last.scope, last.next) && n + 3 < |last.blocks|
    && last.scope == LowerList(ge, s.orelse).value.scope && last.next == LowerList(ge, s.orelse).value.next
    && last.blocks[n + 3] == []
    && LowerIf(g, s) == Ok(At(last, n + 3))
  }

  lemma {:induction false} IfPartsHold(ctx: Context, g: Gen, s: Stmt, returnsInt: bool)
    requires s.If?
    requires g.Valid() && !g.Closed() && AllTargets(g.blocks, |g.blocks|)
    requires CheckStmt(ctx, s, returnsInt) && Covers(ctx, g.scope, g.next)
    ensures IfParts(ctx, g, s)
    decreases s, 0
  {
    hide WellTerminated, IsTerminated, TargetsBelow, CheckCond, ScopeKept, OpenTest, Close, LowerList;
    hide AllTargets, Region, Covers, CheckList;
    var n := |g.blocks|;
    var merge := if s.orelse == [] then n + 2 else n + 3;
    TestOpens(ctx, g, s.test, merge - n);
    OpenTestForm(g, s.test, merge - n);
    var g1 := OpenTest(g, s.test, merge - n).value;
    CoversMore(ctx, g.scope, g.next, g1.next);
    BranchShape(ctx, g1, s.body, returnsInt, merge);
    var g3 := Close(LowerList(g1, s.body).value, merge);
    if s.orelse != [] {
      EmptyOpen(g3, n + 2);
      BranchShape(ctx, At(g3, n + 2), s.orelse, returnsInt, merge);
    }
  }

  // Nothing that may follow a return raises.
  lemma {:induction false} SilentCompiles(ctx: Context, g: Gen, ss: seq<Stmt>, returnsInt: bool)
    requires g.Valid() && CheckList(ctx, ss, returnsInt) && AllSilent(ctx, ss) && Covers(ctx, g.scope, g.next)
    ensures LowerList(g, ss) == Ok(g) && !ListReturns(ss)
  {
    hide ExprCode, CheckExpr, AddressExpr, SilentExpr, Covers;
    if ss != [] {
      assert Silent(ctx, ss[0]);
      CoversWithin(ctx, g.scope, g.next);
      if ss[0].ExprStmt? {
        if CheckExpr(ctx, ss[0].value) {
          ExprCompiles(ctx, g.scope, g.next, ss[0].value);
        } else {
          AddressCompiles(ctx, g.scope, g.next, ss[0].value);
        }
        SilentWithin(ctx, Types(g.scope), ss[0].value);
      }
      SilentStmt(g, ss[0]);
      SilentCompiles(ctx, g, ss[1..], returnsInt);
    }
  }

  lemma {:induction false} ListShape(ctx: Context, g: Gen, ss: seq<Stmt>, returnsInt: bool)
    requires g.Valid() && !g.Closed() && AllTargets(g.blocks, |g.blocks|)
    requires CheckList(ctx, ss, returnsInt) && Covers(ctx, g.scope, g.next)
    ensures LowerList(g, ss).Ok?
    ensures Progress(ctx, g, LowerList(g, ss).value, ListReturns(ss))
    ensures Covers(ctx, LowerList(g, ss).value.scope, LowerList(g, ss).value.next)
    decreases ss, 0
  {
    hide WellTerminated, IsTerminated, TargetsBelow, AllTargets, ScopeKept, LowerStmt, CheckStmt, Form, Progress;
    if ss == [] {
      StayForm(g);
      assert Progress(ctx, g, g, false) by {
        StayProgress(ctx, g);
      }
    } else {
      StmtShape(ctx, g, ss[0], returnsInt);
      var g1 := LowerStmt(g, ss[0]).value;
      if ss[0].Return? {
        SilentCompiles(ctx, g1, ss[1..], returnsInt);
      } else {
        var ctx1 := Declare(ctx, ss[0]);
        ProgressOpen(ctx, g, g1);
        DeclareExtends(ctx, ss[0], returnsInt);
        ListShape(ctx1, g1, ss[1..], returnsInt);
        ProgressTrans(ctx, ctx1, g, g1, LowerList(g, ss).value, ListReturns(ss[1..]));
      }
    }
  }

  lemma StayProgress(ctx: Context, g: Gen)
    requires g.Valid() && !g.Closed() && AllTargets(g.blocks, |g.blocks|)
    ensures Progress(ctx, g, g, false)
  {
  }

  // ----- functions -----

  // Slots of the parameters from i on, and of those already spilled.
  lemma {:induction false} SpillCovers(g: Gen, params: seq<string>, i: nat)
    requires g.Valid() && i <= |params|
    requires forall k :: 0 <= k < i ==>
      params[k] in g.scope && g.scope[params[k]].ty == IntTy && g.scope[params[k]].ptr < g.next
    ensures Covers(ParamContext(params), SpillParams(g, params, i).scope, SpillParams(g, params, i).next)
    decreases |params| - i
  {
    if i < |params| {
      var g1 := Emit(DeclareSlot(g, params[i], IntTy), [StoreI(Arg(i), Tmp(g.next))]);
      SpillCovers(g1, params, i + 1);
    }
  }

  // Compiling a well-scoped function never raises, and yields blocks that each
  // have exactly one terminator, in last place, and branch to blocks that
  // exist.
  lemma FunctionShape(f: Function)
    requires CheckFunction(f)
    ensures LowerFunction(f).Ok?
    ensures forall b :: 0 <= b < |LowerFunction(f).value| ==>
      && WellTerminated(LowerFunction(f).value[b])
      && TargetsBelow(LowerFunction(f).value[b], |LowerFunction(f).value|)
  {
    hide LowerList, CheckList, Covers, WellTerminated, Form;
    var g := SpillParams(EMPTY_GEN, f.params, 0);
    var ctx := ParamContext(f.params);
    SpillForm(EMPTY_GEN, f.params, 0);
    FormOpen(EMPTY_GEN, g);
    SpillCovers(EMPTY_GEN, f.params, 0);
    SpillTypes(EMPTY_GEN, f.params, 0);
    assert f.params[..|f.params|] == f.params;
    ListShape(ctx, g, f.body, f.returnsInt);
    CheckedTidyList(ctx, ctx, f.body, f.returnsInt);
    FunctionForm(f);
  }
}
