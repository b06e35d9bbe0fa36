// What the compiler makes of code behind a return, which it does not look for:
// exactly which functions that it compiles get well-formed blocks.

module LoweringExact {
  import opened Wrappers
  import opened PieSource
  import opened BlockIr
  import opened Lowering
  import opened LoweringForm

  // ----- code only grows -----

  lemma EmitExtends(g: Gen, instrs: seq<Instr>)
    requires g.Valid()
    ensures Extends(Emit(g, instrs).blocks, g.blocks)
    ensures |Emit(g, instrs).blocks[g.cur]| == |g.blocks[g.cur]| + |instrs|
  {
  }

  lemma OpenTestExtends(g: Gen, test: Cond, extra: nat)
    requires g.Valid() && extra >= 2 && OpenTest(g, test, extra).Ok?
    ensures Extends(OpenTest(g, test, extra).value.blocks, g.blocks)
  {
    hide CondCode;
    var n := |g.blocks|;
    var a := AppendBlocks(g, 1 + extra);
    var g1 := Terminate(a, Br(n)).value;
    EmitExtends(a, [Br(n)]);
    var code := CondCode(g1.scope, g1.next, test).value;
    var g2 := EmitCode(At(g1, n), code);
    EmitExtends(At(g1, n), code.instrs);
    EmitExtends(g2, [CondBr(code.opd, n + 1, n + 2)]);
    ExtendsTrans(g2.blocks, g1.blocks, a.blocks);
    ExtendsTrans(OpenTest(g, test, extra).value.blocks, g2.blocks, a.blocks);
    ExtendsTrans(OpenTest(g, test, extra).value.blocks, a.blocks, g.blocks);
  }

  lemma StoreExtends(g: Gen, value: Expr, addr: Operand)
    requires g.Valid() && StoreTo(g, value, addr).Ok?
    ensures Extends(StoreTo(g, value, addr).value.blocks, g.blocks)
    ensures |StoreTo(g, value, addr).value.blocks[g.cur]| > |g.blocks[g.cur]|
  {
    hide ExprCode;
    var (g1, v) := LowerExpr(g, value).value;
    EmitExtends(g, ExprCode(g.scope, g.next, value).value.instrs);
    EmitExtends(g1, [StoreI(v, addr)]);
    ExtendsTrans(StoreTo(g, value, addr).value.blocks, g1.blocks, g.blocks);
  }

  lemma {:induction false} StmtExtends(g: Gen, s: Stmt)
    requires g.Valid() && LowerStmt(g, s).Ok?
    ensures Extends(LowerStmt(g, s).value.blocks, g.blocks)
    decreases s, 1
  {
    hide ExprCode, ElementCode, OpenTest, Extends, LowerList;
    match s
    case AnnAssign(id, ty, init) =>
      EmitExtends(g, [Alloca(g.next, ty)]);
      if init.Some? {
        var g1 := DeclareSlot(g, id, ty);
        StoreExtends(g1, init.value, Tmp(g.next));
        ExtendsTrans(LowerStmt(g, s).value.blocks, g1.blocks, g.blocks);
      }
    case Assign(id, value) => StoreExtends(g, value, Tmp(g.scope[id].ptr));
    case AssignElem(arr, index, value) =>
      var a := ElementCode(g.scope, g.next, arr, index).value;
      EmitExtends(g, a.instrs);
      StoreExtends(EmitCode(g, a), value, a.opd);
      ExtendsTrans(LowerStmt(g, s).value.blocks, EmitCode(g, a).blocks, g.blocks);
    case If(test, body, orelse) =>
      var n := |g.blocks|;
      var merge := if orelse == [] then n + 2 else n + 3;
      var g1 := OpenTest(g, test, merge - n).value;
      OpenTestExtends(g, test, merge - n);
      RegionGrows(g1, body, merge);
      var g3 := Close(LowerList(g1, body).value, merge);
      ExtendsTrans(g3.blocks, g1.blocks, g.blocks);
      if orelse != [] {
        RegionGrows(At(g3, n + 2), orelse, merge);
        ExtendsTrans(LowerStmt(g, s).value.blocks, g3.blocks, g.blocks);
      }
    case While(test, body) =>
      var g1 := OpenTest(g, test, 2).value;
      OpenTestExtends(g, test, 2);
      RegionGrows(g1, body, |g.blocks|);
      ExtendsTrans(LowerStmt(g, s).value.blocks, g1.blocks, g.blocks);
    case Return(result) =>
      var g1 := g;
      if result.Some? {
        g1 := LowerExpr(g, result.value).value.0;
        EmitExtends(g, ExprCode(g.scope, g.next, result.value).value.instrs);
      } else {
        EmitExtends(g, [RetVoid]);
      }
      EmitExtends(g1, [if result.None? then RetVoid else Ret(LowerExpr(g, result.value).value.1)]);
      ExtendsTrans(LowerStmt(g, s).value.blocks, g1.blocks, g.blocks);
    case Pass => ExtendsItself(g.blocks);
    case ExprStmt(value) => EmitExtends(g, ExprCode(g.scope, g.next, value).value.instrs);
  }

  lemma ExtendsItself(p: seq<Block>)
    ensures Extends(p, p)
  {
  }

  lemma CloseGrows(g: Gen, target: nat)
    requires g.Valid()
    ensures Extends(Close(g, target).blocks, g.blocks)
  {
    EmitExtends(g, [Br(target)]);
  }

  lemma {:induction false} RegionGrows(g: Gen, ss: seq<Stmt>, target: nat)
    requires g.Valid() && LowerList(g, ss).Ok?
    ensures Extends(Close(LowerList(g, ss).value, target).blocks, g.blocks)
    decreases ss, 1
  {
    hide Extends;
    ListExtends(g, ss);
    CloseGrows(LowerList(g, ss).value, target);
    ExtendsTrans(Close(LowerList(g, ss).value, target).blocks, LowerList(g, ss).value.blocks, g.blocks);
  }

  lemma {:induction false} ListExtends(g: Gen, ss: seq<Stmt>)
    requires g.Valid() && LowerList(g, ss).Ok?
    ensures Extends(LowerList(g, ss).value.blocks, g.blocks)
    decreases ss, 0
  {
    hide Extends, LowerStmt;
    if ss == [] {
      ExtendsItself(g.blocks);
    } else {
      var g1 := LowerStmt(g, ss[0]).value;
      StmtExtends(g, ss[0]);
      ListExtends(g1, ss[1..]);
      ExtendsTrans(LowerList(g, ss).value.blocks, g1.blocks, g.blocks);
    }
  }

  // ----- ill-formed code stays ill-formed -----

  // An instruction behind a terminator.
  ghost predicate SpoiledBlock(b: Block) {
    exists k :: 0 <= k < |b| - 1 && b[k].Terminator()
  }

  ghost predicate Spoiled(blocks: seq<Block>) {
    exists b :: 0 <= b < |blocks| && SpoiledBlock(blocks[b])
  }

  // Compiling has failed, or will have produced an ill-formed block.
  ghost predicate Doomed(r: Result<Gen, CompileError>) {
    r.Ok? ==> Spoiled(r.value.blocks)
  }

  lemma SpoiledStays(p: seq<Block>, q: seq<Block>)
    requires Extends(p, q) && Spoiled(q)
    ensures Spoiled(p)
  {
    var b :| 0 <= b < |q| && SpoiledBlock(q[b]);
    var k :| 0 <= k < |q[b]| - 1 && q[b][k].Terminator();
    assert q[b] <= p[b] && p[b][k] == q[b][k];
    assert SpoiledBlock(p[b]);
  }

  lemma GrownSpoils(g: Gen, p: seq<Block>)
    requires g.Valid() && g.Closed() && Extends(p, g.blocks) && |p[g.cur]| > |g.blocks[g.cur]|
    ensures Spoiled(p)
  {
    var k :| 0 <= k < |g.blocks[g.cur]| && g.blocks[g.cur][k].Terminator();
    assert g.blocks[g.cur] <= p[g.cur] && p[g.cur][k] == g.blocks[g.cur][k];
    assert SpoiledBlock(p[g.cur]);
  }

  // ----- behind a return -----

  // In a block that has ended, a statement with code fails or spoils it.
  lemma LoudSpoils(g: Gen, s: Stmt)
    requires g.Valid() && g.Closed() && !Silent(Types(g.scope), s)
    ensures Doomed(LowerStmt(g, s))
  {
    hide ExprCode, ElementCode, CondCode, LowerList, Extends, Spoiled;
    var r := LowerStmt(g, s);
    if r.Ok? {
      StmtExtends(g, s);
      match s
      case AnnAssign(id, ty, init) =>
        EmitExtends(g, [Alloca(g.next, ty)]);
        if init.Some? {
          StoreExtends(DeclareSlot(g, id, ty), init.value, Tmp(g.next));
        }
        GrownSpoils(g, r.value.blocks);
      case Assign(id, value) =>
        StoreExtends(g, value, Tmp(g.scope[id].ptr));
        GrownSpoils(g, r.value.blocks);
      case AssignElem(arr, index, value) =>
        var a := ElementCode(g.scope, g.next, arr, index).value;
        EmitExtends(g, a.instrs);
        StoreExtends(EmitCode(g, a), value, a.opd);
        GrownSpoils(g, r.value.blocks);
      case Return(result) =>
        if result.Some? {
          ClosedStays(g, ExprCode(g.scope, g.next, result.value).value.instrs);
        }
        assert false;
      case ExprStmt(value) =>
        SilentCode(g.scope, g.next, value);
        EmitExtends(g, ExprCode(g.scope, g.next, value).value.instrs);
        GrownSpoils(g, r.value.blocks);
      case _ =>
        AppendKeepsClosed(g);
    }
  }

  lemma ClosedStays(g: Gen, instrs: seq<Instr>)
    requires g.Valid() && g.Closed()
    ensures Emit(g, instrs).Closed()
  {
    var k :| 0 <= k < |g.blocks[g.cur]| && g.blocks[g.cur][k].Terminator();
    assert (g.blocks[g.cur] + instrs)[k] == g.blocks[g.cur][k];
  }

  lemma AppendKeepsClosed(g: Gen)
    requires g.Valid() && g.Closed()
    ensures forall n :: AppendBlocks(g, n).Closed()
  {
  }

  // Behind a return: either nothing but silent statements, or doom.
  lemma {:induction false} BehindReturn(g: Gen, ss: seq<Stmt>)
    requires g.Valid() && g.Closed()
    ensures AllSilent(Types(g.scope), ss) || Doomed(LowerList(g, ss))
  {
    hide LowerStmt, Spoiled;
    if ss != [] {
      if !Silent(Types(g.scope), ss[0]) {
        LoudSpoils(g, ss[0]);
        SpoiledTail(g, ss);
      } else if LowerStmt(g, ss[0]).Ok? {
        SilentStmt(g, ss[0]);
        BehindReturn(g, ss[1..]);
        assert forall i :: 0 < i < |ss| ==> ss[i] == ss[1..][i - 1];
      }
    }
  }

  lemma SpoiledTail(g: Gen, ss: seq<Stmt>)
    requires g.Valid() && ss != [] && Doomed(LowerStmt(g, ss[0]))
    ensures Doomed(LowerList(g, ss))
  {
    hide LowerStmt, Spoiled;
    if LowerList(g, ss).Ok? {
      ListExtends(LowerStmt(g, ss[0]).value, ss[1..]);
      SpoiledStays(LowerList(g, ss).value.blocks, LowerStmt(g, ss[0]).value.blocks);
    }
  }

  lemma {:induction false} SilentTidy(types: Context, ss: seq<Stmt>)
    requires AllSilent(types, ss)
    ensures TidyList(types, ss)
  {
    if ss != [] {
      assert Silent(types, ss[0]);
      assert Tidy(types, ss[0]) && Leak(types, ss[0]) == types;
      SilentTidy(types, ss[1..]);
    }
  }

  // ----- lists and statements -----

  lemma {:induction false} ListExact(g: Gen, ss: seq<Stmt>)
    requires g.Valid() && !g.Closed() && AllTargets(g.blocks, |g.blocks|)
    ensures TidyList(Types(g.scope), ss) || Doomed(LowerList(g, ss))
    decreases ss, 0
  {
    hide LowerStmt, Spoiled, AllTargets, Tidy, Form, IsTerminated;
    if ss != [] {
      var r := LowerStmt(g, ss[0]);
      StmtExact(g, ss[0]);
      if Doomed(r) {
        SpoiledTail(g, ss);
      } else {
        StmtForm(g, ss[0]);
        StmtScope(g, ss[0]);
        if ss[0].Return? {
          ReturnCloses(g, r.value);
          BehindReturn(r.value, ss[1..]);
          if AllSilent(Types(r.value.scope), ss[1..]) {
            SilentTidy(Types(r.value.scope), ss[1..]);
          }
        } else {
          FormOpen(g, r.value);
          ListExact(r.value, ss[1..]);
        }
      }
    }
  }

  lemma ReturnCloses(g: Gen, g1: Gen)
    requires Form(g, g1, true)
    ensures g1.Valid() && g1.Closed()
  {
  }

  lemma {:induction false} StmtExact(g: Gen, s: Stmt)
    requires g.Valid() && !g.Closed() && AllTargets(g.blocks, |g.blocks|)
    ensures Tidy(Types(g.scope), s) || Doomed(LowerStmt(g, s))
    decreases s, 1
  {
    hide Spoiled, AllTargets, Tidy, LowerIf, LowerWhile, IsTerminated;
    match s
    case While(_, _) => WhileExact(g, s);
    case If(_, _, _) => IfExact(g, s);
    case _ => assert Tidy(Types(g.scope), s) by { FlatTidy(Types(g.scope), s); }
  }

  lemma FlatTidy(types: Context, s: Stmt)
    requires !s.If? && !s.While?
    ensures Tidy(types, s)
  {
  }

  lemma {:induction false} WhileExact(g: Gen, s: Stmt)
    requires s.While? && g.Valid() && !g.Closed() && AllTargets(g.blocks, |g.blocks|)
    ensures Tidy(Types(g.scope), s) || Doomed(LowerWhile(g, s))
    decreases s, 0
  {
    hide LowerList, Spoiled, AllTargets, TidyList, OpenTest, Close, IsTerminated;
    if LowerWhile(g, s).Ok? {
      OpenTestForm(g, s.test, 2);
      BranchExact(OpenTest(g, s.test, 2).value, s.body, |g.blocks|);
    }
  }

  lemma {:induction false} IfExact(g: Gen, s: Stmt)
    requires s.If? && g.Valid() && !g.Closed() && AllTargets(g.blocks, |g.blocks|)
    ensures Tidy(Types(g.scope), s) || Doomed(LowerIf(g, s))
    decreases s, 0
  {
    hide LowerList, Spoiled, AllTargets, TidyList, OpenTest, Close, IsTerminated;
    var n := |g.blocks|;
    if LowerIf(g, s).Ok? {
      var merge := if s.orelse == [] then n + 2 else n + 3;
      OpenTestForm(g, s.test, merge - n);
      var g1 := OpenTest(g, s.test, merge - n).value;
      var g3 := Close(LowerList(g1, s.body).value, merge);
      BranchExact(g1, s.body, merge);
      if s.orelse == [] {
        NothingBehind(LeakList(Types(g.scope), s.body));
      } else if TidyList(Types(g1.scope), s.body) {
        BranchForm(g1, s.body, merge);
        EmptyOpen(g3, n + 2);
        BranchExact(At(g3, n + 2), s.orelse, merge);
      } else {
        BranchSpoiled(At(g3, n + 2), s.orelse, merge);
      }
    }
  }

  lemma NothingBehind(types: Context)
    ensures TidyList(types, [])
  {
  }

  lemma {:induction false} BranchExact(g1: Gen, ss: seq<Stmt>, target: nat)
    requires g1.Valid() && !g1.Closed() && AllTargets(g1.blocks, |g1.blocks|)
    requires LowerList(g1, ss).Ok?
    ensures TidyList(Types(g1.scope), ss) || Spoiled(Close(LowerList(g1, ss).value, target).blocks)
    ensures |Close(LowerList(g1, ss).value, target).blocks| >= |g1.blocks|
    decreases ss, 1
  {
    hide Spoiled, LowerList, TidyList;
    ListExact(g1, ss);
    var r := LowerList(g1, ss);
    CloseGrows(r.value, target);
    if Spoiled(r.value.blocks) {
      SpoiledStays(Close(r.value, target).blocks, r.value.blocks);
    }
  }

  lemma BranchSpoiled(g: Gen, ss: seq<Stmt>, target: nat)
    requires g.Valid() && Spoiled(g.blocks) && LowerList(g, ss).Ok?
    ensures Spoiled(Close(LowerList(g, ss).value, target).blocks)
  {
    hide Spoiled, LowerList;
    RegionGrows(g, ss, target);
    SpoiledStays(Close(LowerList(g, ss).value, target).blocks, g.blocks);
  }

  // ----- functions -----

  // A function that the visitor compiles gets blocks that each have exactly one
  // terminator, in last place, if and only if nothing that compiles to code
  // stands behind a return.
  lemma WellFormedIff(f: Function)
    requires LowerFunction(f).Ok?
    ensures (forall b :: 0 <= b < |LowerFunction(f).value| ==> WellTerminated(LowerFunction(f).value[b]))
       <==> TidyList(ParamContext(f.params), f.body)
  {
    hide LowerList, TidyList, Extends;
    if TidyList(ParamContext(f.params), f.body) {
      FunctionForm(f);
    } else {
      SpillForm(EMPTY_GEN, f.params, 0);
      SpillTypes(EMPTY_GEN, f.params, 0);
      var g := SpillParams(EMPTY_GEN, f.params, 0);
      ListExact(g, f.body);
      var g1 := LowerList(g, f.body).value;
      EmitExtends(g1, [if f.returnsInt then Unreachable else RetVoid]);
      var p := LowerFunction(f).value;
      if !g1.Closed() {
        SpoiledStays(p, g1.blocks);
      }
      var b :| 0 <= b < |p| && SpoiledBlock(p[b]);
      assert !WellTerminated(p[b]);
    }
  }
}
