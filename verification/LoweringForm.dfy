// The form of the emitted graph, for every statement the visitor does not raise
// on: what it does to the blocks of the function and to the compiler's scope.

module LoweringForm {
  import opened Wrappers
  import opened PieSource
  import opened BlockIr
  import opened Lowering

  predicate AllTargets(blocks: seq<Block>, n: nat) {
    forall b :: 0 <= b < |blocks| ==> TargetsBelow(blocks[b], n)
  }

  // From g to g', only the current block and new blocks changed; the current
  // block only grew; of these, all but the one g' ends in are complete.
  ghost predicate Form(g: Gen, g': Gen, returned: bool) {
    && g.Valid() && g'.Valid()
    && |g.blocks| <= |g'.blocks| && g.next <= g'.next
    && (g'.cur == g.cur || g'.cur >= |g.blocks|)
    && (forall b :: 0 <= b < |g.blocks| && b != g.cur ==> g'.blocks[b] == g.blocks[b])
    && g.blocks[g.cur] <= g'.blocks[g.cur]
    && (forall b :: 0 <= b < |g'.blocks| && (b == g.cur || b >= |g.blocks|) && b != g'.cur ==>
          WellTerminated(g'.blocks[b]))
    && (if returned then WellTerminated(g'.blocks[g'.cur]) else !g'.Closed())
    && AllTargets(g'.blocks, |g'.blocks|)
  }

  lemma FormTrans(g: Gen, g1: Gen, g2: Gen, returned: bool)
    requires Form(g, g1, false) && Form(g1, g2, returned)
    ensures Form(g, g2, returned)
  {
    forall b | 0 <= b < |g.blocks| && b != g.cur
      ensures g2.blocks[b] == g.blocks[b]
    {
      assert g1.blocks[b] == g.blocks[b];
    }
    forall b | 0 <= b < |g2.blocks| && (b == g.cur || b >= |g.blocks|) && b != g2.cur
      ensures WellTerminated(g2.blocks[b])
    {
      if b < |g1.blocks| && b != g1.cur {
        assert WellTerminated(g1.blocks[b]) && g2.blocks[b] == g1.blocks[b];
      }
    }
  }

  lemma FormOpen(g: Gen, g1: Gen)
    requires Form(g, g1, false)
    ensures g1.Valid() && !g1.Closed() && AllTargets(g1.blocks, |g1.blocks|)
  {
  }

  // ----- straight-line code -----

  predicate Plain(instrs: seq<Instr>) {
    forall k :: 0 <= k < |instrs| ==> !instrs[k].Terminator()
  }

  lemma {:induction false} ExprPlain(scope: Scope, n: nat, e: Expr)
    requires ExprCode(scope, n, e).Ok?
    ensures Plain(ExprCode(scope, n, e).value.instrs)
    decreases e, 0
  {
    match e
    case Const(_) =>
    case Name(_) =>
    case Binary(_, l, r) =>
      ExprPlain(scope, n, l);
      ExprPlain(scope, ExprCode(scope, n, l).value.next, r);
    case Unary(_, x) => ExprPlain(scope, n, x);
    case Subscript(arr, index) => ElementPlain(scope, n, arr, index);
  }

  lemma {:induction false} ElementPlain(scope: Scope, n: nat, arr: string, index: Expr)
    requires ElementCode(scope, n, arr, index).Ok?
    ensures Plain(ElementCode(scope, n, arr, index).value.instrs)
    decreases index, 1
  {
    ExprPlain(scope, n, index);
  }

  lemma CondPlain(scope: Scope, n: nat, c: Cond)
    requires CondCode(scope, n, c).Ok?
    ensures Plain(CondCode(scope, n, c).value.instrs)
  {
    ExprPlain(scope, n, c.left);
    ExprPlain(scope, ExprCode(scope, n, c.left).value.next, c.right);
  }

  lemma PlainTargets(instrs: seq<Instr>, n: nat)
    requires Plain(instrs)
    ensures TargetsBelow(instrs, n)
  {
    forall k | 0 <= k < |instrs|
      ensures !instrs[k].Br? && !instrs[k].CondBr?
    {
      assert !instrs[k].Terminator();
    }
  }

  lemma TargetsMono(blocks: seq<Block>, m: nat, n: nat)
    requires m <= n && AllTargets(blocks, m)
    ensures AllTargets(blocks, n)
  {
    forall b | 0 <= b < |blocks|
      ensures TargetsBelow(blocks[b], n)
    {
      assert TargetsBelow(blocks[b], m);
    }
  }

  // Appending code without terminators to an open block.
  lemma PlainForm(g: Gen, instrs: seq<Instr>, scope': Scope, next': nat)
    requires g.Valid() && !g.Closed() && AllTargets(g.blocks, |g.blocks|)
    requires Plain(instrs) && g.next <= next'
    ensures Form(g, Emit(g, instrs).(scope := scope', next := next'), false)
  {
    var g' := Emit(g, instrs);
    PlainTargets(instrs, |g.blocks|);
    assert TargetsBelow(g.blocks[g.cur], |g.blocks|);
    forall b | 0 <= b < |g.blocks|
      ensures TargetsBelow(g'.blocks[b], |g.blocks|)
    {
      assert TargetsBelow(g.blocks[b], |g.blocks|);
    }
  }

  lemma StayForm(g: Gen)
    requires g.Valid() && !g.Closed() && AllTargets(g.blocks, |g.blocks|)
    ensures Form(g, g, false)
  {
  }

  lemma TerminateForm(g: Gen, i: Instr)
    requires g.Valid() && !g.Closed() && AllTargets(g.blocks, |g.blocks|)
    requires i.Terminator() && !i.Br? && !i.CondBr?
    ensures Terminate(g, i).Ok? && Form(g, Terminate(g, i).value, true)
  {
    var g' := Emit(g, [i]);
    forall b | 0 <= b < |g.blocks|
      ensures TargetsBelow(g'.blocks[b], |g.blocks|)
    {
      assert TargetsBelow(g.blocks[b], |g.blocks|);
    }
  }

  lemma TerminatedWell(b: Block, i: Instr)
    requires !IsTerminated(b) && i.Terminator()
    ensures WellTerminated(b + [i]) && IsTerminated(b + [i])
  {
    assert (b + [i])[|b|] == i;
  }

  lemma PlainOpen(b: Block)
    requires Plain(b)
    ensures !IsTerminated(b)
  {
  }

  lemma ExprForm(g: Gen, e: Expr)
    requires g.Valid() && !g.Closed() && AllTargets(g.blocks, |g.blocks|) && LowerExpr(g, e).Ok?
    ensures Form(g, LowerExpr(g, e).value.0, false)
  {
    ExprPlain(g.scope, g.next, e);
    var code := ExprCode(g.scope, g.next, e).value;
    PlainForm(g, code.instrs, g.scope, code.next);
  }

  lemma StoreForm(g: Gen, value: Expr, addr: Operand)
    requires g.Valid() && !g.Closed() && AllTargets(g.blocks, |g.blocks|) && StoreTo(g, value, addr).Ok?
    ensures Form(g, StoreTo(g, value, addr).value, false)
  {
    hide ExprCode;
    ExprForm(g, value);
    var v := LowerExpr(g, value).value;
    PlainForm(v.0, [StoreI(v.1, addr)], v.0.scope, v.0.next);
    FormTrans(g, v.0, StoreTo(g, value, addr).value, false);
  }

  // A statement that stays in its block.
  lemma FlatForm(g: Gen, s: Stmt)
    requires g.Valid() && !g.Closed() && AllTargets(g.blocks, |g.blocks|)
    requires LowerStmt(g, s).Ok? && !s.If? && !s.While?
    ensures Form(g, LowerStmt(g, s).value, s.Return?)
  {
    hide WellTerminated, IsTerminated, AllTargets, ExprCode, ElementCode, Form, StoreTo;
    match s
    case AnnAssign(id, ty, init) =>
      var g1 := DeclareSlot(g, id, ty);
      PlainForm(g, [Alloca(g.next, ty)], g1.scope, g1.next);
      if init.Some? {
        FormOpen(g, g1);
        StoreForm(g1, init.value, Tmp(g.next));
        FormTrans(g, g1, LowerStmt(g, s).value, false);
      }
    case Assign(id, value) =>
      StoreForm(g, value, Tmp(g.scope[id].ptr));
    case AssignElem(arr, index, value) =>
      var a := ElementCode(g.scope, g.next, arr, index).value;
      ElementPlain(g.scope, g.next, arr, index);
      PlainForm(g, a.instrs, g.scope, a.next);
      FormOpen(g, EmitCode(g, a));
      StoreForm(EmitCode(g, a), value, a.opd);
      FormTrans(g, EmitCode(g, a), LowerStmt(g, s).value, false);
    case Return(result) =>
      if result.Some? {
        ExprForm(g, result.value);
        var v := LowerExpr(g, result.value).value;
        FormOpen(g, v.0);
        TerminateForm(v.0, Ret(v.1));
        FormTrans(g, v.0, LowerStmt(g, s).value, true);
      } else {
        TerminateForm(g, RetVoid);
      }
    case Pass =>
      StayForm(g);
    case ExprStmt(value) =>
      ExprForm(g, value);
  }

  // What OpenTest builds.
  lemma OpenTestForm(g: Gen, test: Cond, extra: nat)
    requires g.Valid() && !g.Closed() && AllTargets(g.blocks, |g.blocks|) && extra >= 2
    requires OpenTest(g, test, extra).Ok?
    ensures !OpenTest(g, test, extra).value.Closed()
    ensures var n, g' := |g.blocks|, OpenTest(g, test, extra).value;
      && g'.scope == g.scope && g.next <= g'.next
      && g'.blocks[g.cur] == g.blocks[g.cur] + [Br(n)] && WellTerminated(g'.blocks[g.cur])
      && WellTerminated(g'.blocks[n])
      && CondCode(g.scope, g.next, test).Ok?
      && var code := CondCode(g.scope, g.next, test).value;
      && g'.blocks[n] == code.instrs + [CondBr(code.opd, n + 1, n + 2)] && g'.next == code.next
      && (forall b :: 0 <= b < n && b != g.cur ==> g'.blocks[b] == g.blocks[b])
      && (forall b :: n < b < |g'.blocks| ==> g'.blocks[b] == [])
      && AllTargets(g'.blocks, |g'.blocks|)
  {
    hide CondCode;
    var n := |g.blocks|;
    var m := n + 1 + extra;
    TerminatedWell(g.blocks[g.cur], Br(n));
    CondPlain(g.scope, g.next, test);
    var code := CondCode(g.scope, g.next, test).value;
    var entry := code.instrs + [CondBr(code.opd, n + 1, n + 2)];
    PlainOpen(code.instrs);
    TerminatedWell(code.instrs, CondBr(code.opd, n + 1, n + 2));
    PlainTargets(code.instrs, m);
    var g1 := Terminate(AppendBlocks(g, 1 + extra), Br(n)).value;
    assert g1.blocks[n] == [];
    var ge := EmitCode(At(g1, n), code);
    assert ge.blocks[n] == [] + code.instrs == code.instrs;
    var g' := OpenTest(g, test, extra).value;
    assert g'.blocks[n] == entry;
    TargetsMono(g.blocks, n, m);
    forall b | 0 <= b < m
      ensures TargetsBelow(g'.blocks[b], m)
    {
      if b < n {
        assert TargetsBelow(g.blocks[b], m);
      }
    }
  }

  // Opening a test succeeds in an open block if the test compiles.
  lemma OpenTestSucceeds(g: Gen, test: Cond, extra: nat)
    requires g.Valid() && !g.Closed() && extra >= 2 && CondCode(g.scope, g.next, test).Ok?
    ensures OpenTest(g, test, extra).Ok?
  {
    hide CondCode;
    CondPlain(g.scope, g.next, test);
    var code := CondCode(g.scope, g.next, test).value;
    PlainOpen(code.instrs);
    var g1 := Terminate(AppendBlocks(g, 1 + extra), Br(|g.blocks|)).value;
    assert EmitCode(At(g1, |g.blocks|), code).blocks[|g.blocks|] == [] + code.instrs == code.instrs;
  }

  // ----- branches and bodies -----

  // Closing the block that a branch ended in.
  lemma CloseForm(g: Gen, target: nat)
    requires g.Valid() && AllTargets(g.blocks, |g.blocks|) && target < |g.blocks|
    requires g.Closed() ==> WellTerminated(g.blocks[g.cur])
    ensures var g' := Close(g, target);
      && WellTerminated(g'.blocks[g.cur]) && |g'.blocks| == |g.blocks|
      && g'.cur == g.cur && g'.scope == g.scope && g'.next == g.next
      && g.blocks[g.cur] <= g'.blocks[g.cur]
      && (forall b :: 0 <= b < |g.blocks| && b != g.cur ==> g'.blocks[b] == g.blocks[b])
      && AllTargets(g'.blocks, |g'.blocks|)
  {
    var g' := Close(g, target);
    if !g.Closed() {
      TerminatedWell(g.blocks[g.cur], Br(target));
      forall b | 0 <= b < |g.blocks|
        ensures TargetsBelow(g'.blocks[b], |g.blocks|)
      {
        assert TargetsBelow(g.blocks[b], |g.blocks|);
      }
    }
  }

  // A branch of an if, or the body of a while, compiled into the empty block
  // g.cur and closed: everything it touched is complete.
  ghost predicate Filled(g: Gen, g': Gen) {
    && g.Valid() && g'.Valid()
    && |g.blocks| <= |g'.blocks| && g.next <= g'.next
    && (forall b :: 0 <= b < |g.blocks| && b != g.cur ==> g'.blocks[b] == g.blocks[b])
    && g.blocks[g.cur] <= g'.blocks[g.cur]
    && (forall b :: 0 <= b < |g'.blocks| && (b == g.cur || b >= |g.blocks|) ==> WellTerminated(g'.blocks[b]))
    && AllTargets(g'.blocks, |g'.blocks|)
  }

  lemma FilledOf(g: Gen, g1: Gen, target: nat, returned: bool)
    requires Form(g, g1, returned) && target < |g1.blocks|
    ensures Filled(g, Close(g1, target))
    ensures Close(g1, target).scope == g1.scope && Close(g1, target).next == g1.next
  {
    CloseForm(g1, target);
    var g2 := Close(g1, target);
    forall b | 0 <= b < |g2.blocks| && (b == g.cur || b >= |g.blocks|)
      ensures WellTerminated(g2.blocks[b])
    {
      if b != g1.cur {
        assert WellTerminated(g1.blocks[b]);
      }
    }
  }

  lemma FilledKeeps(g: Gen, g': Gen)
    requires Filled(g, g')
    ensures g.Valid() && g'.Valid() && |g.blocks| <= |g'.blocks| && g.next <= g'.next
    ensures forall b :: 0 <= b < |g.blocks| && b != g.cur ==> g'.blocks[b] == g.blocks[b]
    ensures AllTargets(g'.blocks, |g'.blocks|)
    ensures forall b :: 0 <= b < |g'.blocks| && g'.blocks[b] == [] ==> !At(g', b).Closed()
  {
  }

  predicate ListReturns(ss: seq<Stmt>) {
    ss != [] && (ss[0].Return? || ListReturns(ss[1..]))
  }

  // What may follow a return leaves the generator as it is.
  lemma {:induction false} SilentCode(scope: Scope, n: nat, e: Expr)
    requires ExprCode(scope, n, e).Ok?
    ensures SilentExpr(Types(scope), e) <==> ExprCode(scope, n, e).value.instrs == []
    ensures SilentExpr(Types(scope), e) ==> ExprCode(scope, n, e).value.next == n
  {
    if e.Unary? {
      SilentCode(scope, n, e.operand);
    }
  }

  lemma SilentStmt(g: Gen, s: Stmt)
    requires g.Valid() && LowerStmt(g, s).Ok? && Silent(Types(g.scope), s)
    ensures LowerStmt(g, s) == Ok(g)
  {
    if s.ExprStmt? {
      SilentCode(g.scope, g.next, s.value);
      EmitNothing(g, Imm(0));
    }
  }

  lemma {:induction false} SilentList(g: Gen, ss: seq<Stmt>)
    requires g.Valid() && LowerList(g, ss).Ok? && AllSilent(Types(g.scope), ss)
    ensures LowerList(g, ss) == Ok(g) && !ListReturns(ss)
  {
    hide LowerStmt;
    if ss != [] {
      assert Silent(Types(g.scope), ss[0]);
      SilentStmt(g, ss[0]);
      SilentList(g, ss[1..]);
    }
  }

  // ----- the compiler's scope -----

  // Names that are declared have new slots; all others keep theirs.
  ghost predicate Moves(g: Gen, g': Gen, declared: set<string>) {
    && g.next <= g'.next
    && (forall x :: x !in declared ==> (x in g'.scope <==> x in g.scope))
    && (forall x :: x !in declared && x in g.scope ==> g'.scope[x] == g.scope[x])
    && (forall x :: x in declared ==> x in g'.scope && g.next <= g'.scope[x].ptr < g'.next)
  }

  lemma MovesTrans(g: Gen, g1: Gen, g2: Gen, d1: set<string>, d2: set<string>)
    requires Moves(g, g1, d1) && Moves(g1, g2, d2)
    ensures Moves(g, g2, d1 + d2)
  {
    forall x | x in d1 + d2
      ensures x in g2.scope && g.next <= g2.scope[x].ptr < g2.next
    {
      if x !in d2 {
        assert x in g1.scope;
      }
    }
  }

  lemma OpenTestScope(g: Gen, test: Cond, extra: nat)
    requires g.Valid() && extra >= 2 && OpenTest(g, test, extra).Ok?
    ensures OpenTest(g, test, extra).value.scope == g.scope && g.next <= OpenTest(g, test, extra).value.next
    ensures Moves(g, OpenTest(g, test, extra).value, {})
  {
  }

  lemma StoreScope(g: Gen, value: Expr, addr: Operand)
    requires g.Valid() && StoreTo(g, value, addr).Ok?
    ensures StoreTo(g, value, addr).value.scope == g.scope && g.next <= StoreTo(g, value, addr).value.next
  {
  }

  // A statement changes the scope as its declarations say, whatever the blocks.
  lemma {:induction false} StmtScope(g: Gen, s: Stmt)
    requires g.Valid() && LowerStmt(g, s).Ok?
    ensures Moves(g, LowerStmt(g, s).value, Declared(s))
    ensures Types(LowerStmt(g, s).value.scope) == Leak(Types(g.scope), s)
    decreases s, 1
  {
    hide ExprCode, ElementCode, StoreTo, IsTerminated, LowerIf, LowerWhile;
    match s
    case AnnAssign(id, ty, init) =>
      if init.Some? {
        StoreScope(DeclareSlot(g, id, ty), init.value, Tmp(g.next));
      }
    case Assign(id, value) => StoreScope(g, value, Tmp(g.scope[id].ptr));
    case AssignElem(arr, index, value) =>
      var a := ElementCode(g.scope, g.next, arr, index).value;
      StoreScope(EmitCode(g, a), value, a.opd);
    case If(_, _, _) => IfScope(g, s);
    case While(_, _) => WhileScope(g, s);
    case _ =>
  }

  lemma {:induction false} IfScope(g: Gen, s: Stmt)
    requires g.Valid() && s.If? && LowerIf(g, s).Ok?
    ensures Moves(g, LowerIf(g, s).value, Declared(s))
    ensures Types(LowerIf(g, s).value.scope) == Leak(Types(g.scope), s)
    decreases s, 0
  {
    hide OpenTest, Close, LowerList, Types, LeakList, DeclaredList, IsTerminated;
    var n := |g.blocks|;
    var merge := if s.orelse == [] then n + 2 else n + 3;
    OpenTestScope(g, s.test, merge - n);
    var g1 := OpenTest(g, s.test, merge - n).value;
    var g3 := Close(LowerList(g1, s.body).value, merge);
    RegionScope(g1, s.body, merge);
    if s.orelse == [] {
      NothingDeclared(Types(g3.scope));
    } else {
      RegionScope(At(g3, n + 2), s.orelse, merge);
      var last := Close(LowerList(At(g3, n + 2), s.orelse).value, merge);
      IfMoves(g, g1, g3, last, merge, DeclaredList(s.body), DeclaredList(s.orelse));
    }
  }

  lemma NothingDeclared(types: Context)
    ensures DeclaredList([]) == {} && LeakList(types, []) == types
  {
  }

  lemma IfMoves(g: Gen, g1: Gen, g3: Gen, last: Gen, merge: nat, d1: set<string>, d2: set<string>)
    requires Moves(g, g1, {}) && Moves(g1, g3, d1) && Moves(At(g3, |g.blocks| + 2), last, d2)
    ensures Moves(g, At(last, merge), d1 + d2)
  {
    MovesTrans(g, g1, g3, {}, d1);
    assert {} + d1 == d1;
    MovesTrans(g, g3, last, d1, d2);
  }

  lemma {:induction false} WhileScope(g: Gen, s: Stmt)
    requires g.Valid() && s.While? && LowerWhile(g, s).Ok?
    ensures Moves(g, LowerWhile(g, s).value, Declared(s))
    ensures Types(LowerWhile(g, s).value.scope) == Leak(Types(g.scope), s)
    decreases s, 0
  {
    hide OpenTest, Close, LowerList, Types, LeakList, DeclaredList, IsTerminated;
    OpenTestScope(g, s.test, 2);
    RegionScope(OpenTest(g, s.test, 2).value, s.body, |g.blocks|);
  }

  lemma {:induction false} RegionScope(g: Gen, ss: seq<Stmt>, target: nat)
    requires g.Valid() && LowerList(g, ss).Ok?
    ensures var g' := Close(LowerList(g, ss).value, target); g'.Valid() && |g.blocks| <= |g'.blocks|
    ensures Moves(g, Close(LowerList(g, ss).value, target), DeclaredList(ss))
    ensures Types(Close(LowerList(g, ss).value, target).scope) == LeakList(Types(g.scope), ss)
    decreases ss, 1
  {
    hide LowerList;
    ListScope(g, ss);
  }

  lemma {:induction false} ListScope(g: Gen, ss: seq<Stmt>)
    requires g.Valid() && LowerList(g, ss).Ok?
    ensures Moves(g, LowerList(g, ss).value, DeclaredList(ss))
    ensures Types(LowerList(g, ss).value.scope) == LeakList(Types(g.scope), ss)
    decreases ss, 0
  {
    hide LowerStmt, Leak, Declared, Moves;
    if ss == [] {
      MovesNowhere(g);
    } else {
      var g1 := LowerStmt(g, ss[0]).value;
      StmtScope(g, ss[0]);
      ListScope(g1, ss[1..]);
      MovesTrans(g, g1, LowerList(g, ss).value, Declared(ss[0]), DeclaredList(ss[1..]));
    }
  }

  lemma MovesNowhere(g: Gen)
    ensures Moves(g, g, {})
  {
  }

  // ----- statements -----

  // A branch compiled at an open block, and closed.
  lemma {:induction false} BranchForm(g1: Gen, ss: seq<Stmt>, target: nat)
    requires g1.Valid() && !g1.Closed() && AllTargets(g1.blocks, |g1.blocks|) && target < |g1.blocks|
    requires LowerList(g1, ss).Ok? && TidyList(Types(g1.scope), ss)
    ensures var g2 := LowerList(g1, ss).value; var g3 := Close(g2, target);
      && Filled(g1, g3) && Types(g3.scope) == LeakList(Types(g1.scope), ss)
      && g3.Valid() && |g1.blocks| <= |g3.blocks| && g3.scope == g2.scope && g3.next == g2.next
      && (forall b :: 0 <= b < |g1.blocks| && b != g1.cur ==> g3.blocks[b] == g1.blocks[b])
      && AllTargets(g3.blocks, |g3.blocks|)
    decreases ss, 1
  {
    hide WellTerminated, IsTerminated, TargetsBelow, Close, LowerList, AllTargets, Filled, Form;
    ListForm(g1, ss);
    ListScope(g1, ss);
    var g2 := LowerList(g1, ss).value;
    FormGrows(g1, g2, ListReturns(ss));
    FilledOf(g1, g2, target, ListReturns(ss));
    FilledKeeps(g1, Close(g2, target));
  }

  lemma FormGrows(g: Gen, g': Gen, returned: bool)
    requires Form(g, g', returned)
    ensures g.Valid() && g'.Valid() && |g.blocks| <= |g'.blocks|
  {
  }

  lemma EmptyOpen(g: Gen, b: nat)
    requires b < |g.blocks| && g.blocks[b] == []
    ensures At(g, b).Valid() && !At(g, b).Closed()
  {
  }

  // The compiled parts of a while: the opened test, then the body.
  ghost predicate WhileForm(g: Gen, s: Stmt)
    requires g.Valid() && s.While?
  {
    var n := |g.blocks|;
    && OpenTest(g, s.test, 2).Ok?
    && var g1 := OpenTest(g, s.test, 2).value;
    && LowerList(g1, s.body).Ok?
    && var last := Close(LowerList(g1, s.body).value, n);
    && Filled(g1, last) && n + 2 < |last.blocks|
    && last.scope == LowerList(g1, s.body).value.scope && last.next == LowerList(g1, s.body).value.next
    && last.blocks[n + 2] == []
    && LowerWhile(g, s) == Ok(At(last, n + 2))
  }

  lemma {:induction false} WhileFormHolds(g: Gen, s: Stmt)
    requires s.While? && g.Valid() && !g.Closed() && AllTargets(g.blocks, |g.blocks|)
    requires LowerWhile(g, s).Ok? && Tidy(Types(g.scope), s)
    ensures WhileForm(g, s)
    decreases s, 0
  {
    hide WellTerminated, IsTerminated, TargetsBelow, OpenTest, Close, LowerList, AllTargets, Filled;
    var n := |g.blocks|;
    OpenTestForm(g, s.test, 2);
    BranchForm(OpenTest(g, s.test, 2).value, s.body, n);
  }

  // The compiled parts of an if: the opened test, then one or two branches.
  ghost predicate IfForm(g: Gen, s: Stmt)
    requires g.Valid() && s.If?
  {
    var n := |g.blocks|;
    var merge := if s.orelse == [] then n + 2 else n + 3;
    && OpenTest(g, s.test, merge - n).Ok?
    && var g1 := OpenTest(g, s.test, merge - n).value;
    && LowerList(g1, s.body).Ok?
    && var g3 := Close(LowerList(g1, s.body).value, merge);
    && Filled(g1, g3) && merge < |g3.blocks|
    && g3.scope == LowerList(g1, s.body).value.scope && g3.next == LowerList(g1, s.body).value.next
    && Types(g3.scope) == LeakList(Types(g.scope), s.body)
    && g3.blocks[merge] == []
    && if s.orelse == [] then LowerIf(g, s) == Ok(At(g3, merge))
       else ElseForm(g, s, g3)
  }

  ghost predicate ElseForm(g: Gen, s: Stmt, g3: Gen)
    requires g.Valid() && s.If? && g3.Valid() && |g.blocks| + 3 < |g3.blocks|
  {
    var n := |g.blocks|;
    var ge := At(g3, n + 2);
    && ge.blocks[n + 2] == []
    && LowerList(ge, s.orelse).Ok?
    && var last := Close(LowerList(ge, s.orelse).value, n + 3);
    && Filled(ge, last) && n + 3 < |last.blocks|
    && last.scope == LowerList(ge, s.orelse).value.scope && last.next == LowerList(ge, s.orelse).value.next
    && last.blocks[n + 3] == []
    && LowerIf(g, s) == Ok(At(last, n + 3))
  }

  lemma {:induction false} IfFormHolds(g: Gen, s: Stmt)
    requires s.If? && g.Valid() && !g.Closed() && AllTargets(g.blocks, |g.blocks|)
    requires LowerIf(g, s).Ok? && Tidy(Types(g.scope), s)
    ensures IfForm(g, s)
    decreases s, 0
  {
    hide WellTerminated, IsTerminated, TargetsBelow, OpenTest, Close, LowerList, AllTargets, Filled;
    var n := |g.blocks|;
    var merge := if s.orelse == [] then n + 2 else n + 3;
    OpenTestForm(g, s.test, merge - n);
    var g1 := OpenTest(g, s.test, merge - n).value;
    BranchForm(g1, s.body, merge);
    var g3 := Close(LowerList(g1, s.body).value, merge);
    if s.orelse != [] {
      EmptyOpen(g3, n + 2);
      BranchForm(At(g3, n + 2), s.orelse, merge);
    }
  }

  // After the test was opened as g1 and its branches were compiled and closed,
  // the generator moves to an empty block `merge`.
  lemma AfterRegions(g: Gen, g1: Gen, last: Gen, merge: nat)
    requires g.Valid() && g1.Valid() && last.Valid()
    requires g.next <= g1.next && |g.blocks| < |g1.blocks| <= |last.blocks|
    requires g.blocks[g.cur] <= g1.blocks[g.cur] && WellTerminated(g1.blocks[g.cur])
    requires forall b :: 0 <= b < |g.blocks| && b != g.cur ==> g1.blocks[b] == g.blocks[b]
    requires forall b :: 0 <= b < |g.blocks| ==> last.blocks[b] == g1.blocks[b]
    requires forall b :: |g.blocks| <= b < |last.blocks| && b != merge ==> WellTerminated(last.blocks[b])
    requires |g.blocks| <= merge < |last.blocks| && last.blocks[merge] == []
    requires g1.next <= last.next && AllTargets(last.blocks, |last.blocks|)
    ensures Form(g, At(last, merge), false)
  {
  }

  // Two branches, in the blocks n + 1 and n + 2.
  lemma TwoRegions(g1: Gen, g3: Gen, last: Gen, n: nat)
    requires g1.cur == n + 1 && |g1.blocks| == n + 4 && WellTerminated(g1.blocks[n])
    requires Filled(g1, g3) && Filled(At(g3, n + 2), last)
    requires forall b :: n < b < |g1.blocks| ==> g1.blocks[b] == []
    ensures last.blocks[n + 3] == []
    ensures forall b :: 0 <= b < n ==> last.blocks[b] == g1.blocks[b]
    ensures forall b :: n <= b < |last.blocks| && b != n + 3 ==> WellTerminated(last.blocks[b])
    ensures g1.next <= last.next && |g1.blocks| <= |last.blocks|
  {
    forall b | n <= b < |last.blocks| && b != n + 3
      ensures WellTerminated(last.blocks[b])
    {
      if b < |g3.blocks| && b != n + 2 {
        assert last.blocks[b] == g3.blocks[b];
      }
    }
  }

  // A single branch, in block n + 1.
  lemma OneRegion(g1: Gen, last: Gen, n: nat)
    requires g1.cur == n + 1 && |g1.blocks| == n + 3 && WellTerminated(g1.blocks[n])
    requires Filled(g1, last)
    requires forall b :: n < b < |g1.blocks| ==> g1.blocks[b] == []
    ensures last.blocks[n + 2] == []
    ensures forall b :: 0 <= b < n ==> last.blocks[b] == g1.blocks[b]
    ensures forall b :: n <= b < |last.blocks| && b != n + 2 ==> WellTerminated(last.blocks[b])
    ensures g1.next <= last.next && |g1.blocks| <= |last.blocks|
  {
    forall b | n <= b < |last.blocks| && b != n + 2
      ensures WellTerminated(last.blocks[b])
    {
      if b == n {
        assert last.blocks[b] == g1.blocks[b];
      }
    }
  }

  lemma WhileFormed(g: Gen, s: Stmt)
    requires s.While? && g.Valid() && !g.Closed() && AllTargets(g.blocks, |g.blocks|)
    requires LowerWhile(g, s).Ok? && WhileForm(g, s)
    ensures Form(g, LowerWhile(g, s).value, false)
  {
    hide WellTerminated, IsTerminated, TargetsBelow, OpenTest, Close, LowerList, AllTargets, LowerWhile, Form;
    var n := |g.blocks|;
    OpenTestForm(g, s.test, 2);
    var g1 := OpenTest(g, s.test, 2).value;
    var last := Close(LowerList(g1, s.body).value, n);
    OneRegion(g1, last, n);
    AfterRegions(g, g1, last, n + 2);
  }

  lemma IfFormed(g: Gen, s: Stmt)
    requires s.If? && g.Valid() && !g.Closed() && AllTargets(g.blocks, |g.blocks|)
    requires LowerIf(g, s).Ok? && IfForm(g, s)
    ensures Form(g, LowerIf(g, s).value, false)
  {
    hide WellTerminated, IsTerminated, TargetsBelow, OpenTest, Close, LowerList, AllTargets, LowerIf, Form;
    var n := |g.blocks|;
    var merge := if s.orelse == [] then n + 2 else n + 3;
    OpenTestForm(g, s.test, merge - n);
    var g1 := OpenTest(g, s.test, merge - n).value;
    var g3 := Close(LowerList(g1, s.body).value, merge);
    if s.orelse == [] {
      OneRegion(g1, g3, n);
      AfterRegions(g, g1, g3, merge);
    } else {
      var last := Close(LowerList(At(g3, n + 2), s.orelse).value, merge);
      TwoRegions(g1, g3, last, n);
      AfterRegions(g, g1, last, merge);
    }
  }

  // Visiting a tidy statement at an open block, if it raises nothing, changes
  // no block but the current one and new ones, completes all of these but the
  // one it ends in, and branches only to existing blocks.
  lemma {:induction false} StmtForm(g: Gen, s: Stmt)
    requires g.Valid() && !g.Closed() && AllTargets(g.blocks, |g.blocks|)
    requires LowerStmt(g, s).Ok? && Tidy(Types(g.scope), s)
    ensures Form(g, LowerStmt(g, s).value, s.Return?)
    decreases s, 1
  {
    hide WellTerminated, IsTerminated, AllTargets, Form, LowerIf, LowerWhile, Tidy;
    match s
    case If(_, _, _) =>
      IfFormHolds(g, s);
      IfFormed(g, s);
    case While(_, _) =>
      WhileFormHolds(g, s);
      WhileFormed(g, s);
    case _ =>
      FlatForm(g, s);
  }

  lemma {:induction false} ListForm(g: Gen, ss: seq<Stmt>)
    requires g.Valid() && !g.Closed() && AllTargets(g.blocks, |g.blocks|)
    requires LowerList(g, ss).Ok? && TidyList(Types(g.scope), ss)
    ensures Form(g, LowerList(g, ss).value, ListReturns(ss))
    decreases ss, 0
  {
    hide WellTerminated, IsTerminated, TargetsBelow, AllTargets, LowerStmt, Form, Tidy;
    if ss == [] {
      StayForm(g);
    } else {
      var g1 := LowerStmt(g, ss[0]).value;
      StmtForm(g, ss[0]);
      StmtScope(g, ss[0]);
      if ss[0].Return? {
        SilentList(g1, ss[1..]);
      } else {
        FormOpen(g, g1);
        ListForm(g1, ss[1..]);
        FormTrans(g, g1, LowerList(g, ss).value, ListReturns(ss[1..]));
      }
    }
  }

  // ----- functions -----

  lemma {:induction false} SpillForm(g: Gen, params: seq<string>, i: nat)
    requires g.Valid() && !g.Closed() && AllTargets(g.blocks, |g.blocks|) && i <= |params|
    ensures Form(g, SpillParams(g, params, i), false)
    decreases |params| - i
  {
    if i == |params| {
      StayForm(g);
    } else {
      var d := DeclareSlot(g, params[i], IntTy);
      PlainForm(g, [Alloca(g.next, IntTy)], d.scope, d.next);
      var g1 := Emit(d, [StoreI(Arg(i), Tmp(g.next))]);
      PlainForm(d, [StoreI(Arg(i), Tmp(g.next))], d.scope, d.next);
      SpillForm(g1, params, i + 1);
      FormTrans(g, d, g1, false);
      FormTrans(g, g1, SpillParams(g, params, i), false);
    }
  }

  lemma {:induction false} SpillTypes(g: Gen, params: seq<string>, i: nat)
    requires g.Valid() && i <= |params| && Types(g.scope) == ParamContext(params[..i])
    ensures Types(SpillParams(g, params, i).scope) == ParamContext(params)
    decreases |params| - i
  {
    if i == |params| {
      assert params[..i] == params;
    } else {
      var g1 := Emit(DeclareSlot(g, params[i], IntTy), [StoreI(Arg(i), Tmp(g.next))]);
      assert params[..i + 1] == params[..i] + [params[i]];
      assert ParamContext(params[..i + 1]) == ParamContext(params[..i])[params[i] := IntTy];
      assert Types(g1.scope) == Types(g.scope)[params[i] := IntTy];
      SpillTypes(g1, params, i + 1);
    }
  }

  // A function that is compiled, and has nothing that compiles to code behind a
  // return, gets blocks that each have exactly one terminator, in last place,
  // and branch to blocks that exist.
  lemma FunctionForm(f: Function)
    requires LowerFunction(f).Ok? && TidyList(ParamContext(f.params), f.body)
    ensures forall b :: 0 <= b < |LowerFunction(f).value| ==>
      && WellTerminated(LowerFunction(f).value[b])
      && TargetsBelow(LowerFunction(f).value[b], |LowerFunction(f).value|)
  {
    hide LowerList, TidyList, WellTerminated;
    var g := SpillParams(EMPTY_GEN, f.params, 0);
    SpillForm(EMPTY_GEN, f.params, 0);
    SpillTypes(EMPTY_GEN, f.params, 0);
    ListForm(g, f.body);
    var g1 := LowerList(g, f.body).value;
    FormTrans(EMPTY_GEN, g, g1, ListReturns(f.body));
    if !g1.Closed() {
      TerminateForm(g1, if f.returnsInt then Unreachable else RetVoid);
    }
    var p := LowerFunction(f).value;
    forall b | 0 <= b < |p|
      ensures WellTerminated(p[b]) && TargetsBelow(p[b], |p|)
    {
      if b != g1.cur {
        assert WellTerminated(g1.blocks[b]);
      }
    }
  }
}
