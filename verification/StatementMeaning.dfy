// Meaning preservation for statements and functions.

module StatementMeaning {
  import opened Wrappers
  import opened MachineInt
  import opened PieSource
  import opened BlockIr
  import opened Lowering
  import opened LoweringForm
  import opened LoweringShape
  import opened LoweringMeaning

  // The machine is where the generator stopped.
  predicate AtEnd(st: State, g: Gen) {
    g.Valid() && st.Running? && st.blk == g.cur && st.pc == |g.blocks[g.cur]|
  }

  // The state reached after k steps stands for the outcome of the source:
  // still at the end of the emitted code with the same variables, stopped with
  // the same result, undefined, or still running after `fuel` steps.
  ghost predicate Reaches(ctx: Context, g': Gen, o: Outcome, fuel: nat, k: nat, st': State) {
    match o
    case Next(s') => AtEnd(st', g') && Linked(ctx, g'.scope, g'.next, s', st'.tmps, st'.mem)
    case Returned(v) => st' == Halted(if v.None? then RetNothing else RetValue(ToWord(v.value)))
    case Undef => st' == Undefined
    case Timeout => st'.Running? && k >= fuel
  }

  // Writing a cell of the object that a variable is linked to.
  lemma LinkedWrite(ctx: Context, scope: Scope, n: nat, s: Store, tmps: map<nat, Value>,
                    mem: seq<Object>, id: string, k: int, v: Int64)
    requires Linked(ctx, scope, n, s, tmps, mem) && id in ctx && id in s && 0 <= k < |s[id].cells|
    ensures id in scope && scope[id].ptr in tmps && tmps[scope[id].ptr].PtrV?
    ensures var o := tmps[scope[id].ptr].obj;
      && o < |mem| && k < |mem[o]|
      && Linked(ctx, scope, n, s[id := SetCell(s[id], k, Some(v))], tmps, mem[o := mem[o][k := Some(ToWord(v))]])
  {
    VariableLinked(ctx, scope, n, s, tmps, mem, id);
    var o := tmps[scope[id].ptr].obj;
    var s' := s[id := SetCell(s[id], k, Some(v))];
    var mem' := mem[o := mem[o][k := Some(ToWord(v))]];
    forall x | x in ctx
      ensures LinkedAt(ctx, scope, n, s', tmps, mem', x)
    {
      VariableLinked(ctx, scope, n, s, tmps, mem, x);
      if x != id {
        assert tmps[scope[x].ptr] != tmps[scope[id].ptr];
      }
    }
  }

  // A new object for a newly declared variable.
  lemma LinkedDeclare(ctx: Context, scope: Scope, n: nat, s: Store, tmps: map<nat, Value>,
                      mem: seq<Object>, id: string, ty: Ty)
    requires Linked(ctx, scope, n, s, tmps, mem) && id !in ctx
    ensures Linked(ctx[id := ty], scope[id := Slot(n, ty)], n + 1, s[id := NewVariable(ty)],
                   tmps[n := PtrV(|mem|, 0)], mem + [seq(Size(ty), k => None)])
  {
    var ctx', scope', s' := ctx[id := ty], scope[id := Slot(n, ty)], s[id := NewVariable(ty)];
    var tmps', mem' := tmps[n := PtrV(|mem|, 0)], mem + [seq(Size(ty), k => None)];
    forall x | x in ctx'
      ensures LinkedAt(ctx', scope', n + 1, s', tmps', mem', x)
    {
      if x != id {
        VariableLinked(ctx, scope, n, s, tmps, mem, x);
      }
    }
    forall x, y | x in ctx' && y in ctx' && x != y
      ensures tmps'[scope'[x].ptr] != tmps'[scope'[y].ptr]
    {
      if x != id {
        VariableLinked(ctx, scope, n, s, tmps, mem, x);
      }
      if y != id {
        VariableLinked(ctx, scope, n, s, tmps, mem, y);
      }
    }
  }

  // The code of an expression, run from the end of the generator's block.
  lemma EmitExprSim(p: seq<Block>, args: seq<Word>, ctx: Context, g: Gen, e: Expr, s: Store, st: State)
    returns (k: nat, tmps': map<nat, Value>)
    requires AtEnd(st, g) && CheckExpr(ctx, e) && LowerExpr(g, e).Ok?
    requires Extends(p, LowerExpr(g, e).value.0.blocks)
    requires Linked(ctx, g.scope, g.next, s, st.tmps, st.mem)
    ensures var g1, v := LowerExpr(g, e).value.0, EvalExpr(e, s);
      if v.Some? then
        && var st' := Running(st.blk, st.pc + k, tmps', st.mem);
        && Run(p, args, st, k) == st' && AtEnd(st', g1)
        && Agree(st.tmps, tmps', g.next)
        && OperandValue(args, tmps', LowerExpr(g, e).value.1) == Some(WordV(ToWord(v.value)))
        && Linked(ctx, g1.scope, g1.next, s, tmps', st.mem)
      else Run(p, args, st, k) == Undefined
    ensures LowerExpr(g, e).value.0.scope == g.scope && g.next <= LowerExpr(g, e).value.0.next
  {
    hide Linked, Run, CodeAt, Extends, ExprCode, EvalExpr, CheckExpr;
    var code := ExprCode(g.scope, g.next, e).value;
    EmittedCodeAt(p, g, code.instrs);
    tmps' := ExprSim(p, args, ctx, g.scope, g.next, e, code, s, st);
    k := |code.instrs|;
    if EvalExpr(e, s).Some? {
      LinkedMove(ctx, g.scope, g.next, code.next, s, st.tmps, tmps', st.mem);
    }
  }

  // An expression stored through an address that points to cell k of id.
  lemma StoreSim(p: seq<Block>, args: seq<Word>, ctx: Context, g: Gen, value: Expr, addr: Operand,
                 id: string, c: int, s: Store, fuel: nat, st: State)
    returns (k: nat, st': State)
    requires AtEnd(st, g) && CheckExpr(ctx, value) && StoreTo(g, value, addr).Ok?
    requires Extends(p, StoreTo(g, value, addr).value.blocks)
    requires Linked(ctx, g.scope, g.next, s, st.tmps, st.mem)
    requires id in ctx && LinkedAt(ctx, g.scope, g.next, s, st.tmps, st.mem, id)
    requires addr.Tmp? && addr.t < g.next && addr.t in st.tmps
    requires st.tmps[addr.t] == PtrV(st.tmps[g.scope[id].ptr].obj, c)
    ensures Run(p, args, st, k) == st'
    ensures Reaches(ctx, StoreTo(g, value, addr).value, WriteCell(s, id, c, EvalExpr(value, s)), fuel, k, st')
  {
    hide Run, CodeAt, Extends, ExprCode, EvalExpr, CheckExpr, Linked;
    var g1 := LowerExpr(g, value).value.0;
    var i := StoreI(LowerExpr(g, value).value.1, addr);
    EmittedCodeAt(p, g1, [i]);
    var k1, tmps' := EmitExprSim(p, args, ctx, g, value, s, st);
    var v := EvalExpr(value, s);
    var mid := if v.Some? then Running(st.blk, st.pc + k1, tmps', st.mem) else Undefined;
    RunThen(p, args, st, k1, mid, i);
    k, st' := k1 + 1, Undefined;
    if v.Some? {
      VariableLinked(ctx, g1.scope, g1.next, s, tmps', st.mem, id);
      st' := StepInstr(i, args, mid);
      if 0 <= c < |s[id].cells| {
        LinkedWrite(ctx, g1.scope, g1.next, s, tmps', st.mem, id, c, v.value);
      }
    }
  }

  // What every statement lemma below assumes: the machine stands at the open
  // block of the generator, its variables linked to the source's.
  ghost predicate Ready(ctx: Context, g: Gen, s: Store, st: State) {
    && AtEnd(st, g) && !g.Closed() && AllTargets(g.blocks, |g.blocks|)
    && Linked(ctx, g.scope, g.next, s, st.tmps, st.mem)
  }

  lemma DeclareSim(p: seq<Block>, args: seq<Word>, ctx: Context, g: Gen, id: string, ty: Ty,
                   s: Store, st: State)
    returns (st': State)
    requires Ready(ctx, g, s, st) && id !in ctx && Extends(p, DeclareSlot(g, id, ty).blocks)
    ensures Run(p, args, st, 1) == st' && AtEnd(st', DeclareSlot(g, id, ty))
    ensures var g1 := DeclareSlot(g, id, ty);
      Linked(ctx[id := ty], g1.scope, g1.next, s[id := NewVariable(ty)], st'.tmps, st'.mem)
  {
    EmittedCodeAt(p, g, [Alloca(g.next, ty)]);
    RunOne(p, args, st, Alloca(g.next, ty));
    LinkedDeclare(ctx, g.scope, g.next, s, st.tmps, st.mem, id, ty);
    st' := StepInstr(Alloca(g.next, ty), args, st);
  }

  lemma AnnAssignSim(p: seq<Block>, args: seq<Word>, ctx: Context, g: Gen, x: Stmt,
                     s: Store, fuel: nat, st: State)
    returns (k: nat, st': State)
    requires Ready(ctx, g, s, st)
    requires x.AnnAssign? && CheckStmt(ctx, x, true) && LowerStmt(g, x).Ok?
    requires Extends(p, LowerStmt(g, x).value.blocks)
    ensures Run(p, args, st, k) == st'
    ensures Reaches(Declare(ctx, x), LowerStmt(g, x).value, Exec(x, s, fuel), fuel, k, st')
  {
    hide Run, CodeAt, ExprCode, EvalExpr, CheckExpr, Linked, IsTerminated;
    var g1 := DeclareSlot(g, x.id, x.ty);
    if x.init.None? {
      st' := DeclareSim(p, args, ctx, g, x.id, x.ty, s, st);
      k := 1;
    } else {
      var ctx1 := ctx[x.id := x.ty];
      var s1 := s[x.id := NewVariable(x.ty)];
      StoreExtends(p, g1, x.init.value, Tmp(g.next));
      var mid := DeclareSim(p, args, ctx, g, x.id, x.ty, s, st);
      VariableLinked(ctx1, g1.scope, g1.next, s1, mid.tmps, mid.mem, x.id);
      var k2;
      k2, st' := StoreSim(p, args, ctx1, g1, x.init.value, Tmp(g.next), x.id, 0, s1, fuel, mid);
      RunAdd(p, args, st, 1, k2);
      k := 1 + k2;
    }
  }

  lemma StoreExtends(p: seq<Block>, g: Gen, value: Expr, addr: Operand)
    requires g.Valid() && StoreTo(g, value, addr).Ok?
    requires Extends(p, StoreTo(g, value, addr).value.blocks)
    ensures Extends(p, g.blocks)
  {
    var g1 := LowerExpr(g, value).value;
    EmittedCodeAt(p, g1.0, [StoreI(g1.1, addr)]);
    EmittedCodeAt(p, g, ExprCode(g.scope, g.next, value).value.instrs);
  }

  lemma AssignElemSim(p: seq<Block>, args: seq<Word>, ctx: Context, g: Gen, x: Stmt,
                      s: Store, fuel: nat, st: State)
    returns (k: nat, st': State)
    requires Ready(ctx, g, s, st)
    requires x.AssignElem? && CheckStmt(ctx, x, true) && LowerStmt(g, x).Ok?
    requires Extends(p, LowerStmt(g, x).value.blocks)
    ensures Run(p, args, st, k) == st'
    ensures Reaches(ctx, LowerStmt(g, x).value, Exec(x, s, fuel), fuel, k, st')
  {
    hide Run, CodeAt, ExprCode, EvalExpr, CheckExpr, Linked, IsTerminated;
    var a := ElementCode(g.scope, g.next, x.arr, x.index).value;
    var g1 := EmitCode(g, a);
    StoreExtends(p, g1, x.value, a.opd);
    EmittedCodeAt(p, g, a.instrs);
    var tmps' := ElementSim(p, args, ctx, g.scope, g.next, x.arr, x.index, a, s, st);
    var i := EvalExpr(x.index, s);
    if i.None? {
      k, st' := |a.instrs|, Undefined;
    } else {
      var mid := Running(st.blk, st.pc + |a.instrs|, tmps', st.mem);
      LinkedMove(ctx, g.scope, g.next, a.next, s, st.tmps, tmps', st.mem);
      VariableLinked(ctx, g.scope, g.next, s, st.tmps, st.mem, x.arr);
      VariableLinked(ctx, g1.scope, g1.next, s, tmps', st.mem, x.arr);
      var k2;
      k2, st' := StoreSim(p, args, ctx, g1, x.value, a.opd, x.arr, i.value, s, fuel, mid);
      RunAdd(p, args, st, |a.instrs|, k2);
      k := |a.instrs| + k2;
    }
  }

  lemma ReturnSim(p: seq<Block>, args: seq<Word>, ctx: Context, g: Gen, x: Stmt, returnsInt: bool,
                  s: Store, fuel: nat, st: State)
    returns (k: nat, st': State)
    requires Ready(ctx, g, s, st)
    requires x.Return? && CheckStmt(ctx, x, returnsInt) && LowerStmt(g, x).Ok?
    requires Extends(p, LowerStmt(g, x).value.blocks)
    ensures Run(p, args, st, k) == st'
    ensures Reaches(ctx, LowerStmt(g, x).value, Exec(x, s, fuel), fuel, k, st')
  {
    hide Run, CodeAt, ExprCode, EvalExpr, CheckExpr, Linked, IsTerminated;
    if x.result.None? {
      EmittedCodeAt(p, g, [RetVoid]);
      RunOne(p, args, st, RetVoid);
      k, st' := 1, Halted(RetNothing);
    } else {
      var g1 := LowerExpr(g, x.result.value).value.0;
      var i := Ret(LowerExpr(g, x.result.value).value.1);
      EmittedCodeAt(p, g1, [i]);
      var k1, tmps' := EmitExprSim(p, args, ctx, g, x.result.value, s, st);
      var v := EvalExpr(x.result.value, s);
      var mid := if v.Some? then Running(st.blk, st.pc + k1, tmps', st.mem) else Undefined;
      RunThen(p, args, st, k1, mid, i);
      k, st' := k1 + 1, if v.Some? then Halted(RetValue(ToWord(v.value))) else Undefined;
    }
  }

  lemma ExprStmtSim(p: seq<Block>, args: seq<Word>, ctx: Context, g: Gen, e: Expr, s: Store, fuel: nat, st: State)
    returns (k: nat, st': State)
    requires Ready(ctx, g, s, st) && CheckStmt(ctx, ExprStmt(e), true)
    requires LowerExpr(g, e).Ok? && Extends(p, LowerExpr(g, e).value.0.blocks)
    ensures Run(p, args, st, k) == st'
    ensures Reaches(ctx, LowerExpr(g, e).value.0, Exec(ExprStmt(e), s, fuel), fuel, k, st')
  {
    hide Run, CodeAt, ExprCode, EvalExpr, CheckExpr, Linked, IsTerminated, AddressExpr, IsAddress;
    if CheckExpr(ctx, e) {
      ValueStored(ctx, g.scope, g.next, s, st.tmps, st.mem, e);
      var tmps';
      k, tmps' := EmitExprSim(p, args, ctx, g, e, s, st);
      st' := if EvalExpr(e, s).Some? then Running(st.blk, st.pc + k, tmps', st.mem) else Undefined;
    } else {
      AddressStored(ctx, g.scope, g.next, s, st.tmps, st.mem, e);
      LinkedCovers(ctx, g.scope, g.next, s, st.tmps, st.mem);
      CoversWithin(ctx, g.scope, g.next);
      AddressCompiles(ctx, g.scope, g.next, e);
      EmitNothing(g, ExprCode(g.scope, g.next, e).value.opd);
      k, st' := 0, st;
      RunZero(p, args, st);
    }
  }

  // Whether an expression is the address of an array is a matter of types.
  lemma {:induction false} AddressStored(ctx: Context, scope: Scope, n: nat, s: Store,
                                         tmps: map<nat, Value>, mem: seq<Object>, e: Expr)
    requires Linked(ctx, scope, n, s, tmps, mem) && AddressExpr(ctx, e)
    ensures IsAddress(s, e)
  {
    if e.Unary? {
      AddressStored(ctx, scope, n, s, tmps, mem, e.operand);
    } else {
      VariableLinked(ctx, scope, n, s, tmps, mem, e.id);
    }
  }

  lemma {:induction false} ValueStored(ctx: Context, scope: Scope, n: nat, s: Store,
                                       tmps: map<nat, Value>, mem: seq<Object>, e: Expr)
    requires Linked(ctx, scope, n, s, tmps, mem) && CheckExpr(ctx, e)
    ensures !IsAddress(s, e)
  {
    if e.Unary? {
      ValueStored(ctx, scope, n, s, tmps, mem, e.operand);
    } else if e.Name? {
      VariableLinked(ctx, scope, n, s, tmps, mem, e.id);
    }
  }

  // ----- compound statements -----

  lemma {:induction false} StmtSim(p: seq<Block>, args: seq<Word>, ctx: Context, g: Gen, x: Stmt,
                                   returnsInt: bool, s: Store, fuel: nat, st: State)
    returns (k: nat, st': State)
    requires Ready(ctx, g, s, st)
    requires CheckStmt(ctx, x, returnsInt) && LowerStmt(g, x).Ok?
    requires Extends(p, LowerStmt(g, x).value.blocks)
    ensures Run(p, args, st, k) == st'
    ensures Reaches(Declare(ctx, x), LowerStmt(g, x).value, Exec(x, s, fuel), fuel, k, st')
    decreases fuel, x, 2
  {
    hide Run, CodeAt, ExprCode, EvalExpr, CheckExpr, Linked, IsTerminated, CheckCond, Extends, LowerIf, LowerWhile;
    match x
    case AnnAssign(_, _, _) =>
      k, st' := AnnAssignSim(p, args, ctx, g, x, s, fuel, st);
    case Assign(id, value) =>
      VariableLinked(ctx, g.scope, g.next, s, st.tmps, st.mem, id);
      k, st' := StoreSim(p, args, ctx, g, value, Tmp(g.scope[id].ptr), id, 0, s, fuel, st);
    case AssignElem(_, _, _) =>
      k, st' := AssignElemSim(p, args, ctx, g, x, s, fuel, st);
    case If(_, _, _) =>
      k, st' := IfSim(p, args, ctx, g, x, returnsInt, s, fuel, st);
    case While(_, _) =>
      k, st' := WhileSim(p, args, ctx, g, x, returnsInt, s, fuel, st);
    case Return(_) =>
      k, st' := ReturnSim(p, args, ctx, g, x, returnsInt, s, fuel, st);
    case Pass =>
      k, st' := 0, st;
      RunZero(p, args, st);
    case ExprStmt(value) =>
      k, st' := ExprStmtSim(p, args, ctx, g, value, s, fuel, st);
  }

  lemma RunZero(p: seq<Block>, args: seq<Word>, st: State)
    ensures Run(p, args, st, 0) == st
  {
  }

  // A list with a return in it never runs through.
  lemma {:induction false} ReturnsNotNext(ss: seq<Stmt>, s: Store, fuel: nat)
    requires ListReturns(ss)
    ensures !ExecList(ss, s, fuel).Next?
  {
    if !ss[0].Return? {
      var o := Exec(ss[0], s, fuel);
      if o.Next? {
        ReturnsNotNext(ss[1..], o.store, fuel);
      }
    }
  }

  lemma {:induction false} ListSim(p: seq<Block>, args: seq<Word>, ctx: Context, g: Gen, ss: seq<Stmt>,
                                   returnsInt: bool, s: Store, fuel: nat, st: State)
    returns (k: nat, st': State)
    requires Ready(ctx, g, s, st)
    requires CheckList(ctx, ss, returnsInt) && LowerList(g, ss).Ok?
    requires Extends(p, LowerList(g, ss).value.blocks)
    ensures Run(p, args, st, k) == st'
    ensures Reaches(ctx, LowerList(g, ss).value, ExecList(ss, s, fuel), fuel, k, st')
    decreases fuel, ss, 0
  {
    hide Run, CodeAt, Linked, IsTerminated, Extends, LowerStmt, Exec, CheckStmt, Progress;
    if ss == [] {
      k, st' := 0, st;
      RunZero(p, args, st);
    } else {
      LinkedCovers(ctx, g.scope, g.next, s, st.tmps, st.mem);
      StmtShape(ctx, g, ss[0], returnsInt);
      var g1, ctx1 := LowerStmt(g, ss[0]).value, Declare(ctx, ss[0]);
      TailExtends(p, ctx, g, ss, returnsInt);
      k, st' := StmtSim(p, args, ctx, g, ss[0], returnsInt, s, fuel, st);
      var o := Exec(ss[0], s, fuel);
      if o.Next? {
        ReturnOutcome(ss[0], s, fuel);
        DeclareExtends(ctx, ss[0], returnsInt);
        ProgressOpen(ctx, g, g1);
        var k2;
        var mid := st';
        k2, st' := ListSim(p, args, ctx1, g1, ss[1..], returnsInt, o.store, fuel, mid);
        RunAdd(p, args, st, k, k2);
        k := k + k2;
        var o2 := ExecList(ss[1..], o.store, fuel);
        if o2.Next? {
          var g2 := LowerList(g, ss).value;
          LinkedRestrict(ctx, ctx1, g2.scope, g2.next, o2.store, st'.tmps, st'.mem);
        }
      }
    }
  }

  lemma ReturnOutcome(x: Stmt, s: Store, fuel: nat)
    ensures Exec(x, s, fuel).Next? ==> !x.Return?
  {
  }

  lemma TailExtends(p: seq<Block>, ctx: Context, g: Gen, ss: seq<Stmt>, returnsInt: bool)
    requires g.Valid() && !g.Closed() && AllTargets(g.blocks, |g.blocks|)
    requires ss != [] && CheckList(ctx, ss, returnsInt) && Covers(ctx, g.scope, g.next)
    requires LowerList(g, ss).Ok? && Extends(p, LowerList(g, ss).value.blocks)
    ensures LowerStmt(g, ss[0]).Ok? && Extends(p, LowerStmt(g, ss[0]).value.blocks)
  {
    hide CheckStmt, LowerStmt, Extends;
    StmtShape(ctx, g, ss[0], returnsInt);
    var g1 := LowerStmt(g, ss[0]).value;
    if ss[0].Return? {
      SilentCompiles(ctx, g1, ss[1..], returnsInt);
    } else {
      ListShape(Declare(ctx, ss[0]), g1, ss[1..], returnsInt);
      ProgressExtends(Declare(ctx, ss[0]), g1, LowerList(g, ss).value, ListReturns(ss[1..]));
      ExtendsTrans(p, LowerList(g, ss).value.blocks, g1.blocks);
    }
  }

  // A branch compiled at the empty block g1.cur, closed with a branch to
  // `target`: either the outcome of the branch itself, or the start of target.
  lemma {:induction false} RegionSim(p: seq<Block>, args: seq<Word>, ctx: Context, g1: Gen, ss: seq<Stmt>,
                                     returnsInt: bool, target: nat, s: Store, fuel: nat, st: State)
    returns (k: nat, st': State)
    requires Ready(ctx, g1, s, st)
    requires CheckList(ctx, ss, returnsInt) && LowerList(g1, ss).Ok?
    requires Extends(p, Close(LowerList(g1, ss).value, target).blocks)
    ensures Run(p, args, st, k) == st'
    ensures var o, g2 := ExecList(ss, s, fuel), LowerList(g1, ss).value;
      if o.Next? then
        && st'.Running? && st'.blk == target && st'.pc == 0 && k >= 1
        && Linked(ctx, g2.scope, g2.next, o.store, st'.tmps, st'.mem)
      else Reaches(ctx, g2, o, fuel, k, st')
    decreases fuel, ss, 1
  {
    hide Run, CodeAt, Linked, IsTerminated, Extends, LowerList, ExecList, CheckList, Progress;
    LinkedCovers(ctx, g1.scope, g1.next, s, st.tmps, st.mem);
    ListShape(ctx, g1, ss, returnsInt);
    var g2 := LowerList(g1, ss).value;
    CloseExtends(p, g2, target);
    k, st' := ListSim(p, args, ctx, g1, ss, returnsInt, s, fuel, st);
    if ExecList(ss, s, fuel).Next? {
      assert !ListReturns(ss) by {
        if ListReturns(ss) {
          ReturnsNotNext(ss, s, fuel);
        }
      }
      ProgressOpen(ctx, g1, g2);
      EmittedCodeAt(p, g2, [Br(target)]);
      RunThen(p, args, st, k, st', Br(target));
      st' := Running(target, 0, st'.tmps, st'.mem);
      k := k + 1;
    }
  }

  lemma CloseExtends(p: seq<Block>, g: Gen, target: nat)
    requires g.Valid() && Extends(p, Close(g, target).blocks)
    ensures Extends(p, g.blocks)
  {
    if !g.Closed() {
      EmittedCodeAt(p, g, [Br(target)]);
    }
  }

  lemma RegionExtends(p: seq<Block>, ctx: Context, g: Gen, g': Gen)
    requires Region(ctx, g, g') && Extends(p, g'.blocks)
    ensures Extends(p, g.blocks)
  {
    ExtendsTrans(p, g'.blocks, g.blocks);
  }

  lemma RegionReady(ctx: Context, g: Gen, g': Gen, b: nat)
    requires Region(ctx, g, g') && b < |g'.blocks| && g'.blocks[b] == []
    ensures !At(g', b).Closed() && AllTargets(g'.blocks, |g'.blocks|)
  {
  }

  // The variables seen from before a region and from after it.
  lemma RegionRescope(ctx: Context, g: Gen, g': Gen, s: Store, tmps: map<nat, Value>, mem: seq<Object>)
    requires Region(ctx, g, g') && Covers(ctx, g.scope, g.next) && Covers(ctx, g'.scope, g'.next)
    ensures Linked(ctx, g.scope, g.next, s, tmps, mem) <==> Linked(ctx, g'.scope, g'.next, s, tmps, mem)
  {
    hide Linked;
    if Linked(ctx, g.scope, g.next, s, tmps, mem) {
      LinkedRescope(ctx, g.scope, g.next, g'.scope, g'.next, s, tmps, mem);
    }
    if Linked(ctx, g'.scope, g'.next, s, tmps, mem) {
      LinkedRescope(ctx, g'.scope, g'.next, g.scope, g.next, s, tmps, mem);
    }
  }

  // From the end of the generator's block into the test block, and through it.
  lemma EnterTestSim(p: seq<Block>, args: seq<Word>, ctx: Context, g: Gen, test: Cond, extra: nat,
                     s: Store, st: State)
    returns (st': State)
    requires Ready(ctx, g, s, st) && extra >= 2 && CheckCond(ctx, test)
    requires OpenTest(g, test, extra).Ok? && Extends(p, OpenTest(g, test, extra).value.blocks)
    ensures Run(p, args, st, 1) == st'
    ensures st'.Running? && st'.blk == |g.blocks| && st'.pc == 0
    ensures Linked(ctx, g.scope, g.next, s, st'.tmps, st'.mem)
  {
    hide Linked, Run, OpenTest;
    LinkedCovers(ctx, g.scope, g.next, s, st.tmps, st.mem);
    OpenTestForm(g, test, extra);
    var n, g1 := |g.blocks|, OpenTest(g, test, extra).value;
    assert g1.blocks[g.cur] <= p[g.cur];
    PrefixCodeAt(p, g.cur, g.blocks[g.cur] + [Br(n)]);
    CodeAtAppend(p, g.cur, 0, g.blocks[g.cur], [Br(n)]);
    RunOne(p, args, st, Br(n));
    st' := Running(n, 0, st.tmps, st.mem);
  }

  lemma OpenTestReady(ctx: Context, g: Gen, test: Cond, extra: nat)
    requires g.Valid() && !g.Closed() && AllTargets(g.blocks, |g.blocks|) && extra >= 2
    requires CheckCond(ctx, test) && Covers(ctx, g.scope, g.next)
    ensures OpenTest(g, test, extra).Ok?
    ensures var g1 := OpenTest(g, test, extra).value;
      && g1.scope == g.scope && g.next <= g1.next && g1.blocks[g1.cur] == [] && !g1.Closed()
      && AllTargets(g1.blocks, |g1.blocks|)
  {
    TestOpens(ctx, g, test, extra);
    OpenTestForm(g, test, extra);
  }

  lemma {:induction false} IfSim(p: seq<Block>, args: seq<Word>, ctx: Context, g: Gen, x: Stmt,
                                 returnsInt: bool, s: Store, fuel: nat, st: State)
    returns (k: nat, st': State)
    requires Ready(ctx, g, s, st)
    requires x.If? && CheckStmt(ctx, x, returnsInt) && LowerIf(g, x).Ok?
    requires Extends(p, LowerIf(g, x).value.blocks)
    ensures Run(p, args, st, k) == st'
    ensures Reaches(ctx, LowerIf(g, x).value, Exec(x, s, fuel), fuel, k, st')
    decreases fuel, x, 1
  {
    hide Run, CodeAt, Linked, IsTerminated, Extends, LowerList, ExecList, CheckList, CheckCond,
      OpenTest, Close, LowerIf, Region, Covers, EvalCond, AllTargets, TargetsBelow, WellTerminated, CheckExpr;
    var n := |g.blocks|;
    var merge := if x.orelse == [] then n + 2 else n + 3;
    LinkedCovers(ctx, g.scope, g.next, s, st.tmps, st.mem);
    IfPartsHold(ctx, g, x, returnsInt);
    OpenTestReady(ctx, g, x.test, merge - n);
    var g1 := OpenTest(g, x.test, merge - n).value;
    var g3 := Close(LowerList(g1, x.body).value, merge);
    var g' := LowerIf(g, x).value;
    var last := g3;
    if x.orelse != [] {
      last := Close(LowerList(At(g3, n + 2), x.orelse).value, merge);
      RegionExtends(p, ctx, At(g3, n + 2), last);
      RegionReady(ctx, g1, g3, n + 2);
    }
    RegionExtends(p, ctx, g1, g3);
    var mid := EnterTestSim(p, args, ctx, g, x.test, merge - n, s, st);
    var k2;
    k2, st' := TestSim(p, args, ctx, g, x.test, merge - n, s, mid);
    RunAdd(p, args, st, 1, k2);
    k := 1 + k2;
    var c := EvalCond(x.test, s);
    if c == Some(true) {
      var k3;
      mid := st';
      k3, st' := RegionSim(p, args, ctx, g1, x.body, returnsInt, merge, s, fuel, mid);
      RunAdd(p, args, st, k, k3);
      k := k + k3;
      var o := ExecList(x.body, s, fuel);
      if o.Next? && x.orelse != [] {
        RegionRescope(ctx, At(g3, n + 2), last, o.store, st'.tmps, st'.mem);
      }
    } else if c == Some(false) {
      CoversMore(ctx, g.scope, g.next, g1.next);
      RegionRescope(ctx, g1, g3, s, st'.tmps, st'.mem);
      EmptyList(s, fuel);
      if x.orelse != [] {
        var k3;
        mid := st';
        k3, st' := RegionSim(p, args, ctx, At(g3, n + 2), x.orelse, returnsInt, merge, s, fuel, mid);
        RunAdd(p, args, st, k, k3);
        k := k + k3;
      }
    }
  }

  lemma EmptyList(s: Store, fuel: nat)
    ensures ExecList([], s, fuel) == Next(s)
  {
  }

  lemma {:induction false} WhileSim(p: seq<Block>, args: seq<Word>, ctx: Context, g: Gen, x: Stmt,
                                    returnsInt: bool, s: Store, fuel: nat, st: State)
    returns (k: nat, st': State)
    requires Ready(ctx, g, s, st)
    requires x.While? && CheckStmt(ctx, x, returnsInt) && LowerWhile(g, x).Ok?
    requires Extends(p, LowerWhile(g, x).value.blocks)
    ensures Run(p, args, st, k) == st'
    ensures Reaches(ctx, LowerWhile(g, x).value, Exec(x, s, fuel), fuel, k, st')
    decreases fuel, x, 1
  {
    hide Run, CodeAt, Linked, IsTerminated, Extends, LowerList, Exec, CheckList, CheckCond,
      OpenTest, Close, LowerWhile, Region, Covers, EvalCond, AllTargets;
    LinkedCovers(ctx, g.scope, g.next, s, st.tmps, st.mem);
    WhilePartsHold(ctx, g, x, returnsInt);
    var g1 := OpenTest(g, x.test, 2).value;
    RegionExtends(p, ctx, g1, Close(LowerList(g1, x.body).value, |g.blocks|));
    var mid := EnterTestSim(p, args, ctx, g, x.test, 2, s, st);
    k, st' := LoopSim(p, args, ctx, g, x, returnsInt, s, fuel, mid);
    RunAdd(p, args, st, 1, k);
    k := 1 + k;
  }

  // From the loop header, at any iteration.
  lemma {:induction false} LoopSim(p: seq<Block>, args: seq<Word>, ctx: Context, g: Gen, x: Stmt,
                                   returnsInt: bool, s: Store, fuel: nat, st: State)
    returns (k: nat, st': State)
    requires g.Valid() && !g.Closed() && AllTargets(g.blocks, |g.blocks|)
    requires x.While? && CheckStmt(ctx, x, returnsInt) && LowerWhile(g, x).Ok?
    requires Extends(p, LowerWhile(g, x).value.blocks)
    requires st.Running? && st.blk == |g.blocks| && st.pc == 0
    requires Linked(ctx, g.scope, g.next, s, st.tmps, st.mem)
    ensures Run(p, args, st, k) == st'
    ensures Reaches(ctx, LowerWhile(g, x).value, Exec(x, s, fuel), fuel, k, st')
    decreases fuel, x, 0
  {
    hide Run, CodeAt, Linked, IsTerminated, Extends, LowerList, ExecList, CheckList, CheckCond,
      OpenTest, Close, LowerWhile, Region, Covers, EvalCond, AllTargets;
    k, st' := 0, st;
    RunZero(p, args, st);
    if fuel > 0 {
      var n := |g.blocks|;
      LinkedCovers(ctx, g.scope, g.next, s, st.tmps, st.mem);
      WhilePartsHold(ctx, g, x, returnsInt);
      OpenTestReady(ctx, g, x.test, 2);
      var g1 := OpenTest(g, x.test, 2).value;
      var last := Close(LowerList(g1, x.body).value, n);
      RegionExtends(p, ctx, g1, last);
      CoversMore(ctx, g.scope, g.next, g1.next);
      k, st' := TestSim(p, args, ctx, g, x.test, 2, s, st);
      var c := EvalCond(x.test, s);
      if c == Some(false) {
        RegionRescope(ctx, g1, last, s, st'.tmps, st'.mem);
      } else if c == Some(true) {
        var k2;
        var mid := st';
        k2, st' := RegionSim(p, args, ctx, g1, x.body, returnsInt, n, s, fuel - 1, mid);
        RunAdd(p, args, st, k, k2);
        k := k + k2;
        var o := ExecList(x.body, s, fuel - 1);
        if o.Next? {
          var k3;
          mid := st';
          RegionRescope(ctx, g1, last, o.store, mid.tmps, mid.mem);
          LinkedRescope(ctx, g1.scope, g1.next, g.scope, g.next, o.store, mid.tmps, mid.mem);
          k3, st' := LoopSim(p, args, ctx, g, x, returnsInt, o.store, fuel - 1, mid);
          RunAdd(p, args, st, k, k3);
          k := k + k3;
        }
      }
    }
  }
}
