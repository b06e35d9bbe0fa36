// Which functions the compiler refuses, and with which error, read off the
// source: the first thing wrong in the order of the visit.

module LoweringRefusal {
  import opened Wrappers
  import opened MachineInt
  import opened PieSource
  import opened BlockIr
  import opened Lowering
  import opened LoweringForm

  type Refusal = Option<CompileError>

  // The first of two errors.
  function First(a: Refusal, b: Refusal): Refusal {
    if a.Some? then a else b
  }

  function When(c: bool, e: CompileError): Refusal {
    if c then Some(e) else None
  }

  // A constant that is no int64, an unknown name, an operator without code, an
  // array where an int is needed, or an int where an array is.
  function ExprError(types: Context, e: Expr): Refusal {
    match e
    case Const(c) => When(!(-0x8000_0000_0000_0000 <= c < 0x8000_0000_0000_0000), ConstantOutOfRange)
    case Name(id) => When(id !in types, NameError(id))
    case Binary(op, l, r) =>
      First(First(ExprError(types, l), ExprError(types, r)),
            First(When(LowerBinary(op).None?, NotImplemented),
                  When(AddressExpr(types, l) || AddressExpr(types, r), TypeMismatch)))
    case Unary(op, x) =>
      First(ExprError(types, x),
            First(When(op.Not?, NotImplemented), When(!op.UAdd? && AddressExpr(types, x), TypeMismatch)))
    case Subscript(arr, index) => ElementError(types, arr, index, ExprError(types, index))
  }

  // Where arr[index] goes wrong; `inner` is what is wrong with the index.
  function ElementError(types: Context, arr: string, index: Expr, inner: Refusal): Refusal {
    if arr !in types then Some(NameError(arr))
    else First(inner, When(!types[arr].ArrayTy? || AddressExpr(types, index), TypeMismatch))
  }

  // An expression whose value is stored.
  function ValueError(types: Context, e: Expr): Refusal {
    First(ExprError(types, e), When(AddressExpr(types, e), TypeMismatch))
  }

  function CondError(types: Context, c: Cond): Refusal {
    First(First(ExprError(types, c.left), ExprError(types, c.right)),
          First(When(LowerCompare(c.op).None?, NotImplemented),
                When(AddressExpr(types, c.left) || AddressExpr(types, c.right), TypeMismatch)))
  }

  // `ended`: a return has been visited in this list, and no if or while since.
  function StmtError(types: Context, ended: bool, s: Stmt): Refusal
    decreases s, 1
  {
    match s
    case AnnAssign(id, ty, init) =>
      if init.None? then None
      else if ty.ArrayTy? then Some(NotImplemented)
      else ValueError(types[id := ty], init.value)
    case Assign(id, value) =>
      if id !in types then Some(NameError(id))
      else First(ValueError(types, value), When(types[id].ArrayTy?, TypeMismatch))
    case AssignElem(arr, index, value) =>
      First(ElementError(types, arr, index, ExprError(types, index)), ValueError(types, value))
    case If(test, body, orelse) =>
      First(First(When(ended, AlreadyTerminated), CondError(types, test)),
            First(ListError(types, false, body), ListError(LeakList(types, body), false, orelse)))
    case While(test, body) =>
      First(First(When(ended, AlreadyTerminated), CondError(types, test)), ListError(types, false, body))
    case Return(result) =>
      if result.None? then When(ended, AlreadyTerminated)
      else
        First(ExprError(types, result.value),
              First(When(ended, AlreadyTerminated), When(AddressExpr(types, result.value), TypeMismatch)))
    case Pass => None
    case ExprStmt(value) => ExprError(types, value)
  }

  function EndedAfter(ended: bool, s: Stmt): bool {
    s.Return? || (ended && !s.If? && !s.While?)
  }

  function ListError(types: Context, ended: bool, ss: seq<Stmt>): Refusal
    decreases ss, 0
  {
    if ss == [] then None
    else
      First(StmtError(types, ended, ss[0]), ListError(Leak(types, ss[0]), EndedAfter(ended, ss[0]), ss[1..]))
  }

  function EndedList(ended: bool, ss: seq<Stmt>): bool
    decreases ss
  {
    if ss == [] then ended else EndedList(EndedAfter(ended, ss[0]), ss[1..])
  }

  // ----- expressions -----

  predicate Same<T>(r: Result<T, CompileError>, refusal: Refusal) {
    match r
    case Ok(_) => refusal == None
    case Err(e) => refusal == Some(e)
  }

  lemma {:induction false} ExprRefused(scope: Scope, n: nat, e: Expr)
    ensures Same(ExprCode(scope, n, e), ExprError(Types(scope), e))
    decreases e, 0
  {
    match e
    case Const(_) =>
    case Name(_) =>
    case Binary(_, l, r) =>
      ExprRefused(scope, n, l);
      if ExprCode(scope, n, l).Ok? {
        ExprRefused(scope, ExprCode(scope, n, l).value.next, r);
      }
    case Unary(_, x) => ExprRefused(scope, n, x);
    case Subscript(arr, index) => ElementRefused(scope, n, arr, index);
  }

  lemma {:induction false} ElementRefused(scope: Scope, n: nat, arr: string, index: Expr)
    ensures Same(ElementCode(scope, n, arr, index),
                 ElementError(Types(scope), arr, index, ExprError(Types(scope), index)))
    decreases index, 1
  {
    ExprRefused(scope, n, index);
  }

  lemma CondRefused(scope: Scope, n: nat, c: Cond)
    ensures Same(CondCode(scope, n, c), CondError(Types(scope), c))
  {
    hide ExprCode, ExprError, LowerCompare;
    ExprRefused(scope, n, c.left);
    if ExprCode(scope, n, c.left).Ok? {
      ExprRefused(scope, ExprCode(scope, n, c.left).value.next, c.right);
    }
  }

  // ----- what a statement does to the graph -----

  // Blocks other than the current one are left alone, and the rest is new.
  ghost predicate Frame(g: Gen, g': Gen) {
    && g.Valid() && g'.Valid() && |g.blocks| <= |g'.blocks|
    && (g'.cur == g.cur || g'.cur >= |g.blocks|)
    && forall b :: 0 <= b < |g.blocks| && b != g.cur ==> g'.blocks[b] == g.blocks[b]
  }

  lemma FrameTrans(g: Gen, g1: Gen, g2: Gen)
    requires Frame(g, g1) && Frame(g1, g2)
    ensures Frame(g, g2)
  {
  }

  // The statement stays in its block, whose end is as before.
  ghost predicate Stays(g: Gen, g': Gen, ended: bool) {
    Frame(g, g') && g'.cur == g.cur && g'.Closed() == ended
  }

  lemma PlainStays(g: Gen, instrs: seq<Instr>)
    requires g.Valid() && Plain(instrs)
    ensures Stays(g, Emit(g, instrs), g.Closed())
  {
    var b, b' := g.blocks[g.cur], g.blocks[g.cur] + instrs;
    if IsTerminated(b) {
      var k :| 0 <= k < |b| && b[k].Terminator();
      assert b'[k] == b[k];
    }
  }

  lemma TerminateStays(g: Gen, i: Instr)
    requires g.Valid() && i.Terminator()
    ensures Same(Terminate(g, i), When(g.Closed(), AlreadyTerminated))
    ensures !g.Closed() ==> Stays(g, Terminate(g, i).value, true)
  {
    if !g.Closed() {
      TerminatedWell(g.blocks[g.cur], i);
    }
  }

  lemma CodeStays(g: Gen, e: Expr)
    requires g.Valid()
    ensures Same(LowerExpr(g, e), ExprError(Types(g.scope), e))
    ensures LowerExpr(g, e).Ok? ==>
      Stays(g, LowerExpr(g, e).value.0, g.Closed()) && LowerExpr(g, e).value.0.scope == g.scope
  {
    hide ExprCode, ExprError, IsTerminated;
    ExprRefused(g.scope, g.next, e);
    if ExprCode(g.scope, g.next, e).Ok? {
      ExprPlain(g.scope, g.next, e);
      PlainStays(g, ExprCode(g.scope, g.next, e).value.instrs);
    }
  }

  lemma StoreStays(g: Gen, value: Expr, addr: Operand)
    requires g.Valid()
    ensures Same(StoreTo(g, value, addr), ValueError(Types(g.scope), value))
    ensures StoreTo(g, value, addr).Ok? ==> Stays(g, StoreTo(g, value, addr).value, g.Closed())
  {
    hide ExprError, LowerExpr, IsTerminated, AddressExpr;
    CodeStays(g, value);
    if LowerExpr(g, value).Ok? {
      var v := LowerExpr(g, value).value;
      PlainStays(v.0, [StoreI(v.1, addr)]);
    }
  }

  // A statement compiles exactly if nothing is wrong with it, and then keeps to
  // its blocks.
  ghost predicate Agrees(g: Gen, r: Result<Gen, CompileError>, refusal: Refusal, ended: bool) {
    Same(r, refusal) && (r.Ok? ==> Frame(g, r.value) && r.value.Closed() == ended)
  }

  lemma FlatRefused(g: Gen, s: Stmt)
    requires g.Valid() && !s.If? && !s.While?
    ensures Agrees(g, LowerStmt(g, s), StmtError(Types(g.scope), g.Closed(), s), EndedAfter(g.Closed(), s))
  {
    hide ExprCode, ElementCode, ExprError, IsTerminated, StoreTo, LowerExpr, ValueError, ElementError, AddressExpr;
    match s
    case AnnAssign(id, ty, init) =>
      PlainStays(g, [Alloca(g.next, ty)]);
      var g1 := DeclareSlot(g, id, ty);
      assert Types(g1.scope) == Types(g.scope)[id := ty];
      if init.Some? {
        StoreStays(g1, init.value, Tmp(g.next));
      }
    case Assign(id, value) =>
      if id in g.scope {
        StoreStays(g, value, Tmp(g.scope[id].ptr));
      }
    case AssignElem(arr, index, value) =>
      ElementRefused(g.scope, g.next, arr, index);
      var a := ElementCode(g.scope, g.next, arr, index);
      if a.Ok? {
        ElementPlain(g.scope, g.next, arr, index);
        PlainStays(g, a.value.instrs);
        StoreStays(EmitCode(g, a.value), value, a.value.opd);
      }
    case Return(result) =>
      if result.None? {
        TerminateStays(g, RetVoid);
      } else {
        CodeStays(g, result.value);
        if LowerExpr(g, result.value).Ok? {
          var v := LowerExpr(g, result.value).value;
          TerminateStays(v.0, Ret(v.1));
        }
      }
    case Pass =>
    case ExprStmt(value) => CodeStays(g, value);
  }

  // ----- branches -----

  // The blocks behind a test are empty.
  ghost predicate Opened(g: Gen, g1: Gen, extra: nat) {
    && g.Valid() && g1.Valid() && g1.cur == |g.blocks| + 1 && |g1.blocks| == |g.blocks| + 1 + extra
    && g1.scope == g.scope
    && (forall b :: 0 <= b < |g.blocks| && b != g.cur ==> g1.blocks[b] == g.blocks[b])
    && forall b :: |g.blocks| < b < |g1.blocks| ==> g1.blocks[b] == []
  }

  lemma TestRefused(g: Gen, test: Cond, extra: nat)
    requires g.Valid() && extra >= 2
    ensures Same(OpenTest(g, test, extra), First(When(g.Closed(), AlreadyTerminated), CondError(Types(g.scope), test)))
    ensures OpenTest(g, test, extra).Ok? ==> Opened(g, OpenTest(g, test, extra).value, extra)
  {
    hide CondCode, CondError, IsTerminated;
    var g0 := AppendBlocks(g, 1 + extra);
    assert g0.blocks[g0.cur] == g.blocks[g.cur];
    CondRefused(g.scope, g.next, test);
    if !g.Closed() && CondCode(g.scope, g.next, test).Ok? {
      OpenTestSucceeds(g, test, extra);
    }
  }

  // A body, in an empty block: it is compiled, and its end branches on.
  lemma {:induction false} BodyRefused(g1: Gen, ss: seq<Stmt>, target: nat)
    requires g1.Valid() && g1.blocks[g1.cur] == []
    ensures Same(LowerList(g1, ss), ListError(Types(g1.scope), false, ss))
    ensures LowerList(g1, ss).Ok? ==>
      var g2 := Close(LowerList(g1, ss).value, target);
      Frame(g1, g2) && Types(g2.scope) == LeakList(Types(g1.scope), ss)
    decreases ss, 2
  {
    hide LowerList, ListError, LeakList;
    ListRefused(g1, ss);
    if LowerList(g1, ss).Ok? {
      ListScope(g1, ss);
    }
  }

  lemma EmptyIsOpen(g: Gen)
    requires g.Valid() && g.blocks[g.cur] == []
    ensures !g.Closed()
  {
  }

  lemma {:induction false} IfRefused(g: Gen, s: Stmt)
    requires g.Valid() && s.If?
    ensures Agrees(g, LowerIf(g, s), StmtError(Types(g.scope), g.Closed(), s), false)
    decreases s, 0
  {
    hide OpenTest, LowerList, ListError, CondError, IsTerminated, Close, LeakList, Types;
    var n, types := |g.blocks|, Types(g.scope);
    var merge := if s.orelse == [] then n + 2 else n + 3;
    TestRefused(g, s.test, merge - n);
    if OpenTest(g, s.test, merge - n).Ok? {
      var g1 := OpenTest(g, s.test, merge - n).value;
      BodyRefused(g1, s.body, merge);
      NothingWrong(LeakList(types, s.body));
      if LowerList(g1, s.body).Ok? {
        var g3 := Close(LowerList(g1, s.body).value, merge);
        EmptyIsOpen(At(g3, merge));
        if s.orelse != [] {
          BodyRefused(At(g3, n + 2), s.orelse, merge);
          if LowerList(At(g3, n + 2), s.orelse).Ok? {
            EmptyIsOpen(At(Close(LowerList(At(g3, n + 2), s.orelse).value, merge), merge));
          }
        }
      }
    }
  }

  lemma NothingWrong(types: Context)
    ensures ListError(types, false, []) == None
  {
  }

  lemma {:induction false} WhileRefused(g: Gen, s: Stmt)
    requires g.Valid() && s.While?
    ensures Agrees(g, LowerWhile(g, s), StmtError(Types(g.scope), g.Closed(), s), false)
    decreases s, 0
  {
    hide OpenTest, LowerList, ListError, CondError, IsTerminated, Close, LeakList, Types;
    var n := |g.blocks|;
    TestRefused(g, s.test, 2);
    if OpenTest(g, s.test, 2).Ok? {
      var g1 := OpenTest(g, s.test, 2).value;
      BodyRefused(g1, s.body, n);
      if LowerList(g1, s.body).Ok? {
        EmptyIsOpen(At(Close(LowerList(g1, s.body).value, n), n + 2));
      }
    }
  }

  lemma {:induction false} StmtRefused(g: Gen, s: Stmt)
    requires g.Valid()
    ensures Agrees(g, LowerStmt(g, s), StmtError(Types(g.scope), g.Closed(), s), EndedAfter(g.Closed(), s))
    decreases s, 1
  {
    hide Agrees, StmtError, LowerIf, LowerWhile;
    if s.If? {
      IfRefused(g, s);
    } else if s.While? {
      WhileRefused(g, s);
    } else {
      FlatRefused(g, s);
    }
  }

  lemma {:induction false} ListRefused(g: Gen, ss: seq<Stmt>)
    requires g.Valid()
    ensures Agrees(g, LowerList(g, ss), ListError(Types(g.scope), g.Closed(), ss), EndedList(g.Closed(), ss))
    decreases ss, 1
  {
    hide LowerStmt, StmtError, Leak, EndedAfter, IsTerminated, Types;
    if ss != [] {
      StmtRefused(g, ss[0]);
      if LowerStmt(g, ss[0]).Ok? {
        StmtScope(g, ss[0]);
        var g1 := LowerStmt(g, ss[0]).value;
        ListRefused(g1, ss[1..]);
        if LowerList(g1, ss[1..]).Ok? {
          FrameTrans(g, g1, LowerList(g1, ss[1..]).value);
        }
      }
    }
  }

  // ----- functions -----

  // What is wrong with a function.
  function FunctionError(f: Function): Refusal {
    ListError(ParamContext(f.params), false, f.body)
  }

  // For every function: the compiler refuses it with an error if and only if
  // that is the first thing wrong with it, and compiles it if nothing is.
  lemma RefusedIff(f: Function)
    ensures LowerFunction(f).Ok? <==> FunctionError(f) == None
    ensures forall e :: LowerFunction(f) == Err(e) <==> FunctionError(f) == Some(e)
  {
    hide LowerList, ListError, EndedList;
    SpillForm(EMPTY_GEN, f.params, 0);
    SpillTypes(EMPTY_GEN, f.params, 0);
    ListRefused(SpillParams(EMPTY_GEN, f.params, 0), f.body);
  }

  // ----- what is never compiled -----

  // A list of statements of the function, at any depth, or the rest of one.
  predicate Part(ss: seq<Stmt>, sub: seq<Stmt>)
    decreases ss, 0
  {
    sub == ss || (ss != [] && (PartOf(ss[0], sub) || Part(ss[1..], sub)))
  }

  predicate PartOf(s: Stmt, sub: seq<Stmt>)
    decreases s, 1
  {
    match s
    case If(_, body, orelse) => Part(body, sub) || Part(orelse, sub)
    case While(_, body) => Part(body, sub)
    case _ => false
  }

  ghost predicate NothingWrongIn(sub: seq<Stmt>) {
    exists types, ended :: ListError(types, ended, sub) == None
  }

  lemma {:induction false} PartsRight(types: Context, ended: bool, ss: seq<Stmt>, sub: seq<Stmt>)
    requires ListError(types, ended, ss) == None && Part(ss, sub)
    ensures NothingWrongIn(sub)
    decreases ss, 0
  {
    if sub != ss {
      if PartOf(ss[0], sub) {
        match ss[0]
        case If(_, body, orelse) =>
          if Part(body, sub) {
            PartsRight(types, false, body, sub);
          } else {
            PartsRight(LeakList(types, body), false, orelse, sub);
          }
        case While(_, body) => PartsRight(types, false, body, sub);
      } else {
        PartsRight(Leak(types, ss[0]), EndedAfter(ended, ss[0]), ss[1..], sub);
      }
    }
  }

  // Branches and returns.
  predicate Ends(s: Stmt) {
    s.Return? || s.If? || s.While?
  }

  lemma {:induction false} EndedRefused(types: Context, ss: seq<Stmt>, j: nat)
    requires ListError(types, true, ss) == None && j < |ss|
    ensures !Ends(ss[j])
    decreases j
  {
    hide ExprError, CondError;
    if j > 0 {
      EndedRefused(types, ss, 0);
      EndedRefused(Leak(types, ss[0]), ss[1..], j - 1);
    }
  }

  lemma {:induction false} ListRight(types: Context, ended: bool, ss: seq<Stmt>, i: nat)
    requires ListError(types, ended, ss) == None && i < |ss|
    ensures ss[i].AnnAssign? && ss[i].init.Some? ==> ss[i].ty.IntTy?
    ensures ss[i].Return? ==> forall j :: i < j < |ss| ==> !Ends(ss[j])
    decreases i
  {
    hide ExprError, CondError;
    if i > 0 {
      ListRight(Leak(types, ss[0]), EndedAfter(ended, ss[0]), ss[1..], i - 1);
      assert ss[i] == ss[1..][i - 1] && forall j :: i < j < |ss| ==> ss[j] == ss[1..][j - 1];
    } else if ss[0].Return? {
      forall j | 0 < j < |ss|
        ensures !Ends(ss[j])
      {
        EndedRefused(Leak(types, ss[0]), ss[1..], j - 1);
      }
    }
  }

  // In a function that is compiled, at any depth, no array is declared with a
  // value, and no branch and no second return comes behind a return in its list.
  lemma AcceptedLists(f: Function, sub: seq<Stmt>, i: nat)
    requires LowerFunction(f).Ok? && Part(f.body, sub) && i < |sub|
    ensures sub[i].AnnAssign? && sub[i].init.Some? ==> sub[i].ty.IntTy?
    ensures sub[i].Return? ==> forall j :: i < j < |sub| ==> !Ends(sub[j])
  {
    hide LowerFunction, ListError, Part;
    RefusedIff(f);
    PartsRight(ParamContext(f.params), false, f.body, sub);
    var types, ended :| ListError(types, ended, sub) == None;
    ListRight(types, ended, sub, i);
  }
}
