// When a name may be used.  The compiler keeps one scope for a function, so a
// name stands for the declaration visited last, also behind the list that
// declares it.  This check of the source asks whether that declaration was
// executed on every path to the use.

module NameSafety {
  import opened Wrappers
  import opened PieSource

  // A point of the body: no path leads there, or the names whose declaration
  // visited last is on every path.
  datatype Reach = Dead | Live(safe: set<string>)

  function Forget(r: Reach, names: set<string>): Reach {
    if r.Dead? then Dead else Live(r.safe - names)
  }

  function Join(a: Reach, b: Reach): Reach {
    if a.Dead? then b else if b.Dead? then a else Live(a.safe * b.safe)
  }

  // The variables that computing an expression reads; the name of an array
  // alone stands for its address and reads nothing.
  function Loads(types: Context, e: Expr): set<string> {
    match e
    case Const(_) => {}
    case Name(id) => if id in types && types[id].ArrayTy? then {} else {id}
    case Binary(_, l, r) => Loads(types, l) + Loads(types, r)
    case Unary(_, x) => Loads(types, x)
    case Subscript(arr, index) => {arr} + Loads(types, index)
  }

  function CondLoads(types: Context, c: Cond): set<string> {
    Loads(types, c.left) + Loads(types, c.right)
  }

  // Declarations in one branch are not executed on the way through the other,
  // those of a loop body not on the way around it.
  function AfterStmt(r: Reach, s: Stmt): Reach
    decreases s, 1
  {
    if r.Dead? then Dead
    else
      match s
      case AnnAssign(id, _, _) => Live(r.safe + {id})
      case If(_, body, orelse) =>
        Join(Forget(AfterList(r, body), DeclaredList(orelse)), AfterList(Forget(r, DeclaredList(body)), orelse))
      case While(_, body) => Forget(r, DeclaredList(body))
      case Return(_) => Dead
      case _ => r
  }

  function AfterList(r: Reach, ss: seq<Stmt>): Reach
    decreases ss, 0
  {
    if r.Dead? then Dead
    else if ss == [] then r
    else AfterList(AfterStmt(r, ss[0]), ss[1..])
  }

  // Every name that a statement uses is safe where it is used.
  predicate SafeStmt(types: Context, r: Reach, s: Stmt)
    decreases s, 1
  {
    r.Dead? ||
    match s
    case AnnAssign(id, ty, init) => init.Some? ==> Loads(types[id := ty], init.value) <= r.safe + {id}
    case Assign(id, value) => {id} + Loads(types, value) <= r.safe
    case AssignElem(arr, index, value) => {arr} + Loads(types, index) + Loads(types, value) <= r.safe
    case If(test, body, orelse) =>
      && CondLoads(types, test) <= r.safe
      && SafeList(types, r, body)
      && SafeList(LeakList(types, body), Forget(r, DeclaredList(body)), orelse)
    case While(test, body) => CondLoads(types, test) <= r.safe && SafeList(types, r, body)
    case Return(result) => result.Some? ==> Loads(types, result.value) <= r.safe
    case Pass => true
    case ExprStmt(value) => Loads(types, value) <= r.safe
  }

  predicate SafeList(types: Context, r: Reach, ss: seq<Stmt>)
    decreases ss, 0
  {
    || r.Dead? || ss == []
    || (SafeStmt(types, r, ss[0]) && SafeList(Leak(types, ss[0]), AfterStmt(r, ss[0]), ss[1..]))
  }

  // The parameters are safe from the start.
  predicate SafeFunction(f: Function) {
    SafeList(ParamContext(f.params), Live(ParamContext(f.params).Keys), f.body)
  }

  // ----- names confined to their lists are safe -----

  predicate Knows(r: Reach, ctx: Context) {
    r.Live? ==> ctx.Keys <= r.safe
  }

  lemma {:induction false} CheckedLoads(ctx: Context, types: Context, e: Expr)
    requires Within(ctx, types) && (CheckExpr(ctx, e) || AddressExpr(ctx, e))
    ensures Loads(types, e) <= ctx.Keys
  {
    match e
    case Binary(_, l, r) =>
      CheckedLoads(ctx, types, l);
      CheckedLoads(ctx, types, r);
    case Unary(_, x) => CheckedLoads(ctx, types, x);
    case Subscript(_, index) => CheckedLoads(ctx, types, index);
    case _ =>
  }

  lemma {:induction false} CheckedSafe(ctx: Context, types: Context, r: Reach, s: Stmt, returnsInt: bool)
    requires CheckStmt(ctx, s, returnsInt) && Within(ctx, types) && Knows(r, ctx)
    ensures SafeStmt(types, r, s) && Knows(AfterStmt(r, s), Declare(ctx, s))
    decreases s, 1
  {
    hide Loads, CheckExpr, AddressExpr;
    match s
    case AnnAssign(id, ty, init) =>
      if init.Some? {
        CheckedLoads(ctx[id := ty], types[id := ty], init.value);
      }
    case Assign(id, value) => CheckedLoads(ctx, types, value);
    case AssignElem(arr, index, value) =>
      CheckedLoads(ctx, types, index);
      CheckedLoads(ctx, types, value);
    case If(test, body, orelse) =>
      CheckedTidyList(ctx, types, body, returnsInt);
      CheckedTidyList(ctx, LeakList(types, body), orelse, returnsInt);
      CheckedLoads(ctx, types, test.left);
      CheckedLoads(ctx, types, test.right);
      CheckedSafeList(ctx, types, r, body, returnsInt);
      CheckedSafeList(ctx, LeakList(types, body), Forget(r, DeclaredList(body)), orelse, returnsInt);
    case While(test, body) =>
      CheckedTidyList(ctx, types, body, returnsInt);
      CheckedLoads(ctx, types, test.left);
      CheckedLoads(ctx, types, test.right);
      CheckedSafeList(ctx, types, r, body, returnsInt);
    case Return(result) =>
      if result.Some? {
        CheckedLoads(ctx, types, result.value);
      }
    case ExprStmt(value) => CheckedLoads(ctx, types, value);
    case Pass =>
  }

  lemma {:induction false} CheckedSafeList(ctx: Context, types: Context, r: Reach, ss: seq<Stmt>, returnsInt: bool)
    requires CheckList(ctx, ss, returnsInt) && Within(ctx, types) && Knows(r, ctx)
    ensures SafeList(types, r, ss) && Knows(AfterList(r, ss), ctx)
    decreases ss, 0
  {
    hide CheckStmt, SafeStmt, AfterStmt, Leak;
    if ss != [] && r.Live? {
      CheckedSafe(ctx, types, r, ss[0], returnsInt);
      CheckedTidy(ctx, types, ss[0], returnsInt);
      DeclareExtends(ctx, ss[0], returnsInt);
      CheckedSafeList(Declare(ctx, ss[0]), Leak(types, ss[0]), AfterStmt(r, ss[0]), ss[1..], returnsInt);
    }
  }
}
