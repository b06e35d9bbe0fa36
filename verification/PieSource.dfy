// Function bodies of .pie: abstract syntax, the scoping and typing rules a
// body has to follow, and a big-step semantics with fuel.

module PieSource {
  import opened Wrappers
  import opened MachineInt

  datatype Ty = IntTy | ArrayTy(count: nat)

  function Size(ty: Ty): nat {
    match ty
    case IntTy => 1
    case ArrayTy(count) => count
  }

  datatype Expr =
    | Const(n: int)
    | Name(id: string)
    | Binary(op: BinaryOp, left: Expr, right: Expr)
    | Unary(uop: UnaryOp, operand: Expr)
    | Subscript(arr: string, index: Expr)

  datatype Cond = Compare(op: CompareOp, left: Expr, right: Expr)

  datatype Stmt =
    | AnnAssign(id: string, ty: Ty, init: Option<Expr>)
    | Assign(id: string, value: Expr)
    | AssignElem(arr: string, index: Expr, value: Expr)
    | If(test: Cond, body: seq<Stmt>, orelse: seq<Stmt>)
    | While(test: Cond, body: seq<Stmt>)
    | Return(result: Option<Expr>)
    | Pass
    | ExprStmt(value: Expr)

  datatype Function =
    Function(params: seq<string>, returnsInt: bool, body: seq<Stmt>)

  // ----- scoping and typing -----

  // The variables a statement may use.
  type Context = map<string, Ty>

  predicate CheckExpr(ctx: Context, e: Expr) {
    match e
    case Const(n) => -TWO_63 <= n < TWO_63
    case Name(id) => id in ctx && ctx[id].IntTy?
    case Binary(op, l, r) => LowerBinary(op).Some? && CheckExpr(ctx, l) && CheckExpr(ctx, r)
    case Unary(op, x) => !op.Not? && CheckExpr(ctx, x)
    case Subscript(arr, index) => arr in ctx && ctx[arr].ArrayTy? && CheckExpr(ctx, index)
  }

  predicate CheckCond(ctx: Context, c: Cond) {
    LowerCompare(c.op).Some? && CheckExpr(ctx, c.left) && CheckExpr(ctx, c.right)
  }

  // The variables visible after a statement in the rest of its list.
  function Declare(ctx: Context, s: Stmt): Context {
    if s.AnnAssign? then ctx[s.id := s.ty] else ctx
  }

  // The name of an array, which stands for its address.
  predicate AddressExpr(types: Context, e: Expr) {
    || (e.Name? && e.id in types && types[e.id].ArrayTy?)
    || (e.Unary? && e.uop.UAdd? && AddressExpr(types, e.operand))
  }

  // Statements that compile to nothing: pass, and an expression statement that
  // is just a constant or the name of an array.
  predicate Silent(types: Context, s: Stmt) {
    s.Pass? || (s.ExprStmt? && SilentExpr(types, s.value))
  }

  predicate SilentExpr(types: Context, e: Expr) {
    || e.Const?
    || (e.Name? && e.id in types && types[e.id].ArrayTy?)
    || (e.Unary? && e.uop.UAdd? && SilentExpr(types, e.operand))
  }

  predicate AllSilent(types: Context, ss: seq<Stmt>) {
    forall i :: 0 <= i < |ss| ==> Silent(types, ss[i])
  }

  // A name is declared at most once along any nesting of lists, is used only
  // in the list that declares it (or deeper), and nothing that compiles to
  // code follows a return in its list.
  predicate CheckStmt(ctx: Context, s: Stmt, returnsInt: bool)
    decreases s, 1
  {
    match s
    case AnnAssign(id, ty, init) =>
      id !in ctx && (init.Some? ==> ty.IntTy? && CheckExpr(ctx[id := ty], init.value))
    case Assign(id, value) => id in ctx && ctx[id].IntTy? && CheckExpr(ctx, value)
    case AssignElem(arr, index, value) =>
      arr in ctx && ctx[arr].ArrayTy? && CheckExpr(ctx, index) && CheckExpr(ctx, value)
    case If(test, body, orelse) =>
      CheckCond(ctx, test) && CheckList(ctx, body, returnsInt) && CheckList(ctx, orelse, returnsInt)
    case While(test, body) => CheckCond(ctx, test) && CheckList(ctx, body, returnsInt)
    case Return(result) =>
      result.Some? == returnsInt && (result.Some? ==> CheckExpr(ctx, result.value))
    case Pass => true
    case ExprStmt(value) => CheckExpr(ctx, value) || AddressExpr(ctx, value)
  }

  predicate CheckList(ctx: Context, ss: seq<Stmt>, returnsInt: bool)
    decreases ss, 0
  {
    ss == [] ||
    (&& CheckStmt(ctx, ss[0], returnsInt)
     && (ss[0].Return? ==> AllSilent(ctx, ss[1..]))
     && CheckList(Declare(ctx, ss[0]), ss[1..], returnsInt))
  }

  // ----- the compiler's own scope -----

  // The compiler keeps one scope for a function, so that a declaration is seen
  // by everything compiled later: the types of the names after a statement.
  function Leak(types: Context, s: Stmt): Context
    decreases s, 1
  {
    match s
    case AnnAssign(id, ty, _) => types[id := ty]
    case If(_, body, orelse) => LeakList(LeakList(types, body), orelse)
    case While(_, body) => LeakList(types, body)
    case _ => types
  }

  function LeakList(types: Context, ss: seq<Stmt>): Context
    decreases ss, 0
  {
    if ss == [] then types else LeakList(Leak(types, ss[0]), ss[1..])
  }

  // Nothing that compiles to code follows a return in its list.
  predicate Tidy(types: Context, s: Stmt)
    decreases s, 1
  {
    match s
    case If(_, body, orelse) => TidyList(types, body) && TidyList(LeakList(types, body), orelse)
    case While(_, body) => TidyList(types, body)
    case _ => true
  }

  predicate TidyList(types: Context, ss: seq<Stmt>)
    decreases ss, 0
  {
    ss == [] ||
    (&& Tidy(types, ss[0])
     && (ss[0].Return? ==> AllSilent(types, ss[1..]))
     && TidyList(Leak(types, ss[0]), ss[1..]))
  }

  // The names declared anywhere in a statement.
  function Declared(s: Stmt): set<string>
    decreases s, 1
  {
    match s
    case AnnAssign(id, _, _) => {id}
    case If(_, body, orelse) => DeclaredList(body) + DeclaredList(orelse)
    case While(_, body) => DeclaredList(body)
    case _ => {}
  }

  function DeclaredList(ss: seq<Stmt>): set<string>
    decreases ss, 0
  {
    if ss == [] then {} else Declared(ss[0]) + DeclaredList(ss[1..])
  }

  // One typing gives all its names the types that another gives them.
  predicate Within(ctx: Context, types: Context) {
    forall x :: x in ctx ==> x in types && types[x] == ctx[x]
  }

  lemma {:induction false} SilentWithin(ctx: Context, types: Context, e: Expr)
    requires Within(ctx, types)
    ensures SilentExpr(ctx, e) ==> SilentExpr(types, e)
  {
    if e.Unary? {
      SilentWithin(ctx, types, e.operand);
    }
  }

  // Well-scoped statements are tidy, and redeclare no name that is visible.
  lemma {:induction false} CheckedTidy(ctx: Context, types: Context, s: Stmt, returnsInt: bool)
    requires CheckStmt(ctx, s, returnsInt) && Within(ctx, types)
    ensures Tidy(types, s) && Within(Declare(ctx, s), Leak(types, s)) && Declared(s) !! ctx.Keys
    decreases s, 1
  {
    match s
    case If(_, body, orelse) =>
      CheckedTidyList(ctx, types, body, returnsInt);
      CheckedTidyList(ctx, LeakList(types, body), orelse, returnsInt);
    case While(_, body) => CheckedTidyList(ctx, types, body, returnsInt);
    case _ =>
  }

  lemma {:induction false} CheckedTidyList(ctx: Context, types: Context, ss: seq<Stmt>, returnsInt: bool)
    requires CheckList(ctx, ss, returnsInt) && Within(ctx, types)
    ensures TidyList(types, ss) && Within(ctx, LeakList(types, ss)) && DeclaredList(ss) !! ctx.Keys
    decreases ss, 0
  {
    if ss != [] {
      CheckedTidy(ctx, types, ss[0], returnsInt);
      CheckedTidyList(Declare(ctx, ss[0]), Leak(types, ss[0]), ss[1..], returnsInt);
      if ss[0].Return? {
        forall i | 0 <= i < |ss[1..]|
          ensures Silent(types, ss[1..][i])
        {
          assert Silent(ctx, ss[1..][i]);
          if ss[1..][i].ExprStmt? {
            SilentWithin(ctx, types, ss[1..][i].value);
          }
        }
      }
    }
  }

  lemma DeclareExtends(ctx: Context, x: Stmt, returnsInt: bool)
    requires CheckStmt(ctx, x, returnsInt)
    ensures forall v :: v in ctx ==> v in Declare(ctx, x) && Declare(ctx, x)[v] == ctx[v]
  {
  }

  function ParamContext(params: seq<string>): Context {
    map p | p in params :: IntTy
  }

  predicate CheckFunction(f: Function) {
    && (forall i, j :: 0 <= i < j < |f.params| ==> f.params[i] != f.params[j])
    && CheckList(ParamContext(f.params), f.body, f.returnsInt)
  }

  // ----- meaning -----

  // A variable is a row of cells, one for an int; None is a cell that was
  // never assigned.
  type Cells = seq<Option<Int64>>
  datatype Variable = Variable(ty: Ty, cells: Cells)
  type Store = map<string, Variable>

  function Fresh(n: nat): Cells {
    seq(n, i => None)
  }

  // None: the value is undefined (an uninitialised cell, an index outside the
  // array, or an undefined operation).
  function EvalExpr(e: Expr, st: Store): Option<Int64> {
    match e
    case Const(n) => if -TWO_63 <= n < TWO_63 then Some(n) else None
    case Name(id) => if id in st && st[id].ty.IntTy? then ReadCell(st, id, 0) else None
    case Binary(op, l, r) =>
      var a, b := EvalExpr(l, st), EvalExpr(r, st);
      if a.Some? && b.Some? then BinaryValue(op, a.value, b.value) else None
    case Unary(op, x) =>
      var a := EvalExpr(x, st);
      if a.Some? then UnaryValue(op, a.value) else None
    case Subscript(arr, index) =>
      var i := EvalExpr(index, st);
      if i.Some? then ReadCell(st, arr, i.value) else None
  }

  function ReadCell(st: Store, id: string, i: int): Option<Int64> {
    if id in st && 0 <= i < |st[id].cells| then st[id].cells[i] else None
  }

  function EvalCond(c: Cond, st: Store): Option<bool> {
    var a, b := EvalExpr(c.left, st), EvalExpr(c.right, st);
    if a.Some? && b.Some? then CompareValue(c.op, a.value, b.value) else None
  }

  datatype Outcome =
    | Next(store: Store)
    | Returned(value: Option<Int64>)
    | Undef
    | Timeout

  function WriteCell(st: Store, id: string, i: int, v: Option<Int64>): Outcome {
    if id in st && 0 <= i < |st[id].cells| && v.Some?
    then Next(st[id := SetCell(st[id], i, v)])
    else Undef
  }

  function SetCell(x: Variable, i: nat, v: Option<Int64>): Variable
    requires i < |x.cells|
  {
    x.(cells := x.cells[i := v])
  }

  function NewVariable(ty: Ty): Variable {
    Variable(ty, Fresh(Size(ty)))
  }

  // Just the address of an array: nothing is computed.
  predicate IsAddress(st: Store, e: Expr) {
    || (e.Name? && e.id in st && st[e.id].ty.ArrayTy?)
    || (e.Unary? && e.uop.UAdd? && IsAddress(st, e.operand))
  }

  // Fuel bounds the nesting of loop iterations; Timeout says it ran out.
  function Exec(s: Stmt, st: Store, fuel: nat): Outcome
    decreases fuel, s, 1
  {
    match s
    case AnnAssign(id, ty, init) =>
      var st1 := st[id := NewVariable(ty)];
      if init.None? then Next(st1) else WriteCell(st1, id, 0, EvalExpr(init.value, st1))
    case Assign(id, value) => WriteCell(st, id, 0, EvalExpr(value, st))
    case AssignElem(arr, index, value) =>
      var i, v := EvalExpr(index, st), EvalExpr(value, st);
      if i.Some? then WriteCell(st, arr, i.value, v) else Undef
    case If(test, body, orelse) =>
      var c := EvalCond(test, st);
      if c.None? then Undef
      else if c.value then ExecList(body, st, fuel)
      else ExecList(orelse, st, fuel)
    case While(test, body) =>
      if fuel == 0 then Timeout
      else
        var c := EvalCond(test, st);
        if c.None? then Undef
        else if !c.value then Next(st)
        else
          var o := ExecList(body, st, fuel - 1);
          if o.Next? then Exec(s, o.store, fuel - 1) else o
    case Return(result) =>
      if result.None? then Returned(None)
      else
        var v := EvalExpr(result.value, st);
        if v.Some? then Returned(v) else Undef
    case Pass => Next(st)
    case ExprStmt(value) => if IsAddress(st, value) || EvalExpr(value, st).Some? then Next(st) else Undef
  }

  function ExecList(ss: seq<Stmt>, st: Store, fuel: nat): Outcome
    decreases fuel, ss, 0
  {
    if ss == [] then Next(st)
    else
      var o := Exec(ss[0], st, fuel);
      if o.Next? then ExecList(ss[1..], o.store, fuel) else o
  }

  function ParamStore(params: seq<string>, args: seq<Int64>): Store
    requires |params| == |args|
  {
    if params == [] then map[]
    else
      var n := |params| - 1;
      ParamStore(params[..n], args[..n])[params[n] := Variable(IntTy, [Some(args[n])])]
  }

  function Call(f: Function, args: seq<Int64>, fuel: nat): Outcome
    requires |args| == |f.params|
  {
    ExecList(f.body, ParamStore(f.params, args), fuel)
  }

  // More fuel never changes an answer.
  lemma {:induction false} FuelMonotone(s: Stmt, st: Store, n: nat, m: nat)
    requires n <= m && !Exec(s, st, n).Timeout?
    ensures Exec(s, st, m) == Exec(s, st, n)
    decreases n, s, 1
  {
    match s
    case If(test, body, orelse) =>
      var c := EvalCond(test, st);
      if c.Some? {
        FuelMonotoneList(if c.value then body else orelse, st, n, m);
      }
    case While(test, body) =>
      var c := EvalCond(test, st);
      if c == Some(true) {
        FuelMonotoneList(body, st, n - 1, m - 1);
        var o := ExecList(body, st, n - 1);
        if o.Next? {
          FuelMonotone(s, o.store, n - 1, m - 1);
        }
      }
    case _ =>
  }

  lemma {:induction false} FuelMonotoneList(ss: seq<Stmt>, st: Store, n: nat, m: nat)
    requires n <= m && !ExecList(ss, st, n).Timeout?
    ensures ExecList(ss, st, m) == ExecList(ss, st, n)
    decreases n, ss, 0
  {
    if ss != [] {
      FuelMonotone(ss[0], st, n, m);
      var o := Exec(ss[0], st, n);
      if o.Next? {
        FuelMonotoneList(ss[1..], o.store, n, m);
      }
    }
  }
}
