// What the visitor emits, as functions on the state of the code generator.
// FunctionCompiler updates that state in place and is proved to follow these
// functions; the theorems about the emitted code are proved about them.

module Lowering {
  import opened Wrappers
  import opened MachineInt
  import opened PieSource
  import opened BlockIr

  // AlreadyTerminated is the builder's assertion that a block gets one
  // terminator; TypeMismatch the refusal of an array where an int is needed,
  // or of an int where an array is.
  datatype CompileError =
    | NameError(id: string)
    | NotImplemented
    | AlreadyTerminated
    | TypeMismatch
    | ConstantOutOfRange

  // A variable's alloca: the temporary holding its address, and its type.
  datatype Slot = Slot(ptr: nat, ty: Ty)

  type Scope = map<string, Slot>

  function Types(scope: Scope): Context {
    map x | x in scope :: scope[x].ty
  }

  // ----- expressions -----

  // Code for an expression: what is appended to the current block, where the
  // value ends up, and the next unused temporary.
  datatype Code = Code(instrs: seq<Instr>, opd: Operand, next: nat)

  predicate OperandBelow(o: Operand, n: nat) {
    o.Tmp? ==> o.t < n
  }

  // The name of an array compiles to no code: its operand is its address.
  function ExprCode(scope: Scope, n: nat, e: Expr): (r: Result<Code, CompileError>)
    ensures r.Ok? ==> n <= r.value.next
    ensures r.Ok? && !AddressExpr(Types(scope), e) ==> OperandBelow(r.value.opd, r.value.next)
    decreases e, 0
  {
    match e
    case Const(c) =>
      if -TWO_63 <= c < TWO_63 then Ok(Code([], Imm(ToWord(c)), n)) else Err(ConstantOutOfRange)
    case Name(id) =>
      if id !in scope then Err(NameError(id))
      else if scope[id].ty.ArrayTy? then Ok(Code([], Tmp(scope[id].ptr), n))
      else Ok(Code([Load(n, Tmp(scope[id].ptr))], Tmp(n), n + 1))
    case Binary(op, l, r) =>
      var a :- ExprCode(scope, n, l);
      var b :- ExprCode(scope, a.next, r);
      var code := LowerBinary(op);
      if code.None? then Err(NotImplemented)
      else if AddressExpr(Types(scope), l) || AddressExpr(Types(scope), r) then Err(TypeMismatch)
      else Ok(Then(a, b, BinI(b.next, code.value, a.opd, b.opd)))
    case Unary(op, x) =>
      var a :- ExprCode(scope, n, x);
      if op.Not? then Err(NotImplemented)
      else if op.UAdd? then Ok(a)
      else if AddressExpr(Types(scope), x) then Err(TypeMismatch)
      else if op.Invert? then Ok(Last(a, BinI(a.next, XorI, a.opd, Imm(ToWord(-1)))))
      else Ok(Last(a, BinI(a.next, SubI, Imm(0), a.opd)))
    case Subscript(arr, index) =>
      var a :- ElementCode(scope, n, arr, index);
      Ok(Last(a, Load(a.next, a.opd)))
  }

  // One more instruction, which defines the next temporary.
  function Last(a: Code, i: Instr): Code {
    Code(a.instrs + [i], Tmp(a.next), a.next + 1)
  }

  function Then(a: Code, b: Code, i: Instr): Code {
    Code(a.instrs + b.instrs + [i], Tmp(b.next), b.next + 1)
  }

  // The address of arr[index].
  function ElementCode(scope: Scope, n: nat, arr: string, index: Expr): (r: Result<Code, CompileError>)
    ensures r.Ok? ==> n < r.value.next && r.value.opd == Tmp(r.value.next - 1)
    decreases index, 1
  {
    if arr !in scope then Err(NameError(arr))
    else
      var i :- ExprCode(scope, n, index);
      if !scope[arr].ty.ArrayTy? || AddressExpr(Types(scope), index) then Err(TypeMismatch)
      else Ok(Last(i, Gep(i.next, Tmp(scope[arr].ptr), i.opd)))
  }

  function CondCode(scope: Scope, n: nat, c: Cond): (r: Result<Code, CompileError>)
    ensures r.Ok? ==> n <= r.value.next && OperandBelow(r.value.opd, r.value.next)
  {
    var a :- ExprCode(scope, n, c.left);
    var b :- ExprCode(scope, a.next, c.right);
    var p := LowerCompare(c.op);
    if p.None? then Err(NotImplemented)
    else if AddressExpr(Types(scope), c.left) || AddressExpr(Types(scope), c.right) then Err(TypeMismatch)
    else Ok(Then(a, b, Icmp(b.next, p.value, a.opd, b.opd)))
  }

  // ----- statements -----

  // The code generator: the blocks of the function so far, the block being
  // filled, the local scope and the next unused temporary.
  datatype Gen = Gen(blocks: seq<Block>, cur: nat, scope: Scope, next: nat)
  {
    predicate Valid() {
      cur < |blocks|
    }

    // The builder's current block has a terminator.
    predicate Closed()
      requires Valid()
    {
      IsTerminated(blocks[cur])
    }
  }

  function Emit(g: Gen, instrs: seq<Instr>): Gen
    requires g.Valid()
  {
    g.(blocks := g.blocks[g.cur := g.blocks[g.cur] + instrs])
  }

  function EmitCode(g: Gen, code: Code): Gen
    requires g.Valid()
  {
    Emit(g, code.instrs).(next := code.next)
  }

  lemma EmitTwice(g: Gen, a: Code, b: Code)
    requires g.Valid()
    ensures EmitCode(EmitCode(g, a), b) == EmitCode(g, Code(a.instrs + b.instrs, b.opd, b.next))
  {
    assert g.blocks[g.cur] + a.instrs + b.instrs == g.blocks[g.cur] + (a.instrs + b.instrs);
  }

  lemma EmitNothing(g: Gen, opd: Operand)
    requires g.Valid()
    ensures EmitCode(g, Code([], opd, g.next)) == g
  {
    assert g.blocks[g.cur] + [] == g.blocks[g.cur];
  }

  function Terminate(g: Gen, i: Instr): Result<Gen, CompileError>
    requires g.Valid()
  {
    if g.Closed() then Err(AlreadyTerminated) else Ok(Emit(g, [i]))
  }

  // Branch to a block unless the current one has ended.
  function Close(g: Gen, target: nat): Gen
    requires g.Valid()
  {
    if g.Closed() then g else Emit(g, [Br(target)])
  }

  function AppendBlocks(g: Gen, n: nat): Gen {
    g.(blocks := g.blocks + seq(n, i => []))
  }

  function At(g: Gen, b: nat): Gen {
    g.(cur := b)
  }

  function DeclareSlot(g: Gen, id: string, ty: Ty): Gen
    requires g.Valid()
  {
    Emit(g, [Alloca(g.next, ty)]).(scope := g.scope[id := Slot(g.next, ty)], next := g.next + 1)
  }

  function LowerExpr(g: Gen, e: Expr): Result<(Gen, Operand), CompileError>
    requires g.Valid()
  {
    var code :- ExprCode(g.scope, g.next, e);
    Ok((EmitCode(g, code), code.opd))
  }

  // The blocks of an if or a while: the test goes into a new block that
  // branches to `yes` or to the block after it.
  function OpenTest(g: Gen, test: Cond, extra: nat): (r: Result<Gen, CompileError>)
    requires g.Valid() && extra >= 2
    ensures r.Ok? ==> r.value.Valid() && r.value.cur == |g.blocks| + 1
    ensures r.Ok? ==> |r.value.blocks| == |g.blocks| + 1 + extra
  {
    var n := |g.blocks|;
    var g1 :- Terminate(AppendBlocks(g, 1 + extra), Br(n));
    var code :- CondCode(g1.scope, g1.next, test);
    var g2 :- Terminate(EmitCode(At(g1, n), code), CondBr(code.opd, n + 1, n + 2));
    Ok(At(g2, n + 1))
  }

  function LowerStmt(g: Gen, s: Stmt): (r: Result<Gen, CompileError>)
    requires g.Valid()
    ensures r.Ok? ==> r.value.Valid() && |g.blocks| <= |r.value.blocks|
    decreases s, 1
  {
    match s
    case AnnAssign(id, ty, init) =>
      var g1 := DeclareSlot(g, id, ty);
      if init.None? then Ok(g1)
      else if ty.ArrayTy? then Err(NotImplemented)
      else StoreTo(g1, init.value, Tmp(g.next))
    case Assign(id, value) =>
      if id !in g.scope then Err(NameError(id))
      else
        var g1 :- StoreTo(g, value, Tmp(g.scope[id].ptr));
        if g.scope[id].ty.ArrayTy? then Err(TypeMismatch) else Ok(g1)
    case AssignElem(arr, index, value) =>
      var a :- ElementCode(g.scope, g.next, arr, index);
      StoreTo(EmitCode(g, a), value, a.opd)
    case If(_, _, _) => LowerIf(g, s)
    case While(_, _) => LowerWhile(g, s)
    case Return(result) =>
      if result.None? then Terminate(g, RetVoid)
      else
        var v :- LowerExpr(g, result.value);
        var g1 :- Terminate(v.0, Ret(v.1));
        if AddressExpr(Types(g.scope), result.value) then Err(TypeMismatch) else Ok(g1)
    case Pass => Ok(g)
    case ExprStmt(value) =>
      var v :- LowerExpr(g, value);
      Ok(v.0)
  }

  function LowerIf(g: Gen, s: Stmt): (r: Result<Gen, CompileError>)
    requires g.Valid() && s.If?
    ensures r.Ok? ==> r.value.Valid() && |g.blocks| <= |r.value.blocks|
    decreases s, 0
  {
    var n := |g.blocks|;
    var merge := if s.orelse == [] then n + 2 else n + 3;
    var g1 :- OpenTest(g, s.test, merge - n);
    var g2 :- LowerList(g1, s.body);
    var g3 := Close(g2, merge);
    if s.orelse == [] then Ok(At(g3, merge))
    else
      var g4 :- LowerList(At(g3, n + 2), s.orelse);
      Ok(At(Close(g4, merge), merge))
  }

  function LowerWhile(g: Gen, s: Stmt): (r: Result<Gen, CompileError>)
    requires g.Valid() && s.While?
    ensures r.Ok? ==> r.value.Valid() && |g.blocks| <= |r.value.blocks|
    decreases s, 0
  {
    var n := |g.blocks|;
    var g1 :- OpenTest(g, s.test, 2);
    var g2 :- LowerList(g1, s.body);
    Ok(At(Close(g2, n), n + 2))
  }

  function StoreTo(g: Gen, value: Expr, addr: Operand): (r: Result<Gen, CompileError>)
    requires g.Valid()
    ensures r.Ok? ==> r.value.Valid() && |g.blocks| == |r.value.blocks|
  {
    var v :- LowerExpr(g, value);
    if AddressExpr(Types(g.scope), value) then Err(TypeMismatch)
    else Ok(Emit(v.0, [StoreI(v.1, addr)]))
  }

  function LowerList(g: Gen, ss: seq<Stmt>): (r: Result<Gen, CompileError>)
    requires g.Valid()
    ensures r.Ok? ==> r.value.Valid() && |g.blocks| <= |r.value.blocks|
    decreases ss, 0
  {
    if ss == [] then Ok(g)
    else
      var g1 :- LowerStmt(g, ss[0]);
      LowerList(g1, ss[1..])
  }

  // ----- functions -----

  // Parameter i is spilled to a slot of its own.
  function SpillParams(g: Gen, params: seq<string>, i: nat): (r: Gen)
    requires g.Valid() && i <= |params|
    ensures r.Valid()
    decreases |params| - i
  {
    if i == |params| then g
    else
      var g1 := Emit(DeclareSlot(g, params[i], IntTy), [StoreI(Arg(i), Tmp(g.next))]);
      SpillParams(g1, params, i + 1)
  }

  const EMPTY_GEN := Gen([[]], 0, map[], 0)

  // A body that falls off its end gets `unreachable`, or `ret void`.
  function LowerFunction(f: Function): Result<seq<Block>, CompileError> {
    var g :- LowerList(SpillParams(EMPTY_GEN, f.params, 0), f.body);
    if g.Closed() then Ok(g.blocks)
    else Ok(Emit(g, [if f.returnsInt then Unreachable else RetVoid]).blocks)
  }
}
