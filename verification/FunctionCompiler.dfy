// The visitor itself: a compiler object whose fields are the function being
// built, the builder's position, the local scope and the temporary counter.
// Each visit method updates them in place and is proved to leave them as the
// Lowering functions say, or to raise the same error.

module FunctionCompiler {
  import opened Wrappers
  import opened MachineInt
  import opened PieSource
  import opened BlockIr
  import opened Lowering

  class Compiler {
    var blocks: seq<Block>
    var position: nat
    var localScope: Scope
    var nextTemp: nat

    ghost function State(): Gen
      reads this
    {
      Gen(blocks, position, localScope, nextTemp)
    }

    ghost predicate Valid()
      reads this
    {
      position < |blocks|
    }

    constructor ()
      ensures State() == EMPTY_GEN && Valid()
    {
      blocks, position, localScope, nextTemp := [[]], 0, map[], 0;
    }

    // ----- the builder -----

    method Append(i: Instr)
      requires Valid()
      modifies this`blocks
      ensures State() == Emit(old(State()), [i])
    {
      blocks := blocks[position := blocks[position] + [i]];
    }

    // An instruction that defines a temporary.
    method Define(i: Instr) returns (o: Operand)
      requires Valid()
      modifies this`blocks, this`nextTemp
      ensures State() == Emit(old(State()), [i]).(next := old(nextTemp) + 1)
      ensures o == Tmp(old(nextTemp))
    {
      o := Tmp(nextTemp);
      nextTemp := nextTemp + 1;
      Append(i);
    }

    method SetTerminator(i: Instr) returns (r: Result<(), CompileError>)
      requires Valid()
      modifies this`blocks
      ensures match Terminate(old(State()), i)
        case Ok(g) => r.Ok? && State() == g
        case Err(e) => r == Err(e) && State() == old(State())
    {
      if IsTerminated(blocks[position]) {
        return Err(AlreadyTerminated);
      }
      Append(i);
      return Ok(());
    }

    method AppendBasicBlocks(n: nat)
      modifies this`blocks
      ensures State() == AppendBlocks(old(State()), n)
    {
      blocks := blocks + seq(n, i => []);
    }

    method BranchUnlessTerminated(target: nat)
      requires Valid()
      modifies this`blocks
      ensures State() == Close(old(State()), target) && |blocks| == old(|blocks|)
    {
      if !IsTerminated(blocks[position]) {
        Append(Br(target));
      }
    }

    // ----- expressions -----

    // The operand of e is a pointer to an array.
    predicate IsAddress(e: Expr)
      reads this`localScope
    {
      AddressExpr(Types(localScope), e)
    }

    // What a visit that yields an operand leaves behind.
    ghost predicate Emitted(g: Gen, code: Result<Code, CompileError>, r: Result<Operand, CompileError>)
      requires g.Valid()
      reads this
    {
      match code
      case Ok(c) => r == Ok(c.opd) && State() == EmitCode(g, c)
      case Err(e) => r == Err(e)
    }

    method VisitExpr(e: Expr) returns (r: Result<Operand, CompileError>)
      requires Valid()
      modifies this`blocks, this`nextTemp
      ensures Emitted(old(State()), ExprCode(old(localScope), old(nextTemp), e), r)
      ensures r.Ok? ==> Valid()
      decreases e, 0
    {
      ghost var g := State();
      match e {
        case Const(c) =>
          EmitNothing(g, Imm(0));
          if -TWO_63 <= c < TWO_63 {
            return Ok(Imm(ToWord(c)));
          } else {
            return Err(ConstantOutOfRange);
          }
        case Name(id) =>
          if id !in localScope {
            return Err(NameError(id));
          } else if localScope[id].ty.ArrayTy? {
            EmitNothing(g, Tmp(localScope[id].ptr));
            return Ok(Tmp(localScope[id].ptr));
          }
          var o := Define(Load(nextTemp, Tmp(localScope[id].ptr)));
          return Ok(o);
        case Binary(op, left, right) =>
          var a :- VisitExpr(left);
          var b :- VisitExpr(right);
          var code := LowerBinary(op);
          if code.None? {
            return Err(NotImplemented);
          } else if IsAddress(left) || IsAddress(right) {
            return Err(TypeMismatch);
          }
          ghost var ca := ExprCode(g.scope, g.next, left).value;
          ghost var cb := ExprCode(g.scope, ca.next, right).value;
          EmitTwice(g, ca, cb);
          EmitTwice(g, Code(ca.instrs + cb.instrs, b, cb.next),
                    Code([BinI(nextTemp, code.value, a, b)], Tmp(nextTemp), nextTemp + 1));
          var o := Define(BinI(nextTemp, code.value, a, b));
          return Ok(o);
        case Unary(op, x) =>
          var a :- VisitExpr(x);
          if op.Not? {
            return Err(NotImplemented);
          } else if op.UAdd? {
            return Ok(a);
          } else if IsAddress(x) {
            return Err(TypeMismatch);
          }
          var i := if op.Invert? then BinI(nextTemp, XorI, a, Imm(ToWord(-1))) else BinI(nextTemp, SubI, Imm(0), a);
          EmitTwice(g, ExprCode(g.scope, g.next, x).value, Code([i], Tmp(nextTemp), nextTemp + 1));
          var o := Define(i);
          return Ok(o);
        case Subscript(arr, index) =>
          var a :- SubscriptPtr(arr, index);
          var i := Load(nextTemp, a);
          EmitTwice(g, ElementCode(g.scope, g.next, arr, index).value, Code([i], Tmp(nextTemp), nextTemp + 1));
          var o := Define(i);
          return Ok(o);
      }
    }

    method SubscriptPtr(arr: string, index: Expr) returns (r: Result<Operand, CompileError>)
      requires Valid()
      modifies this`blocks, this`nextTemp
      ensures Emitted(old(State()), ElementCode(old(localScope), old(nextTemp), arr, index), r)
      ensures r.Ok? ==> Valid()
      decreases index, 1
    {
      ghost var g := State();
      if arr !in localScope {
        return Err(NameError(arr));
      }
      var a :- VisitExpr(index);
      if !localScope[arr].ty.ArrayTy? || IsAddress(index) {
        return Err(TypeMismatch);
      }
      var i := Gep(nextTemp, Tmp(localScope[arr].ptr), a);
      EmitTwice(g, ExprCode(g.scope, g.next, index).value, Code([i], Tmp(nextTemp), nextTemp + 1));
      var o := Define(i);
      return Ok(o);
    }

    method VisitCompare(c: Cond) returns (r: Result<Operand, CompileError>)
      requires Valid()
      modifies this`blocks, this`nextTemp
      ensures Emitted(old(State()), CondCode(old(localScope), old(nextTemp), c), r)
      ensures r.Ok? ==> Valid()
    {
      ghost var g := State();
      var a :- VisitExpr(c.left);
      var b :- VisitExpr(c.right);
      var p := LowerCompare(c.op);
      if p.None? {
        return Err(NotImplemented);
      } else if IsAddress(c.left) || IsAddress(c.right) {
        return Err(TypeMismatch);
      }
      ghost var ca := ExprCode(g.scope, g.next, c.left).value;
      ghost var cb := ExprCode(g.scope, ca.next, c.right).value;
      EmitTwice(g, ca, cb);
      EmitTwice(g, Code(ca.instrs + cb.instrs, b, cb.next),
                Code([Icmp(nextTemp, p.value, a, b)], Tmp(nextTemp), nextTemp + 1));
      var o := Define(Icmp(nextTemp, p.value, a, b));
      return Ok(o);
    }

    // ----- statements -----

    // The object has become the generator that the specification gives, or
    // the same error is raised.
    ghost predicate Became(spec: Result<Gen, CompileError>, r: Result<(), CompileError>)
      reads this
    {
      match spec
      case Ok(g) => r.Ok? && State() == g
      case Err(e) => r == Err(e)
    }

    method StoreValue(value: Expr, addr: Operand) returns (r: Result<(), CompileError>)
      requires Valid()
      modifies this`blocks, this`nextTemp
      ensures Became(StoreTo(old(State()), value, addr), r)
      ensures r.Ok? ==> Valid()
    {
      var v :- VisitExpr(value);
      if IsAddress(value) {
        return Err(TypeMismatch);
      }
      Append(StoreI(v, addr));
      return Ok(());
    }

    method VisitTest(test: Cond, extra: nat) returns (r: Result<(), CompileError>)
      requires Valid() && extra >= 2
      modifies this`blocks, this`nextTemp, this`position
      ensures Became(OpenTest(old(State()), test, extra), r)
      ensures r.Ok? ==> Valid()
    {
      var n := |blocks|;
      AppendBasicBlocks(1 + extra);
      var _ :- SetTerminator(Br(n));
      position := n;
      var c :- VisitCompare(test);
      var _ :- SetTerminator(CondBr(c, n + 1, n + 2));
      position := n + 1;
      return Ok(());
    }

    method VisitStmt(s: Stmt) returns (r: Result<(), CompileError>)
      requires Valid()
      modifies this
      ensures Became(LowerStmt(old(State()), s), r)
      ensures r.Ok? ==> Valid()
      decreases s, 1
    {
      match s {
        case AnnAssign(id, ty, init) =>
          var slot := nextTemp;
          var _ := Define(Alloca(slot, ty));
          localScope := localScope[id := Slot(slot, ty)];
          if init.Some? {
            if ty.ArrayTy? {
              return Err(NotImplemented);
            }
            r := StoreValue(init.value, Tmp(slot));
          } else {
            r := Ok(());
          }
        case Assign(id, value) =>
          if id !in localScope {
            return Err(NameError(id));
          }
          r := StoreValue(value, Tmp(localScope[id].ptr));
          if r.Ok? && localScope[id].ty.ArrayTy? {
            r := Err(TypeMismatch);
          }
        case AssignElem(arr, index, value) =>
          var addr :- SubscriptPtr(arr, index);
          r := StoreValue(value, addr);
        case If(_, _, _) =>
          r := VisitIf(s);
        case While(_, _) =>
          r := VisitWhile(s);
        case Return(result) =>
          if result.None? {
            r := SetTerminator(RetVoid);
          } else {
            var v :- VisitExpr(result.value);
            r := SetTerminator(Ret(v));
            if r.Ok? && IsAddress(result.value) {
              r := Err(TypeMismatch);
            }
          }
        case Pass =>
          r := Ok(());
        case ExprStmt(value) =>
          var _ :- VisitExpr(value);
          r := Ok(());
      }
    }

    method VisitIf(s: Stmt) returns (r: Result<(), CompileError>)
      requires Valid() && s.If?
      modifies this
      ensures Became(LowerIf(old(State()), s), r)
      ensures r.Ok? ==> Valid()
      decreases s, 0
    {
      hide OpenTest, Close, LowerList;
      var n := |blocks|;
      var merge := if s.orelse == [] then n + 2 else n + 3;
      var _ :- VisitTest(s.test, merge - n);
      var _ :- VisitBody(s.body);
      BranchUnlessTerminated(merge);
      if s.orelse != [] {
        position := n + 2;
        var _ :- VisitBody(s.orelse);
        BranchUnlessTerminated(merge);
      }
      position := merge;
      return Ok(());
    }

    method VisitWhile(s: Stmt) returns (r: Result<(), CompileError>)
      requires Valid() && s.While?
      modifies this
      ensures Became(LowerWhile(old(State()), s), r)
      ensures r.Ok? ==> Valid()
      decreases s, 0
    {
      hide OpenTest, Close, LowerList;
      var n := |blocks|;
      var _ :- VisitTest(s.test, 2);
      var _ :- VisitBody(s.body);
      BranchUnlessTerminated(n);
      position := n + 2;
      return Ok(());
    }

    method VisitBody(ss: seq<Stmt>) returns (r: Result<(), CompileError>)
      requires Valid()
      modifies this
      ensures Became(LowerList(old(State()), ss), r)
      ensures r.Ok? ==> Valid()
      decreases ss, 0
    {
      var i := 0;
      while i < |ss|
        invariant 0 <= i <= |ss| && Valid()
        invariant LowerList(old(State()), ss) == LowerList(State(), ss[i..])
      {
        assert ss[i..][0] == ss[i] && ss[i..][1..] == ss[i + 1..];
        var _ :- VisitStmt(ss[i]);
        i := i + 1;
      }
      return Ok(());
    }

    // A fresh function: parameters first, then the body, then the terminator
    // of a body that falls off its end.
    method VisitFunctionDef(f: Function) returns (r: Result<seq<Block>, CompileError>)
      modifies this
      ensures r == LowerFunction(f)
    {
      blocks, position, localScope, nextTemp := [[]], 0, map[], 0;
      var i := 0;
      while i < |f.params|
        invariant 0 <= i <= |f.params| && Valid()
        invariant SpillParams(State(), f.params, i) == SpillParams(EMPTY_GEN, f.params, 0)
      {
        var slot := Define(Alloca(nextTemp, IntTy));
        localScope := localScope[f.params[i] := Slot(slot.t, IntTy)];
        Append(StoreI(Arg(i), slot));
        i := i + 1;
      }
      var _ :- VisitBody(f.body);
      if !IsTerminated(blocks[position]) {
        Append(if f.returnsInt then Unreachable else RetVoid);
      }
      return Ok(blocks);
    }
  }
}
