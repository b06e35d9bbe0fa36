// Meaning preservation: the emitted blocks, run from the entry block, do what
// the source function does.

module LoweringMeaning {
  import opened Wrappers
  import opened MachineInt
  import opened PieSource
  import opened BlockIr
  import opened Lowering
  import opened LoweringForm
  import opened LoweringShape

  // ----- code in place -----

  // The instructions sit in block b of p from position k on.
  predicate CodeAt(p: seq<Block>, b: nat, k: nat, instrs: seq<Instr>) {
    && b < |p|
    && k + |instrs| <= |p[b]|
    && forall i :: 0 <= i < |instrs| ==> p[b][k + i] == instrs[i]
  }

  lemma CodeAtAppend(p: seq<Block>, b: nat, k: nat, xs: seq<Instr>, ys: seq<Instr>)
    requires CodeAt(p, b, k, xs + ys)
    ensures CodeAt(p, b, k, xs) && CodeAt(p, b, k + |xs|, ys)
  {
    forall i | 0 <= i < |xs|
      ensures p[b][k + i] == xs[i]
    {
      assert (xs + ys)[i] == xs[i];
    }
    forall i | 0 <= i < |ys|
      ensures p[b][k + |xs| + i] == ys[i]
    {
      assert (xs + ys)[|xs| + i] == ys[i];
    }
  }

  // What the generator appended to its current block is found in the finished
  // program right after what was there before.
  lemma EmittedCodeAt(p: seq<Block>, g: Gen, instrs: seq<Instr>)
    requires g.Valid() && Extends(p, Emit(g, instrs).blocks)
    ensures CodeAt(p, g.cur, |g.blocks[g.cur]|, instrs)
    ensures Extends(p, g.blocks)
  {
    var e := Emit(g, instrs).blocks;
    assert e[g.cur] == g.blocks[g.cur] + instrs;
    assert e[g.cur] <= p[g.cur];
    forall b | 0 <= b < |g.blocks|
      ensures g.blocks[b] <= p[b]
    {
      assert g.blocks[b] <= e[b] && e[b] <= p[b];
    }
    forall i | 0 <= i < |instrs|
      ensures p[g.cur][|g.blocks[g.cur]| + i] == instrs[i]
    {
      assert e[g.cur][|g.blocks[g.cur]| + i] == instrs[i];
    }
  }

  // ----- related states -----

  predicate SameCells(cells: Cells, obj: Object) {
    |cells| == |obj| && forall i :: 0 <= i < |cells| ==> SameValue(cells[i], obj[i])
  }

  // Every variable in scope has an address in its temporary, the object there
  // holds what the source store holds, and no two variables share an object.
  ghost predicate Linked(ctx: Context, scope: Scope, n: nat, st: Store,
                         tmps: map<nat, Value>, mem: seq<Object>)
  {
    && (forall x :: x in ctx ==> LinkedAt(ctx, scope, n, st, tmps, mem, x))
    && (forall x, y :: x in ctx && y in ctx && x != y ==>
          tmps[scope[x].ptr] != tmps[scope[y].ptr])
  }

  predicate LinkedAt(ctx: Context, scope: Scope, n: nat, st: Store,
                     tmps: map<nat, Value>, mem: seq<Object>, x: string)
    requires x in ctx
  {
    && x in scope && scope[x].ty == ctx[x] && scope[x].ptr < n
    && scope[x].ptr in tmps
    && x in st && st[x].ty == ctx[x] && |st[x].cells| == Size(ctx[x])
    && (var v := tmps[scope[x].ptr];
        v.PtrV? && v.off == 0 && v.obj < |mem| && SameCells(st[x].cells, mem[v.obj]))
  }

  predicate Agree(t: map<nat, Value>, u: map<nat, Value>, n: nat) {
    forall k :: 0 <= k < n && k in t ==> k in u && u[k] == t[k]
  }

  lemma LinkedMove(ctx: Context, scope: Scope, n: nat, m: nat, st: Store,
                   t: map<nat, Value>, u: map<nat, Value>, mem: seq<Object>)
    requires Linked(ctx, scope, n, st, t, mem) && Agree(t, u, n) && n <= m
    ensures Linked(ctx, scope, m, st, u, mem)
  {
    forall x | x in ctx
      ensures LinkedAt(ctx, scope, m, st, u, mem, x)
    {
      assert LinkedAt(ctx, scope, n, st, t, mem, x);
    }
    forall x, y | x in ctx && y in ctx && x != y
      ensures u[scope[x].ptr] != u[scope[y].ptr]
    {
      assert LinkedAt(ctx, scope, n, st, t, mem, x) && LinkedAt(ctx, scope, n, st, t, mem, y);
    }
  }

  // ----- expressions -----

  // One instruction that defines a temporary.
  lemma RunOne(p: seq<Block>, args: seq<Word>, st: State, i: Instr)
    requires st.Running? && CodeAt(p, st.blk, st.pc, [i])
    ensures Run(p, args, st, 1) == StepInstr(i, args, st)
  {
    assert p[st.blk][st.pc + 0] == [i][0];
    assert Run(p, args, st, 1) == Run(p, args, Step(p, args, st), 0);
  }

  lemma RunThen(p: seq<Block>, args: seq<Word>, st: State, k: nat, mid: State, i: Instr)
    requires Run(p, args, st, k) == mid
    requires mid.Running? || mid == Undefined
    requires mid.Running? ==> CodeAt(p, mid.blk, mid.pc, [i])
    ensures Run(p, args, st, k + 1) == if mid.Running? then StepInstr(i, args, mid) else Undefined
  {
    RunAdd(p, args, st, k, 1);
    if mid.Running? {
      RunOne(p, args, mid, i);
    } else {
      RunStopped(p, args, mid, 1);
    }
  }

  // Running straight-line code either gets to its end or hits undefined
  // behaviour on the way.
  ghost predicate Computes(p: seq<Block>, args: seq<Word>, st: State, len: nat,
                           v: Option<Int64>, opd: Operand, n: nat, tmps': map<nat, Value>)
    requires st.Running?
  {
    if v.Some? then
      && Run(p, args, st, len) == Running(st.blk, st.pc + len, tmps', st.mem)
      && Agree(st.tmps, tmps', n)
      && OperandValue(args, tmps', opd) == Some(WordV(ToWord(v.value)))
    else
      Run(p, args, st, len) == Undefined
  }

  // Loading a cell of a linked object reads what the source reads.
  lemma LoadSim(p: seq<Block>, args: seq<Word>, n: nat, i: Instr, cells: Cells, k: int, st: State)
    returns (tmps': map<nat, Value>)
    requires i.Load? && i.dst >= n
    requires st.Running? && CodeAt(p, st.blk, st.pc, [i])
    requires var v := OperandValue(args, st.tmps, i.addr);
      && v.Some? && v.value.PtrV? && v.value.obj < |st.mem| && v.value.off == k
      && SameCells(cells, st.mem[v.value.obj])
    ensures Computes(p, args, st, 1, if 0 <= k < |cells| then cells[k] else None, Tmp(i.dst), n, tmps')
  {
    RunOne(p, args, st, i);
    var v := OperandValue(args, st.tmps, i.addr).value;
    tmps' := st.tmps;
    if 0 <= k < |cells| {
      assert SameValue(cells[k], st.mem[v.obj][k]);
      if cells[k].Some? {
        tmps' := st.tmps[i.dst := WordV(ToWord(cells[k].value))];
      }
    }
  }

  // The instruction of a binary operator, its operands in place.
  lemma BinarySim(args: seq<Word>, op: BinaryOp, i: Instr, x: Int64, y: Int64, st: State)
    requires st.Running? && i.BinI? && LowerBinary(op) == Some(i.op)
    requires OperandValue(args, st.tmps, i.l) == Some(WordV(ToWord(x)))
    requires OperandValue(args, st.tmps, i.r) == Some(WordV(ToWord(y)))
    ensures StepInstr(i, args, st) ==
      (var v := BinaryValue(op, x, y);
       if v.None? then Undefined
       else Running(st.blk, st.pc + 1, st.tmps[i.dst := WordV(ToWord(v.value))], st.mem))
  {
    BinaryAgrees(op, i.op, x, y);
  }

  function UnaryInstr(op: UnaryOp, a: Code): Instr {
    if op.Invert? then BinI(a.next, XorI, a.opd, Imm(ToWord(-1))) else BinI(a.next, SubI, Imm(0), a.opd)
  }

  lemma UnarySim(args: seq<Word>, op: UnaryOp, a: Code, x: Int64, st: State)
    requires st.Running? && (op.Invert? || op.USub?)
    requires OperandValue(args, st.tmps, a.opd) == Some(WordV(ToWord(x)))
    ensures UnaryValue(op, x).Some?
    ensures StepInstr(UnaryInstr(op, a), args, st) ==
      Running(st.blk, st.pc + 1, st.tmps[a.next := WordV(ToWord(UnaryValue(op, x).value))], st.mem)
  {
    if op.Invert? {
      InvertAgrees(x);
    } else {
      SubAgrees(0, x);
    }
  }

  lemma {:induction false} ExprSim(p: seq<Block>, args: seq<Word>, ctx: Context, scope: Scope, n: nat,
                                   e: Expr, code: Code, s: Store, st: State)
    returns (tmps': map<nat, Value>)
    requires ExprCode(scope, n, e) == Ok(code)
    requires CheckExpr(ctx, e)
    requires st.Running? && CodeAt(p, st.blk, st.pc, code.instrs)
    requires Linked(ctx, scope, n, s, st.tmps, st.mem)
    ensures Computes(p, args, st, |code.instrs|, EvalExpr(e, s), code.opd, n, tmps')
    decreases e, 2
  {
    match e
    case Const(_) =>
      tmps' := st.tmps;
    case Name(id) =>
      VariableLinked(ctx, scope, n, s, st.tmps, st.mem, id);
      tmps' := LoadSim(p, args, n, code.instrs[0], s[id].cells, 0, st);
    case Binary(_, _, _) =>
      tmps' := BinaryExprSim(p, args, ctx, scope, n, e, code, s, st);
    case Unary(_, _) =>
      tmps' := UnaryExprSim(p, args, ctx, scope, n, e, code, s, st);
    case Subscript(_, _) =>
      tmps' := SubscriptSim(p, args, ctx, scope, n, e, code, s, st);
  }

  lemma {:induction false} BinaryExprSim(p: seq<Block>, args: seq<Word>, ctx: Context, scope: Scope, n: nat,
                                         e: Expr, code: Code, s: Store, st: State)
    returns (tmps': map<nat, Value>)
    requires e.Binary?
    requires ExprCode(scope, n, e) == Ok(code)
    requires CheckExpr(ctx, e)
    requires st.Running? && CodeAt(p, st.blk, st.pc, code.instrs)
    requires Linked(ctx, scope, n, s, st.tmps, st.mem)
    ensures Computes(p, args, st, |code.instrs|, EvalExpr(e, s), code.opd, n, tmps')
    decreases e, 1
  {
    hide BinaryValue, UnaryValue, OpcodeValue, StepInstr, LowerBinary, Linked, Run, CodeAt, ToWord, AddressExpr, Types;
    var a := ExprCode(scope, n, e.left).value;
    var b := ExprCode(scope, a.next, e.right).value;
    var i := BinI(b.next, LowerBinary(e.op).value, a.opd, b.opd);
    tmps' := PairSim(p, args, ctx, scope, n, e, e.left, e.right, a, b, i, s, st);
    var x, y := EvalExpr(e.left, s), EvalExpr(e.right, s);
    var k := |a.instrs| + |b.instrs|;
    var mid := if x.Some? && y.Some? then Running(st.blk, st.pc + k, tmps', st.mem) else Undefined;
    RunThen(p, args, st, k, mid, i);
    if x.Some? && y.Some? {
      BinarySim(args, e.op, i, x.value, y.value, mid);
      var v := BinaryValue(e.op, x.value, y.value);
      if v.Some? {
        tmps' := tmps'[b.next := WordV(ToWord(v.value))];
      }
    }
  }

  lemma {:induction false} UnaryExprSim(p: seq<Block>, args: seq<Word>, ctx: Context, scope: Scope, n: nat,
                                        e: Expr, code: Code, s: Store, st: State)
    returns (tmps': map<nat, Value>)
    requires e.Unary?
    requires ExprCode(scope, n, e) == Ok(code)
    requires CheckExpr(ctx, e)
    requires st.Running? && CodeAt(p, st.blk, st.pc, code.instrs)
    requires Linked(ctx, scope, n, s, st.tmps, st.mem)
    ensures Computes(p, args, st, |code.instrs|, EvalExpr(e, s), code.opd, n, tmps')
    decreases e, 1
  {
    hide BinaryValue, UnaryValue, OpcodeValue, StepInstr, LowerBinary, Linked, Run, CodeAt;
    var a := ExprCode(scope, n, e.operand).value;
    tmps' := st.tmps;
    if e.uop.UAdd? {
      UAddSame(e.operand, s);
      tmps' := ExprSim(p, args, ctx, scope, n, e.operand, a, s, st);
    } else {
      var i := UnaryInstr(e.uop, a);
      CodeAtAppend(p, st.blk, st.pc, a.instrs, [i]);
      tmps' := ExprSim(p, args, ctx, scope, n, e.operand, a, s, st);
      var v := EvalExpr(e.operand, s);
      var mid := if v.Some? then Running(st.blk, st.pc + |a.instrs|, tmps', st.mem) else Undefined;
      RunThen(p, args, st, |a.instrs|, mid, i);
      if v.Some? {
        UnarySim(args, e.uop, a, v.value, mid);
        tmps' := tmps'[a.next := WordV(ToWord(UnaryValue(e.uop, v.value).value))];
      }
    }
  }

  lemma {:induction false} SubscriptSim(p: seq<Block>, args: seq<Word>, ctx: Context, scope: Scope, n: nat,
                                        e: Expr, code: Code, s: Store, st: State)
    returns (tmps': map<nat, Value>)
    requires e.Subscript?
    requires ExprCode(scope, n, e) == Ok(code)
    requires CheckExpr(ctx, e)
    requires st.Running? && CodeAt(p, st.blk, st.pc, code.instrs)
    requires Linked(ctx, scope, n, s, st.tmps, st.mem)
    ensures Computes(p, args, st, |code.instrs|, EvalExpr(e, s), code.opd, n, tmps')
    decreases e, 1
  {
    hide BinaryValue, UnaryValue, OpcodeValue, StepInstr, LowerBinary, Linked, Run, CodeAt;
    var a := ElementCode(scope, n, e.arr, e.index).value;
    var i := Load(a.next, a.opd);
    CodeAtAppend(p, st.blk, st.pc, a.instrs, [i]);
    tmps' := ElementSim(p, args, ctx, scope, n, e.arr, e.index, a, s, st);
    RunAdd(p, args, st, |a.instrs|, 1);
    var v := EvalExpr(e.index, s);
    if v.Some? {
      var st1 := Running(st.blk, st.pc + |a.instrs|, tmps', st.mem);
      VariableLinked(ctx, scope, n, s, st.tmps, st.mem, e.arr);
      tmps' := LoadSim(p, args, n, i, s[e.arr].cells, v.value, st1);
    } else {
      RunStopped(p, args, Undefined, 1);
    }
  }

  lemma UAddSame(x: Expr, s: Store)
    ensures EvalExpr(Unary(UAdd, x), s) == EvalExpr(x, s)
  {
  }

  lemma VariableLinked(ctx: Context, scope: Scope, n: nat, st: Store,
                       tmps: map<nat, Value>, mem: seq<Object>, x: string)
    requires x in ctx && Linked(ctx, scope, n, st, tmps, mem)
    ensures LinkedAt(ctx, scope, n, st, tmps, mem, x)
  {
  }

  lemma LinkedCovers(ctx: Context, scope: Scope, n: nat, st: Store,
                     tmps: map<nat, Value>, mem: seq<Object>)
    requires Linked(ctx, scope, n, st, tmps, mem)
    ensures Covers(ctx, scope, n)
  {
    forall x | x in ctx
      ensures x in scope && scope[x].ty == ctx[x] && scope[x].ptr < n
    {
      VariableLinked(ctx, scope, n, st, tmps, mem, x);
    }
  }

  lemma ValueBelow(ctx: Context, scope: Scope, n: nat, st: Store,
                   tmps: map<nat, Value>, mem: seq<Object>, e: Expr)
    requires Linked(ctx, scope, n, st, tmps, mem) && CheckExpr(ctx, e) && ExprCode(scope, n, e).Ok?
    ensures OperandBelow(ExprCode(scope, n, e).value.opd, ExprCode(scope, n, e).value.next)
  {
    hide ExprCode, CheckExpr, Linked, AddressExpr;
    LinkedCovers(ctx, scope, n, st, tmps, mem);
    CoversWithin(ctx, scope, n);
    CheckedValue(ctx, Types(scope), e);
  }

  // Two operands, left before right; i is whatever follows.  e is any
  // expression larger than both.
  lemma {:induction false} PairSim(p: seq<Block>, args: seq<Word>, ctx: Context, scope: Scope, n: nat,
                                   e: Expr, l: Expr, r: Expr, a: Code, b: Code, i: Instr,
                                   s: Store, st: State)
    returns (tmps': map<nat, Value>)
    requires l < e && r < e
    requires ExprCode(scope, n, l) == Ok(a) && ExprCode(scope, a.next, r) == Ok(b)
    requires CheckExpr(ctx, l) && CheckExpr(ctx, r)
    requires st.Running? && CodeAt(p, st.blk, st.pc, a.instrs + b.instrs + [i])
    requires Linked(ctx, scope, n, s, st.tmps, st.mem)
    ensures CodeAt(p, st.blk, st.pc + |a.instrs| + |b.instrs|, [i])
    ensures Computes(p, args, st, |a.instrs| + |b.instrs|,
                     if EvalExpr(l, s).Some? then EvalExpr(r, s) else None, b.opd, n, tmps')
    ensures EvalExpr(l, s).Some? && EvalExpr(r, s).Some? ==>
      OperandValue(args, tmps', a.opd) == Some(WordV(ToWord(EvalExpr(l, s).value)))
    decreases e, 0
  {
    hide ExprCode, EvalExpr, CheckExpr, Linked, Run, BinaryValue, OpcodeValue;
    ValueBelow(ctx, scope, n, s, st.tmps, st.mem, l);
    CodeAtAppend(p, st.blk, st.pc, a.instrs + b.instrs, [i]);
    CodeAtAppend(p, st.blk, st.pc, a.instrs, b.instrs);
    tmps' := ExprSim(p, args, ctx, scope, n, l, a, s, st);
    RunAdd(p, args, st, |a.instrs|, |b.instrs|);
    if EvalExpr(l, s).Some? {
      var st1 := Running(st.blk, st.pc + |a.instrs|, tmps', st.mem);
      LinkedMove(ctx, scope, n, a.next, s, st.tmps, tmps', st.mem);
      tmps' := ExprSim(p, args, ctx, scope, a.next, r, b, s, st1);
    } else {
      RunStopped(p, args, Undefined, |b.instrs|);
    }
  }

  // The address of arr[index], if index has a value.
  lemma {:induction false} ElementSim(p: seq<Block>, args: seq<Word>, ctx: Context, scope: Scope, n: nat,
                                      arr: string, index: Expr, code: Code, s: Store, st: State)
    returns (tmps': map<nat, Value>)
    requires ElementCode(scope, n, arr, index) == Ok(code)
    requires arr in ctx && ctx[arr].ArrayTy? && CheckExpr(ctx, index)
    requires st.Running? && CodeAt(p, st.blk, st.pc, code.instrs)
    requires Linked(ctx, scope, n, s, st.tmps, st.mem)
    ensures arr in scope && scope[arr].ptr in st.tmps && st.tmps[scope[arr].ptr].PtrV?
    ensures var v := EvalExpr(index, s);
      if v.Some? then
        && Run(p, args, st, |code.instrs|) == Running(st.blk, st.pc + |code.instrs|, tmps', st.mem)
        && Agree(st.tmps, tmps', n)
        && OperandValue(args, tmps', code.opd) == Some(PtrV(st.tmps[scope[arr].ptr].obj, v.value))
      else Run(p, args, st, |code.instrs|) == Undefined
    decreases index, 3
  {
    hide BinaryValue, UnaryValue, OpcodeValue, LowerBinary, Linked, Run, CodeAt, EvalExpr, CheckExpr, ExprCode;
    VariableLinked(ctx, scope, n, s, st.tmps, st.mem, arr);
    var a := ExprCode(scope, n, index).value;
    var i := Gep(a.next, Tmp(scope[arr].ptr), a.opd);
    CodeAtAppend(p, st.blk, st.pc, a.instrs, [i]);
    tmps' := ExprSim(p, args, ctx, scope, n, index, a, s, st);
    var v := EvalExpr(index, s);
    var mid := if v.Some? then Running(st.blk, st.pc + |a.instrs|, tmps', st.mem) else Undefined;
    RunThen(p, args, st, |a.instrs|, mid, i);
    if v.Some? {
      SignedOfWord(v.value);
      tmps' := tmps'[a.next := PtrV(st.tmps[scope[arr].ptr].obj, v.value)];
    }
  }

  // ----- conditions -----

  lemma CondSim(p: seq<Block>, args: seq<Word>, ctx: Context, scope: Scope, n: nat,
                c: Cond, code: Code, s: Store, st: State)
    returns (tmps': map<nat, Value>)
    requires CondCode(scope, n, c) == Ok(code) && CheckCond(ctx, c)
    requires st.Running? && CodeAt(p, st.blk, st.pc, code.instrs)
    requires Linked(ctx, scope, n, s, st.tmps, st.mem)
    ensures var v := EvalCond(c, s);
      if v.Some? then
        && Run(p, args, st, |code.instrs|) == Running(st.blk, st.pc + |code.instrs|, tmps', st.mem)
        && Agree(st.tmps, tmps', n)
        && OperandValue(args, tmps', code.opd) == Some(BoolV(v.value))
      else Run(p, args, st, |code.instrs|) == Undefined
  {
    hide Linked, Run, CodeAt, CompareValue, PredicateValue;
    var a := ExprCode(scope, n, c.left).value;
    var b := ExprCode(scope, a.next, c.right).value;
    var i := Icmp(b.next, LowerCompare(c.op).value, a.opd, b.opd);
    var e := Binary(Add, c.left, c.right);
    tmps' := PairSim(p, args, ctx, scope, n, e, c.left, c.right, a, b, i, s, st);
    var x, y := EvalExpr(c.left, s), EvalExpr(c.right, s);
    var k := |a.instrs| + |b.instrs|;
    var mid := if x.Some? && y.Some? then Running(st.blk, st.pc + k, tmps', st.mem) else Undefined;
    RunThen(p, args, st, k, mid, i);
    if x.Some? && y.Some? {
      CompareAgrees(c.op, i.p, x.value, y.value);
      tmps' := tmps'[b.next := BoolV(PredicateValue(i.p, ToWord(x.value), ToWord(y.value)))];
    }
  }

  // The same variables seen through a later scope.
  lemma LinkedRescope(ctx: Context, scope: Scope, n: nat, scope': Scope, n': nat,
                      st: Store, tmps: map<nat, Value>, mem: seq<Object>)
    requires Linked(ctx, scope, n, st, tmps, mem)
    requires forall x :: x in ctx && x in scope ==> x in scope' && scope'[x] == scope[x] && scope'[x].ptr < n'
    ensures Linked(ctx, scope', n', st, tmps, mem)
  {
    forall x | x in ctx
      ensures LinkedAt(ctx, scope', n', st, tmps, mem, x)
    {
      VariableLinked(ctx, scope, n, st, tmps, mem, x);
    }
  }

  // Leaving a list: its own declarations go out of sight.
  lemma LinkedRestrict(ctx: Context, ctx': Context, scope: Scope, n: nat,
                       st: Store, tmps: map<nat, Value>, mem: seq<Object>)
    requires Linked(ctx', scope, n, st, tmps, mem)
    requires forall x :: x in ctx ==> x in ctx' && ctx'[x] == ctx[x]
    ensures Linked(ctx, scope, n, st, tmps, mem)
  {
    forall x | x in ctx
      ensures LinkedAt(ctx, scope, n, st, tmps, mem, x)
    {
      VariableLinked(ctx', scope, n, st, tmps, mem, x);
    }
  }

  lemma PrefixCodeAt(p: seq<Block>, b: nat, code: Block)
    requires b < |p| && code <= p[b]
    ensures CodeAt(p, b, 0, code)
  {
  }

  // From the start of the test block n to the start of the chosen block.
  lemma TestSim(p: seq<Block>, args: seq<Word>, ctx: Context, g: Gen, test: Cond, extra: nat,
                s: Store, st: State)
    returns (k: nat, st': State)
    requires g.Valid() && !g.Closed() && AllTargets(g.blocks, |g.blocks|) && extra >= 2
    requires CheckCond(ctx, test) && OpenTest(g, test, extra).Ok?
    requires Extends(p, OpenTest(g, test, extra).value.blocks)
    requires st.Running? && st.blk == |g.blocks| && st.pc == 0
    requires Linked(ctx, g.scope, g.next, s, st.tmps, st.mem)
    ensures k >= 1 && Run(p, args, st, k) == st'
    ensures var v, n, g1 := EvalCond(test, s), |g.blocks|, OpenTest(g, test, extra).value;
      if v.Some? then
        && st'.Running? && st'.blk == (if v.value then n + 1 else n + 2) && st'.pc == 0
        && g1.scope == g.scope
        && Linked(ctx, g1.scope, g1.next, s, st'.tmps, st'.mem)
      else st' == Undefined
  {
    hide Linked, Run, Linked, EvalCond, CondCode, OpenTest, WellTerminated, TargetsBelow;
    LinkedCovers(ctx, g.scope, g.next, s, st.tmps, st.mem);
    OpenTestForm(g, test, extra);
    var n, g1 := |g.blocks|, OpenTest(g, test, extra).value;
    var code := CondCode(g.scope, g.next, test).value;
    var jump := CondBr(code.opd, n + 1, n + 2);
    assert g1.blocks[n] <= p[n];
    PrefixCodeAt(p, n, code.instrs + [jump]);
    CodeAtAppend(p, n, 0, code.instrs, [jump]);
    var tmps' := CondSim(p, args, ctx, g.scope, g.next, test, code, s, st);
    var v := EvalCond(test, s);
    var mid := if v.Some? then Running(n, |code.instrs|, tmps', st.mem) else Undefined;
    RunThen(p, args, st, |code.instrs|, mid, jump);
    k, st' := |code.instrs| + 1, Undefined;
    if v.Some? {
      st' := Running(if v.value then n + 1 else n + 2, 0, tmps', st.mem);
      LinkedMove(ctx, g.scope, g.next, g1.next, s, st.tmps, tmps', st.mem);
    }
  }
}
