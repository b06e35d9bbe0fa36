// No run of compiled code with safe names gets stuck: every temporary is defined
// when it is used, as static dominance says of all paths, and holds a value of
// the kind that its use needs.

module RunSafety {
  import opened Wrappers
  import opened MachineInt
  import opened PieSource
  import opened BlockIr
  import opened Lowering
  import opened LoweringForm
  import opened LoweringShape
  import opened NameSafety
  import opened Dominance
  import opened LoweringDominance
  import opened LoweringWitness
  import opened FunctionMeaning

  // ----- kinds of temporaries -----

  datatype Kind = WordKind | BoolKind | PtrKind

  type Kinds = map<nat, Kind>

  function KindOf(v: Value): Kind {
    match v
    case WordV(_) => WordKind
    case BoolV(_) => BoolKind
    case PtrV(_, _) => PtrKind
  }

  // The operand has the kind; n is the number of arguments.
  predicate HasKind(o: Operand, kinds: Kinds, n: nat, kind: Kind) {
    match o
    case Imm(_) => kind.WordKind?
    case Arg(i) => kind.WordKind? && i < n
    case Tmp(t) => t in kinds && kinds[t] == kind
  }

  predicate InstrKinded(i: Instr, kinds: Kinds, n: nat) {
    match i
    case Alloca(dst, _) => HasKind(Tmp(dst), kinds, n, PtrKind)
    case StoreI(val, addr) => HasKind(val, kinds, n, WordKind) && HasKind(addr, kinds, n, PtrKind)
    case Load(dst, addr) => HasKind(Tmp(dst), kinds, n, WordKind) && HasKind(addr, kinds, n, PtrKind)
    case Gep(dst, base, index) =>
      HasKind(Tmp(dst), kinds, n, PtrKind) && HasKind(base, kinds, n, PtrKind) && HasKind(index, kinds, n, WordKind)
    case BinI(dst, _, l, r) =>
      HasKind(Tmp(dst), kinds, n, WordKind) && HasKind(l, kinds, n, WordKind) && HasKind(r, kinds, n, WordKind)
    case Icmp(dst, _, l, r) =>
      HasKind(Tmp(dst), kinds, n, BoolKind) && HasKind(l, kinds, n, WordKind) && HasKind(r, kinds, n, WordKind)
    case CondBr(cond, _, _) => HasKind(cond, kinds, n, BoolKind)
    case Ret(result) => HasKind(result, kinds, n, WordKind)
    case _ => true
  }

  predicate CodeKinded(code: Block, kinds: Kinds, n: nat) {
    forall k :: 0 <= k < |code| ==> InstrKinded(code[k], kinds, n)
  }

  predicate Grows(kinds: Kinds, kinds': Kinds) {
    forall t :: t in kinds ==> t in kinds' && kinds'[t] == kinds[t]
  }

  lemma KindedMono(code: Block, kinds: Kinds, kinds': Kinds, n: nat)
    requires CodeKinded(code, kinds, n) && Grows(kinds, kinds')
    ensures CodeKinded(code, kinds', n)
  {
    forall k | 0 <= k < |code|
      ensures InstrKinded(code[k], kinds', n)
    {
      assert InstrKinded(code[k], kinds, n);
    }
  }

  lemma KindedAppend(xs: Block, ys: Block, kinds: Kinds, n: nat)
    requires CodeKinded(xs, kinds, n) && CodeKinded(ys, kinds, n)
    ensures CodeKinded(xs + ys, kinds, n)
  {
  }

  // Kinds are known of temporaries handed out, and slots hold pointers.
  predicate ScopeKinded(scope: Scope, m: nat, kinds: Kinds) {
    && (forall t :: t in kinds ==> t < m)
    && forall x :: x in scope ==> scope[x].ptr in kinds && kinds[scope[x].ptr].PtrKind?
  }

  // Code that is kinded, with the kinds of its temporaries and of its operand.
  ghost predicate CodeOf(scope: Scope, m: nat, kinds: Kinds, code: Code, kinds': Kinds, n: nat, kind: Kind) {
    && Grows(kinds, kinds') && m <= code.next && ScopeKinded(scope, code.next, kinds')
    && CodeKinded(code.instrs, kinds', n) && HasKind(code.opd, kinds', n, kind)
  }

  // One more instruction, for the next temporary.
  lemma LastKinded(scope: Scope, m: nat, kinds: Kinds, a: Code, kinds1: Kinds, n: nat, was: Kind, i: Instr, kind: Kind)
    returns (kinds': Kinds)
    requires CodeOf(scope, m, kinds, a, kinds1, n, was)
    requires InstrKinded(i, kinds1[a.next := kind], n)
    ensures CodeOf(scope, m, kinds, Last(a, i), kinds', n, kind)
  {
    kinds' := kinds1[a.next := kind];
    KindedMono(a.instrs, kinds1, kinds', n);
    KindedAppend(a.instrs, [i], kinds', n);
  }

  function ValueKind(scope: Scope, e: Expr): Kind {
    if AddressExpr(Types(scope), e) then PtrKind else WordKind
  }

  lemma {:induction false} ExprKinds(scope: Scope, m: nat, e: Expr, kinds: Kinds, n: nat) returns (kinds': Kinds)
    requires ExprCode(scope, m, e).Ok? && ScopeKinded(scope, m, kinds)
    ensures CodeOf(scope, m, kinds, ExprCode(scope, m, e).value, kinds', n, ValueKind(scope, e))
    decreases e, 1
  {
    hide CodeKinded, ScopeKinded;
    StartKinded(scope, m, kinds, n);
    kinds' := kinds;
    match e
    case Const(_) =>
    case Name(id) =>
      SlotKind(scope, m, kinds, id);
      if scope[id].ty.IntTy? {
        kinds' := LastKinded(scope, m, kinds, Code([], Imm(0), m), kinds, n, WordKind,
                             Load(m, Tmp(scope[id].ptr)), WordKind);
        assert [] + [Load(m, Tmp(scope[id].ptr))] == [Load(m, Tmp(scope[id].ptr))];
      }
    case Binary(op, l, r) =>
      kinds' := PairKinds(scope, m, e, l, r, kinds, n,
                          BinI(ExprCode(scope, m, e).value.next - 1, LowerBinary(op).value,
                               ExprCode(scope, m, l).value.opd,
                               ExprCode(scope, ExprCode(scope, m, l).value.next, r).value.opd), WordKind);
    case Unary(op, x) =>
      var a := ExprCode(scope, m, x).value;
      kinds' := ExprKinds(scope, m, x, kinds, n);
      if op.Invert? {
        kinds' := LastKinded(scope, m, kinds, a, kinds', n, WordKind,
                             BinI(a.next, XorI, a.opd, Imm(ToWord(-1))), WordKind);
      } else if op.USub? {
        kinds' := LastKinded(scope, m, kinds, a, kinds', n, WordKind, BinI(a.next, SubI, Imm(0), a.opd), WordKind);
      }
    case Subscript(arr, index) =>
      var a := ElementCode(scope, m, arr, index).value;
      kinds' := ElementKinds(scope, m, arr, index, kinds, n);
      kinds' := LastKinded(scope, m, kinds, a, kinds', n, PtrKind, Load(a.next, a.opd), WordKind);
  }

  lemma StartKinded(scope: Scope, m: nat, kinds: Kinds, n: nat)
    requires ScopeKinded(scope, m, kinds)
    ensures forall w :: CodeOf(scope, m, kinds, Code([], Imm(w), m), kinds, n, WordKind)
    ensures CodeKinded([], kinds, n) && Grows(kinds, kinds)
  {
  }

  lemma SlotKind(scope: Scope, m: nat, kinds: Kinds, x: string)
    requires ScopeKinded(scope, m, kinds) && x in scope
    ensures scope[x].ptr in kinds && kinds[scope[x].ptr].PtrKind? && scope[x].ptr < m
  {
  }

  // Two ints, and an instruction on them.
  lemma {:induction false} PairKinds(scope: Scope, m: nat, e: Expr, l: Expr, r: Expr, kinds: Kinds, n: nat,
                                     i: Instr, kind: Kind) returns (kinds': Kinds)
    requires l < e && r < e && ScopeKinded(scope, m, kinds)
    requires !AddressExpr(Types(scope), l) && !AddressExpr(Types(scope), r)
    requires ExprCode(scope, m, l).Ok? && ExprCode(scope, ExprCode(scope, m, l).value.next, r).Ok?
    requires var a := ExprCode(scope, m, l).value;
      var b := ExprCode(scope, a.next, r).value;
      (i.BinI? && i.dst == b.next && i.l == a.opd && i.r == b.opd && kind.WordKind?)
      || (i.Icmp? && i.dst == b.next && i.l == a.opd && i.r == b.opd && kind.BoolKind?)
    ensures var a := ExprCode(scope, m, l).value;
      CodeOf(scope, m, kinds, Then(a, ExprCode(scope, a.next, r).value, i), kinds', n, kind)
    decreases e, 0
  {
    hide ExprCode, CodeKinded, AddressExpr;
    var a := ExprCode(scope, m, l).value;
    var b := ExprCode(scope, a.next, r).value;
    var kinds1 := ExprKinds(scope, m, l, kinds, n);
    var kinds2 := ExprKinds(scope, a.next, r, kinds1, n);
    KindedMono(a.instrs, kinds1, kinds2, n);
    KindedAppend(a.instrs, b.instrs, kinds2, n);
    kinds' := LastKinded(scope, m, kinds, Code(a.instrs + b.instrs, b.opd, b.next), kinds2, n, WordKind, i, kind);
  }

  lemma {:induction false} ElementKinds(scope: Scope, m: nat, arr: string, index: Expr, kinds: Kinds, n: nat)
    returns (kinds': Kinds)
    requires ElementCode(scope, m, arr, index).Ok? && ScopeKinded(scope, m, kinds)
    ensures CodeOf(scope, m, kinds, ElementCode(scope, m, arr, index).value, kinds', n, PtrKind)
    decreases index, 2
  {
    hide ExprCode, CodeKinded, AddressExpr;
    var a := ExprCode(scope, m, index).value;
    kinds' := ExprKinds(scope, m, index, kinds, n);
    kinds' := LastKinded(scope, m, kinds, a, kinds', n, WordKind, Gep(a.next, Tmp(scope[arr].ptr), a.opd), PtrKind);
  }

  lemma CondKinds(scope: Scope, m: nat, c: Cond, kinds: Kinds, n: nat) returns (kinds': Kinds)
    requires CondCode(scope, m, c).Ok? && ScopeKinded(scope, m, kinds)
    ensures CodeOf(scope, m, kinds, CondCode(scope, m, c).value, kinds', n, BoolKind)
  {
    hide ExprCode, AddressExpr, CodeOf;
    var a := ExprCode(scope, m, c.left).value;
    var b := ExprCode(scope, a.next, c.right).value;
    kinds' := PairKinds(scope, m, Binary(Add, c.left, c.right), c.left, c.right, kinds, n,
                        Icmp(b.next, LowerCompare(c.op).value, a.opd, b.opd), BoolKind);
  }

  // ----- the generator keeps its code kinded -----

  ghost predicate Kinded(g: Gen, kinds: Kinds, n: nat) {
    && g.Valid() && ScopeKinded(g.scope, g.next, kinds)
    && forall b :: 0 <= b < |g.blocks| ==> CodeKinded(g.blocks[b], kinds, n)
  }

  lemma EmitKinded(g: Gen, kinds: Kinds, instrs: seq<Instr>, kinds': Kinds, n: nat, scope': Scope, next': nat)
    requires Kinded(g, kinds, n) && Grows(kinds, kinds') && CodeKinded(instrs, kinds', n)
    requires ScopeKinded(scope', next', kinds')
    ensures Kinded(Emit(g, instrs).(scope := scope', next := next'), kinds', n)
  {
    var g' := Emit(g, instrs);
    forall b | 0 <= b < |g'.blocks|
      ensures CodeKinded(g'.blocks[b], kinds', n)
    {
      KindedMono(g.blocks[b], kinds, kinds', n);
      if b == g.cur {
        KindedAppend(g.blocks[b], instrs, kinds', n);
      }
    }
  }

  lemma EmitOneKinded(g: Gen, kinds: Kinds, i: Instr, n: nat)
    requires Kinded(g, kinds, n) && InstrKinded(i, kinds, n)
    ensures Kinded(Emit(g, [i]), kinds, n)
  {
    EmitKinded(g, kinds, [i], kinds, n, g.scope, g.next);
  }

  lemma KindedParts(g: Gen, kinds: Kinds, n: nat)
    requires Kinded(g, kinds, n)
    ensures g.Valid() && ScopeKinded(g.scope, g.next, kinds)
  {
  }

  lemma ExprKinded(g: Gen, e: Expr, kinds: Kinds, n: nat) returns (kinds': Kinds)
    requires Kinded(g, kinds, n) && LowerExpr(g, e).Ok?
    ensures Kinded(LowerExpr(g, e).value.0, kinds', n) && Grows(kinds, kinds')
    ensures HasKind(LowerExpr(g, e).value.1, kinds', n, ValueKind(g.scope, e))
  {
    hide ExprCode, Kinded, CodeKinded, AddressExpr, ScopeKinded;
    KindedParts(g, kinds, n);
    var code := ExprCode(g.scope, g.next, e).value;
    kinds' := ExprKinds(g.scope, g.next, e, kinds, n);
    EmitKinded(g, kinds, code.instrs, kinds', n, g.scope, code.next);
  }

  lemma StoreKinded(g: Gen, value: Expr, addr: Operand, kinds: Kinds, n: nat) returns (kinds': Kinds)
    requires Kinded(g, kinds, n) && StoreTo(g, value, addr).Ok? && HasKind(addr, kinds, n, PtrKind)
    ensures Kinded(StoreTo(g, value, addr).value, kinds', n) && Grows(kinds, kinds')
  {
    hide ExprCode, Kinded, AddressExpr;
    KindedParts(g, kinds, n);
    kinds' := ExprKinded(g, value, kinds, n);
    var v := LowerExpr(g, value).value;
    EmitOneKinded(v.0, kinds', StoreI(v.1, addr), n);
  }

  lemma DeclareKinded(g: Gen, id: string, ty: Ty, kinds: Kinds, n: nat) returns (kinds': Kinds)
    requires Kinded(g, kinds, n)
    ensures Kinded(DeclareSlot(g, id, ty), kinds', n) && Grows(kinds, kinds')
    ensures HasKind(Tmp(g.next), kinds', n, PtrKind)
  {
    kinds' := kinds[g.next := PtrKind];
    EmitKinded(g, kinds, [Alloca(g.next, ty)], kinds', n, g.scope[id := Slot(g.next, ty)], g.next + 1);
  }

  lemma OpenTestKinded(g: Gen, test: Cond, extra: nat, kinds: Kinds, n: nat) returns (kinds': Kinds)
    requires Kinded(g, kinds, n) && extra >= 2 && OpenTest(g, test, extra).Ok?
    ensures Kinded(OpenTest(g, test, extra).value, kinds', n) && Grows(kinds, kinds')
  {
    hide CondCode, IsTerminated, CodeKinded, ScopeKinded;
    var m := |g.blocks|;
    var a := AppendBlocks(g, 1 + extra);
    StartKinded(g.scope, g.next, kinds, n);
    assert Kinded(a, kinds, n);
    EmitOneKinded(a, kinds, Br(m), n);
    var ge := At(Emit(a, [Br(m)]), m);
    kinds' := CondKinds(ge.scope, ge.next, test, kinds, n);
    var code := CondCode(ge.scope, ge.next, test).value;
    EmitKinded(ge, kinds, code.instrs, kinds', n, ge.scope, code.next);
    EmitOneKinded(EmitCode(ge, code), kinds', CondBr(code.opd, m + 1, m + 2), n);
  }

  lemma CloseKinded(g: Gen, target: nat, kinds: Kinds, n: nat)
    requires Kinded(g, kinds, n)
    ensures Kinded(Close(g, target), kinds, n)
  {
    EmitOneKinded(g, kinds, Br(target), n);
  }

  lemma AtKinded(g: Gen, b: nat, kinds: Kinds, n: nat)
    requires Kinded(g, kinds, n) && b < |g.blocks|
    ensures Kinded(At(g, b), kinds, n)
  {
  }

  lemma {:induction false} StmtKinded(g: Gen, s: Stmt, kinds: Kinds, n: nat) returns (kinds': Kinds)
    requires Kinded(g, kinds, n) && LowerStmt(g, s).Ok?
    ensures Kinded(LowerStmt(g, s).value, kinds', n) && Grows(kinds, kinds')
    decreases s, 1
  {
    hide ExprCode, ElementCode, Kinded, StoreTo, LowerIf, LowerWhile, AddressExpr, IsTerminated;
    KindedParts(g, kinds, n);
    kinds' := kinds;
    match s
    case AnnAssign(id, ty, init) =>
      kinds' := DeclareKinded(g, id, ty, kinds, n);
      if init.Some? {
        kinds' := StoreKinded(DeclareSlot(g, id, ty), init.value, Tmp(g.next), kinds', n);
      }
    case Assign(id, value) =>
      SlotKind(g.scope, g.next, kinds, id);
      kinds' := StoreKinded(g, value, Tmp(g.scope[id].ptr), kinds, n);
    case AssignElem(arr, index, value) =>
      var a := ElementCode(g.scope, g.next, arr, index).value;
      kinds' := ElementKinds(g.scope, g.next, arr, index, kinds, n);
      EmitKinded(g, kinds, a.instrs, kinds', n, g.scope, a.next);
      kinds' := StoreKinded(EmitCode(g, a), value, a.opd, kinds', n);
    case If(_, _, _) => kinds' := IfKinded(g, s, kinds, n);
    case While(_, _) => kinds' := WhileKinded(g, s, kinds, n);
    case Return(result) =>
      if result.Some? {
        kinds' := ExprKinded(g, result.value, kinds, n);
        var v := LowerExpr(g, result.value).value;
        EmitOneKinded(v.0, kinds', Ret(v.1), n);
      } else {
        EmitOneKinded(g, kinds, RetVoid, n);
      }
    case Pass =>
    case ExprStmt(value) => kinds' := ExprKinded(g, value, kinds, n);
  }

  lemma {:induction false} RegionKinded(g: Gen, ss: seq<Stmt>, target: nat, kinds: Kinds, n: nat)
    returns (kinds': Kinds)
    requires Kinded(g, kinds, n) && LowerList(g, ss).Ok?
    ensures Kinded(Close(LowerList(g, ss).value, target), kinds', n) && Grows(kinds, kinds')
    ensures |g.blocks| <= |Close(LowerList(g, ss).value, target).blocks|
    decreases ss, 1
  {
    hide LowerList, Kinded;
    KindedParts(g, kinds, n);
    kinds' := ListKinded(g, ss, kinds, n);
    CloseKinded(LowerList(g, ss).value, target, kinds', n);
  }

  lemma {:induction false} IfKinded(g: Gen, s: Stmt, kinds: Kinds, n: nat) returns (kinds': Kinds)
    requires s.If? && Kinded(g, kinds, n) && LowerIf(g, s).Ok?
    ensures Kinded(LowerIf(g, s).value, kinds', n) && Grows(kinds, kinds')
    decreases s, 0
  {
    hide OpenTest, Close, LowerList, Kinded;
    KindedParts(g, kinds, n);
    var m := |g.blocks|;
    var merge := if s.orelse == [] then m + 2 else m + 3;
    var g1 := OpenTest(g, s.test, merge - m).value;
    var g3 := Close(LowerList(g1, s.body).value, merge);
    kinds' := OpenTestKinded(g, s.test, merge - m, kinds, n);
    kinds' := RegionKinded(g1, s.body, merge, kinds', n);
    if s.orelse == [] {
      AtKinded(g3, merge, kinds', n);
    } else {
      AtKinded(g3, m + 2, kinds', n);
      kinds' := RegionKinded(At(g3, m + 2), s.orelse, merge, kinds', n);
      AtKinded(Close(LowerList(At(g3, m + 2), s.orelse).value, merge), merge, kinds', n);
    }
  }

  lemma {:induction false} WhileKinded(g: Gen, s: Stmt, kinds: Kinds, n: nat) returns (kinds': Kinds)
    requires s.While? && Kinded(g, kinds, n) && LowerWhile(g, s).Ok?
    ensures Kinded(LowerWhile(g, s).value, kinds', n) && Grows(kinds, kinds')
    decreases s, 0
  {
    hide OpenTest, Close, LowerList, Kinded;
    KindedParts(g, kinds, n);
    var g1 := OpenTest(g, s.test, 2).value;
    kinds' := OpenTestKinded(g, s.test, 2, kinds, n);
    kinds' := RegionKinded(g1, s.body, |g.blocks|, kinds', n);
    AtKinded(Close(LowerList(g1, s.body).value, |g.blocks|), |g.blocks| + 2, kinds', n);
  }

  lemma {:induction false} ListKinded(g: Gen, ss: seq<Stmt>, kinds: Kinds, n: nat) returns (kinds': Kinds)
    requires Kinded(g, kinds, n) && LowerList(g, ss).Ok?
    ensures Kinded(LowerList(g, ss).value, kinds', n) && Grows(kinds, kinds')
    decreases ss, 0
  {
    hide LowerStmt, Kinded;
    kinds' := kinds;
    KindedParts(g, kinds, n);
    if ss != [] {
      kinds' := StmtKinded(g, ss[0], kinds, n);
      kinds' := ListKinded(LowerStmt(g, ss[0]).value, ss[1..], kinds', n);
    }
  }

  lemma {:induction false} SpillKinded(g: Gen, params: seq<string>, i: nat, kinds: Kinds) returns (kinds': Kinds)
    requires Kinded(g, kinds, |params|) && i <= |params|
    ensures Kinded(SpillParams(g, params, i), kinds', |params|)
    decreases |params| - i
  {
    hide Kinded;
    kinds' := kinds;
    KindedParts(g, kinds, |params|);
    if i < |params| {
      var d := DeclareSlot(g, params[i], IntTy);
      kinds' := DeclareKinded(g, params[i], IntTy, kinds, |params|);
      EmitOneKinded(d, kinds', StoreI(Arg(i), Tmp(g.next)), |params|);
      kinds' := SpillKinded(Emit(d, [StoreI(Arg(i), Tmp(g.next))]), params, i + 1, kinds');
    }
  }

  lemma FunctionKinded(f: Function) returns (kinds: Kinds)
    requires LowerFunction(f).Ok?
    ensures forall b :: 0 <= b < |LowerFunction(f).value| ==> CodeKinded(LowerFunction(f).value[b], kinds, |f.params|)
  {
    hide LowerList, CodeKinded, SpillParams;
    assert Kinded(EMPTY_GEN, map[], |f.params|) by {
      StartKinded(map[], 0, map[], |f.params|);
    }
    kinds := SpillKinded(EMPTY_GEN, f.params, 0, map[]);
    var g := SpillParams(EMPTY_GEN, f.params, 0);
    kinds := ListKinded(g, f.body, kinds, |f.params|);
    var g1 := LowerList(g, f.body).value;
    if !g1.Closed() {
      EmitOneKinded(g1, kinds, if f.returnsInt then Unreachable else RetVoid, |f.params|);
    }
  }

  // ----- runs -----

  // The code is complete, its uses are defined on all paths, and it is kinded.
  ghost predicate Sane(p: seq<Block>, kinds: Kinds, n: nat) {
    && Complete(p) && UsesDefined(p)
    && forall b :: 0 <= b < |p| ==> TargetsBelow(p[b], |p|) && CodeKinded(p[b], kinds, n)
  }

  // The state is reached along the path, and has values for what is defined on
  // it, each of its kind.
  ghost predicate Consistent(p: seq<Block>, kinds: Kinds, path: seq<nat>, st: State) {
    && st.Running? && Path(p, path) && EndOf(path) == st.blk && st.pc < |p[st.blk]|
    && Defined(DefinedOn(p, path), p[st.blk][..st.pc]) <= st.tmps.Keys
    && forall t :: t in st.tmps ==> t in kinds && KindOf(st.tmps[t]) == kinds[t]
  }

  lemma OperandPresent(args: seq<Word>, st: State, o: Operand, kinds: Kinds, kind: Kind)
    requires st.Running? && HasKind(o, kinds, |args|, kind) && OperandTemps(o) <= st.tmps.Keys
    requires forall t :: t in st.tmps ==> t in kinds && KindOf(st.tmps[t]) == kinds[t]
    ensures OperandValue(args, st.tmps, o).Some? && KindOf(OperandValue(args, st.tmps, o).value) == kind
  {
  }

  // An instruction whose operands are there and of their kind does not get
  // stuck; what it defines is there afterwards.
  lemma InstrRuns(i: Instr, args: seq<Word>, st: State, kinds: Kinds)
    requires st.Running? && InstrKinded(i, kinds, |args|) && Uses(i) <= st.tmps.Keys
    requires forall t :: t in st.tmps ==> t in kinds && KindOf(st.tmps[t]) == kinds[t]
    ensures var st' := StepInstr(i, args, st);
      && st' != Invalid && (i.Terminator() && st'.Running? ==> st'.blk in Successors(i) && st'.pc == 0)
      && (!i.Terminator() && st'.Running? ==> st'.blk == st.blk && st'.pc == st.pc + 1)
      && (st'.Running? ==>
            && st'.tmps.Keys == st.tmps.Keys + Defines(i)
            && forall t :: t in st'.tmps ==> t in kinds && KindOf(st'.tmps[t]) == kinds[t])
  {
    match i {
      case StoreI(val, addr) =>
        OperandPresent(args, st, val, kinds, WordKind);
        OperandPresent(args, st, addr, kinds, PtrKind);
      case Load(_, addr) => OperandPresent(args, st, addr, kinds, PtrKind);
      case Gep(_, base, index) =>
        OperandPresent(args, st, base, kinds, PtrKind);
        OperandPresent(args, st, index, kinds, WordKind);
      case BinI(_, _, l, r) =>
        OperandPresent(args, st, l, kinds, WordKind);
        OperandPresent(args, st, r, kinds, WordKind);
      case Icmp(_, _, l, r) =>
        OperandPresent(args, st, l, kinds, WordKind);
        OperandPresent(args, st, r, kinds, WordKind);
      case CondBr(cond, _, _) => OperandPresent(args, st, cond, kinds, BoolKind);
      case Ret(result) => OperandPresent(args, st, result, kinds, WordKind);
      case _ =>
    }
  }

  lemma StepConsistent(p: seq<Block>, args: seq<Word>, kinds: Kinds, path: seq<nat>, st: State)
    returns (path': seq<nat>)
    requires Sane(p, kinds, |args|) && Consistent(p, kinds, path, st)
    ensures var st' := Step(p, args, st); st' != Invalid && (st'.Running? ==> Consistent(p, kinds, path', st'))
  {
    hide Defined, DefinedOn, Uses, Defines, InstrKinded, StepInstr, Edge;
    var b, code, i := st.blk, p[st.blk], p[st.blk][st.pc];
    assert WellTerminated(code);
    assert UseDefined(p, path, st.pc);
    assert CodeKinded(code, kinds, |args|);
    InstrRuns(i, args, st, kinds);
    var st' := StepInstr(i, args, st);
    path' := path;
    if st'.Running? {
      DefinedSnoc(DefinedOn(p, path), code, st.pc);
      if i.Terminator() {
        assert st.pc == |code| - 1 && code[..|code|] == code;
        JumpInside(p, b, st.pc, st'.blk);
        StepPath(p, path, st'.blk);
        path' := path + [st'.blk];
        DefinedNothing(DefinedOn(p, path'));
        assert p[st'.blk][..0] == [];
        assert WellTerminated(p[st'.blk]);
      }
    }
  }

  lemma DefinedSnoc(d: set<nat>, code: Block, k: nat)
    requires k < |code|
    ensures Defined(d, code[..k + 1]) == Defined(d, code[..k]) + Defines(code[k])
  {
    assert code[..k + 1][..k] == code[..k];
  }

  lemma JumpInside(p: seq<Block>, b: nat, k: nat, target: nat)
    requires b < |p| && k < |p[b]| && target in Successors(p[b][k]) && TargetsBelow(p[b], |p|)
    ensures target < |p| && Edge(p, b, target)
  {
  }

  lemma {:induction false} RunConsistent(p: seq<Block>, args: seq<Word>, kinds: Kinds, path: seq<nat>, st: State,
                                         k: nat)
    requires Sane(p, kinds, |args|) && Consistent(p, kinds, path, st)
    ensures Run(p, args, st, k) != Invalid
    decreases k
  {
    hide Sane, Consistent, Step;
    if k > 0 {
      var path' := StepConsistent(p, args, kinds, path, st);
      var st' := Step(p, args, st);
      if st'.Running? {
        RunConsistent(p, args, kinds, path', st', k - 1);
      } else {
        RunStopped(p, args, st', k - 1);
      }
    } else {
      assert st.Running? by {
        ConsistentRuns(p, kinds, path, st);
      }
    }
  }

  lemma ConsistentRuns(p: seq<Block>, kinds: Kinds, path: seq<nat>, st: State)
    requires Consistent(p, kinds, path, st)
    ensures st.Running?
  {
  }

  lemma EntryConsistent(p: seq<Block>, kinds: Kinds)
    requires |p| > 0 && Complete(p)
    ensures Consistent(p, kinds, [0], ENTRY)
  {
    assert WellTerminated(p[0]);
    assert p[0][..0] == [];
    DefinedNothing({});
  }

  // On no run does the compiled code use a temporary before its definition,
  // reach a load or store whose alloca was not executed, mix up pointers and
  // words, or leave its blocks: for every function that is compiled to complete
  // blocks and whose names are safe, leaked and redeclared names included.
  lemma NeverInvalid(f: Function, args: seq<Int64>, k: nat)
    requires LowerFunction(f).Ok? && TidyList(ParamContext(f.params), f.body) && SafeFunction(f)
    requires |args| == |f.params|
    ensures After(f, args, k) != Invalid
  {
    hide LowerFunction, TidyList, SafeFunction, UsesDefined, CodeKinded, Consistent, Run;
    var p := LowerFunction(f).value;
    FunctionForm(f);
    SafeDefined(f);
    var kinds := FunctionKinded(f);
    NotEmpty(f);
    EntryConsistent(p, kinds);
    RunConsistent(p, Words(args), kinds, [0], ENTRY, k);
  }

  lemma NotEmpty(f: Function)
    requires LowerFunction(f).Ok?
    ensures |LowerFunction(f).value| > 0
  {
  }

  // In particular for well-scoped functions.
  lemma WellScopedNeverInvalid(f: Function, args: seq<Int64>, k: nat)
    requires CheckFunction(f) && |args| == |f.params|
    ensures LowerFunction(f).Ok? && After(f, args, k) != Invalid
  {
    hide TidyList, SafeList, CheckList;
    var ctx := ParamContext(f.params);
    FunctionShape(f);
    CheckedTidyList(ctx, ctx, f.body, f.returnsInt);
    CheckedSafeList(ctx, ctx, Live(ctx.Keys), f.body, f.returnsInt);
    NeverInvalid(f, args, k);
  }
}
