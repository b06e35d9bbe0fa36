// When the emitted code satisfies dominance.  Here: names that are safe in the
// source give code whose every use is defined on every path, across branches,
// joins and loop back edges.  LoweringWitness has the other direction.

module LoweringDominance {
  import opened Wrappers
  import opened MachineInt
  import opened PieSource
  import opened BlockIr
  import opened Lowering
  import opened LoweringForm
  import opened LoweringShape
  import opened NameSafety
  import opened Dominance

  // ----- what is available -----

  ghost predicate Sound(g: Gen, ins: seq<set<nat>>) {
    g.Valid() && |ins| == |g.blocks| && Certified(g.blocks, ins)
  }

  function Avail(g: Gen, ins: seq<set<nat>>): set<nat>
    requires g.Valid() && |ins| == |g.blocks|
  {
    Defined(ins[g.cur], g.blocks[g.cur])
  }

  function Below(n: nat): (r: set<nat>)
    ensures forall t: nat :: t in r <==> t < n
  {
    if n == 0 then {} else Below(n - 1) + {n - 1}
  }

  // The slots of the safe names; where no path leads, all temporaries below n.
  function Entry(r: Reach, scope: Scope, n: nat): set<nat> {
    match r
    case Dead => Below(n)
    case Live(safe) => set x | x in safe && x in scope :: scope[x].ptr
  }

  predicate ScopeBelow(scope: Scope, n: nat) {
    forall x :: x in scope ==> scope[x].ptr < n
  }

  predicate Usable(scope: Scope, names: set<string>, d: set<nat>) {
    forall x :: x in names && x in scope ==> scope[x].ptr in d
  }

  lemma EntryUsable(r: Reach, scope: Scope, n: nat, names: set<string>, d: set<nat>)
    requires ScopeBelow(scope, n) && Entry(r, scope, n) <= d && (r.Live? ==> names <= r.safe)
    ensures Usable(scope, names, d)
  {
    forall x | x in names && x in scope
      ensures scope[x].ptr in d
    {
      assert scope[x].ptr in Entry(r, scope, n);
    }
  }

  lemma EntryBelow(r: Reach, scope: Scope, n: nat)
    requires ScopeBelow(scope, n)
    ensures Entry(r, scope, n) <= Below(n)
  {
  }

  // Declarations elsewhere: the other names keep their slots.
  lemma EntryMoves(r: Reach, declared: set<string>, g: Gen, g': Gen, n: nat)
    requires Moves(g, g', declared)
    ensures Entry(Forget(r, declared), g'.scope, n) <= Entry(r, g.scope, n)
  {
    if r.Live? {
      forall t | t in Entry(Forget(r, declared), g'.scope, n)
        ensures t in Entry(r, g.scope, n)
      {
        var x :| x in r.safe - declared && x in g'.scope && g'.scope[x].ptr == t;
        assert g.scope[x] == g'.scope[x];
      }
    }
  }

  lemma MovesBelow(g: Gen, g': Gen, declared: set<string>)
    requires ScopeBelow(g.scope, g.next) && Moves(g, g', declared)
    ensures ScopeBelow(g'.scope, g'.next)
  {
    forall x | x in g'.scope
      ensures g'.scope[x].ptr < g'.next
    {
      if x !in declared {
        assert g'.scope[x] == g.scope[x];
      }
    }
  }

  // ----- the generator keeps a certificate -----

  lemma EmitSound(g: Gen, ins: seq<set<nat>>, instrs: seq<Instr>)
    requires Sound(g, ins) && CodeOk(ins, Avail(g, ins), instrs)
    ensures Sound(Emit(g, instrs), ins)
    ensures Avail(Emit(g, instrs), ins) == Defined(Avail(g, ins), instrs)
    ensures Avail(g, ins) <= Avail(Emit(g, instrs), ins)
  {
    assert CodeOk(ins, ins[g.cur], g.blocks[g.cur]);
    CodeOkAppend(ins, ins[g.cur], g.blocks[g.cur], instrs);
    DefinedAppend(ins[g.cur], g.blocks[g.cur], instrs);
    DefinedMono(Avail(g, ins), Avail(g, ins), instrs, 0);
    var g' := Emit(g, instrs);
    forall b | 0 <= b < |g'.blocks|
      ensures CodeOk(ins, ins[b], g'.blocks[b])
    {
      assert CodeOk(ins, ins[b], g.blocks[b]);
    }
  }

  lemma EmitOneSound(g: Gen, ins: seq<set<nat>>, i: Instr)
    requires Sound(g, ins) && InstrOk(ins, Avail(g, ins), i)
    ensures Sound(Emit(g, [i]), ins)
    ensures Avail(Emit(g, [i]), ins) == Avail(g, ins) + Defines(i)
  {
    CodeOkOne(ins, Avail(g, ins), [], i);
    assert [] + [i] == [i];
    EmitSound(g, ins, [i]);
  }

  // New empty blocks, with what will be defined on entry to them.
  lemma AppendSound(g: Gen, ins: seq<set<nat>>, entries: seq<set<nat>>)
    requires Sound(g, ins)
    ensures Sound(AppendBlocks(g, |entries|), ins + entries)
    ensures Avail(AppendBlocks(g, |entries|), ins + entries) == Avail(g, ins)
  {
    var g', ins' := AppendBlocks(g, |entries|), ins + entries;
    forall b | 0 <= b < |g'.blocks|
      ensures CodeOk(ins', ins'[b], g'.blocks[b])
    {
      if b < |g.blocks| {
        assert CodeOk(ins, ins[b], g.blocks[b]);
        forall k | 0 <= k < |g.blocks[b]|
          ensures InstrOk(ins', Defined(ins[b], g.blocks[b][..k]), g.blocks[b][k])
        {
          assert InstrOk(ins, Defined(ins[b], g.blocks[b][..k]), g.blocks[b][k]);
        }
      }
    }
  }

  // ----- expressions -----

  // The code of an expression uses the slots of the names it loads and what it
  // defines itself.
  lemma {:induction false} ExprDefined(scope: Scope, n: nat, e: Expr, ins: seq<set<nat>>, d: set<nat>)
    requires ExprCode(scope, n, e).Ok? && Usable(scope, Loads(Types(scope), e), d)
    ensures var code := ExprCode(scope, n, e).value;
      && CodeOk(ins, d, code.instrs) && d <= Defined(d, code.instrs)
      && (!AddressExpr(Types(scope), e) ==> OperandTemps(code.opd) <= Defined(d, code.instrs))
    decreases e, 1
  {
    hide CodeOk, Defined, ToWord, LowerBinary;
    CodeOkNothing(ins, d);
    match e
    case Const(_) =>
    case Name(id) =>
      if scope[id].ty.IntTy? {
        CodeOkOne(ins, d, [], Load(n, Tmp(scope[id].ptr)));
        assert [] + [Load(n, Tmp(scope[id].ptr))] == [Load(n, Tmp(scope[id].ptr))];
      }
    case Binary(op, l, r) =>
      var a := ExprCode(scope, n, l).value;
      var b := ExprCode(scope, a.next, r).value;
      PairDefined(scope, n, e, l, r, ins, d);
      CodeOkOne(ins, d, a.instrs + b.instrs, BinI(b.next, LowerBinary(op).value, a.opd, b.opd));
    case Unary(op, x) =>
      ExprDefined(scope, n, x, ins, d);
      var a := ExprCode(scope, n, x).value;
      if op.Invert? {
        CodeOkOne(ins, d, a.instrs, BinI(a.next, XorI, a.opd, Imm(ToWord(-1))));
      } else if op.USub? {
        CodeOkOne(ins, d, a.instrs, BinI(a.next, SubI, Imm(0), a.opd));
      }
    case Subscript(arr, index) =>
      ElementDefined(scope, n, arr, index, ins, d);
      var a := ElementCode(scope, n, arr, index).value;
      CodeOkOne(ins, d, a.instrs, Load(a.next, a.opd));
  }

  lemma CodeOkNothing(ins: seq<set<nat>>, d: set<nat>)
    ensures CodeOk(ins, d, []) && Defined(d, []) == d
  {
  }

  lemma {:induction false} PairDefined(scope: Scope, n: nat, e: Expr, l: Expr, r: Expr,
                                       ins: seq<set<nat>>, d: set<nat>)
    requires l < e && r < e && !AddressExpr(Types(scope), l) && !AddressExpr(Types(scope), r)
    requires Usable(scope, Loads(Types(scope), l) + Loads(Types(scope), r), d)
    requires ExprCode(scope, n, l).Ok? && ExprCode(scope, ExprCode(scope, n, l).value.next, r).Ok?
    ensures var a := ExprCode(scope, n, l).value;
      var b := ExprCode(scope, a.next, r).value;
      var d' := Defined(d, a.instrs + b.instrs);
      && CodeOk(ins, d, a.instrs + b.instrs) && d <= d'
      && OperandTemps(a.opd) <= d' && OperandTemps(b.opd) <= d'
    decreases e, 0
  {
    hide CodeOk, Defined, ExprCode, AddressExpr, Types, Loads;
    var a := ExprCode(scope, n, l).value;
    var b := ExprCode(scope, a.next, r).value;
    ExprDefined(scope, n, l, ins, d);
    ExprDefined(scope, a.next, r, ins, Defined(d, a.instrs));
    CodeOkAppend(ins, d, a.instrs, b.instrs);
    DefinedAppend(d, a.instrs, b.instrs);
  }

  lemma {:induction false} ElementDefined(scope: Scope, n: nat, arr: string, index: Expr,
                                          ins: seq<set<nat>>, d: set<nat>)
    requires ElementCode(scope, n, arr, index).Ok? && Usable(scope, {arr} + Loads(Types(scope), index), d)
    ensures var code := ElementCode(scope, n, arr, index).value;
      && CodeOk(ins, d, code.instrs) && d <= Defined(d, code.instrs)
      && OperandTemps(code.opd) <= Defined(d, code.instrs)
    decreases index, 2
  {
    hide CodeOk, Defined, ExprCode, AddressExpr, Types, Loads;
    ExprDefined(scope, n, index, ins, d);
    var a := ExprCode(scope, n, index).value;
    CodeOkOne(ins, d, a.instrs, Gep(a.next, Tmp(scope[arr].ptr), a.opd));
  }

  lemma CondDefined(scope: Scope, n: nat, c: Cond, ins: seq<set<nat>>, d: set<nat>)
    requires CondCode(scope, n, c).Ok? && Usable(scope, CondLoads(Types(scope), c), d)
    ensures var code := CondCode(scope, n, c).value;
      && CodeOk(ins, d, code.instrs) && d <= Defined(d, code.instrs)
      && OperandTemps(code.opd) <= Defined(d, code.instrs)
  {
    hide CodeOk, Defined, ExprCode, AddressExpr;
    var a := ExprCode(scope, n, c.left).value;
    var b := ExprCode(scope, a.next, c.right).value;
    PairDefined(scope, n, Binary(Add, c.left, c.right), c.left, c.right, ins, d);
    CodeOkOne(ins, d, a.instrs + b.instrs, Icmp(b.next, LowerCompare(c.op).value, a.opd, b.opd));
  }

  lemma ExprSound(g: Gen, e: Expr, ins: seq<set<nat>>)
    requires Sound(g, ins) && LowerExpr(g, e).Ok? && Usable(g.scope, Loads(Types(g.scope), e), Avail(g, ins))
    ensures var v := LowerExpr(g, e).value;
      && Sound(v.0, ins) && v.0.scope == g.scope && Avail(g, ins) <= Avail(v.0, ins)
      && (!AddressExpr(Types(g.scope), e) ==> OperandTemps(v.1) <= Avail(v.0, ins))
  {
    hide ExprCode, CodeOk, Defined, AddressExpr, Loads;
    var code := ExprCode(g.scope, g.next, e).value;
    ExprDefined(g.scope, g.next, e, ins, Avail(g, ins));
    EmitSound(g, ins, code.instrs);
  }

  lemma StoreSound(g: Gen, value: Expr, addr: Operand, ins: seq<set<nat>>)
    requires Sound(g, ins) && StoreTo(g, value, addr).Ok?
    requires Usable(g.scope, Loads(Types(g.scope), value), Avail(g, ins)) && OperandTemps(addr) <= Avail(g, ins)
    ensures var g' := StoreTo(g, value, addr).value;
      Sound(g', ins) && g'.scope == g.scope && Avail(g, ins) <= Avail(g', ins)
  {
    hide ExprCode, Certified, Defined, Loads, AddressExpr, Usable, Emit;
    ExprSound(g, value, ins);
    var v := LowerExpr(g, value).value;
    EmitOneSound(v.0, ins, StoreI(v.1, addr));
    assert Emit(v.0, [StoreI(v.1, addr)]).scope == v.0.scope by {
      EmitKeeps(v.0, [StoreI(v.1, addr)]);
    }
  }

  lemma EmitKeeps(g: Gen, instrs: seq<Instr>)
    requires g.Valid()
    ensures Emit(g, instrs).scope == g.scope && Emit(g, instrs).cur == g.cur && Emit(g, instrs).next == g.next
  {
  }

  // ----- statements -----

  // The generator stands at an open block, where what is safe is available.
  ghost predicate Ready(g: Gen, r: Reach, n: nat, ins: seq<set<nat>>) {
    && Sound(g, ins) && !g.Closed() && AllTargets(g.blocks, |g.blocks|)
    && ScopeBelow(g.scope, g.next) && g.next <= n && Entry(r, g.scope, n) <= Avail(g, ins)
  }

  // A statement that stays in its block.
  lemma FlatSound(g: Gen, s: Stmt, r: Reach, n: nat, ins: seq<set<nat>>)
    requires Ready(g, r, n, ins) && LowerStmt(g, s).Ok? && !s.If? && !s.While?
    requires LowerStmt(g, s).value.next <= n && SafeStmt(Types(g.scope), r, s)
    ensures var g' := LowerStmt(g, s).value;
      && Sound(g', ins) && Avail(g, ins) <= Avail(g', ins)
      && (!s.Return? ==> Entry(AfterStmt(r, s), g'.scope, n) <= Avail(g', ins))
  {
    hide ExprCode, ElementCode, Certified, IsTerminated, AllTargets, Defined, StoreTo, Loads, AddressExpr,
      Entry, Types, ScopeBelow;
    BelowMono(g.scope, g.next, n);
    match s
    case AnnAssign(id, ty, init) =>
      EmitOneSound(g, ins, Alloca(g.next, ty));
      DeclareEntry(g, id, ty, r, n, Avail(g, ins));
      if init.Some? {
        var g1 := DeclareSlot(g, id, ty);
        DeclareBelow(g, id, ty);
        StoreScope(g1, init.value, Tmp(g.next));
        BelowMono(g1.scope, g1.next, n);
        DeclaredTypes(g, id, ty);
        EntryUsable(AfterStmt(r, s), g1.scope, n, Loads(Types(g1.scope), init.value), Avail(g1, ins));
        StoreSound(g1, init.value, Tmp(g.next), ins);
      }
    case Assign(id, value) =>
      EntryUsable(r, g.scope, n, {id} + Loads(Types(g.scope), value), Avail(g, ins));
      StoreSound(g, value, Tmp(g.scope[id].ptr), ins);
    case AssignElem(arr, index, value) =>
      EntryUsable(r, g.scope, n, {arr} + Loads(Types(g.scope), index) + Loads(Types(g.scope), value), Avail(g, ins));
      ElementDefined(g.scope, g.next, arr, index, ins, Avail(g, ins));
      var a := ElementCode(g.scope, g.next, arr, index).value;
      EmitSound(g, ins, a.instrs);
      StoreSound(EmitCode(g, a), value, a.opd, ins);
    case Return(result) =>
      if result.Some? {
        EntryUsable(r, g.scope, n, Loads(Types(g.scope), result.value), Avail(g, ins));
        ExprSound(g, result.value, ins);
        var v := LowerExpr(g, result.value).value;
        EmitOneSound(v.0, ins, Ret(v.1));
      } else {
        EmitOneSound(g, ins, RetVoid);
      }
    case Pass =>
    case ExprStmt(value) =>
      EntryUsable(r, g.scope, n, Loads(Types(g.scope), value), Avail(g, ins));
      ExprSound(g, value, ins);
  }

  lemma BelowMono(scope: Scope, m: nat, n: nat)
    requires ScopeBelow(scope, m) && m <= n
    ensures ScopeBelow(scope, n)
  {
  }

  lemma DeclareBelow(g: Gen, id: string, ty: Ty)
    requires g.Valid() && ScopeBelow(g.scope, g.next)
    ensures ScopeBelow(DeclareSlot(g, id, ty).scope, DeclareSlot(g, id, ty).next)
  {
  }

  lemma DeclaredTypes(g: Gen, id: string, ty: Ty)
    requires g.Valid()
    ensures Types(DeclareSlot(g, id, ty).scope) == Types(g.scope)[id := ty]
  {
  }

  lemma DeclareEntry(g: Gen, id: string, ty: Ty, r: Reach, n: nat, d: set<nat>)
    requires g.Valid() && Entry(r, g.scope, n) <= d
    ensures Entry(AfterStmt(r, AnnAssign(id, ty, None)), DeclareSlot(g, id, ty).scope, n) <= d + {g.next}
  {
    var r', scope' := AfterStmt(r, AnnAssign(id, ty, None)), DeclareSlot(g, id, ty).scope;
    if r.Live? {
      forall t | t in Entry(r', scope', n)
        ensures t in d + {g.next}
      {
        var x :| x in r'.safe && x in scope' && scope'[x].ptr == t;
        if x != id {
          assert t in Entry(r, g.scope, n);
        }
      }
    }
  }

  // Opening a test, with what is defined on entry to each new block.
  lemma OpenTestSound(g: Gen, test: Cond, r: Reach, n: nat, ins: seq<set<nat>>, entries: seq<set<nat>>)
    requires Ready(g, r, n, ins) && |entries| >= 3 && OpenTest(g, test, |entries| - 1).Ok?
    requires OpenTest(g, test, |entries| - 1).value.next <= n
    requires r.Live? ==> CondLoads(Types(g.scope), test) <= r.safe
    requires forall i :: 0 <= i < 3 ==> entries[i] == Avail(g, ins)
    ensures var g' := OpenTest(g, test, |entries| - 1).value;
      && Ready(g', r, n, ins + entries) && g'.scope == g.scope && Avail(g', ins + entries) == Avail(g, ins)
  {
    hide Certified, Defined, CondCode, IsTerminated, CondLoads, Types, Entry, ScopeBelow, AllTargets;
    var m, d, ins' := |g.blocks|, Avail(g, ins), ins + entries;
    OpenTestForm(g, test, |entries| - 1);
    AppendSound(g, ins, entries);
    var ga := AppendBlocks(g, |entries|);
    EmitOneSound(ga, ins', Br(m));
    var ge := At(Emit(ga, [Br(m)]), m);
    DefinedNothing(d);
    BelowMono(g.scope, g.next, n);
    EntryUsable(r, g.scope, n, CondLoads(Types(g.scope), test), d);
    var code := CondCode(g.scope, g.next, test).value;
    CondDefined(g.scope, g.next, test, ins', d);
    EmitSound(ge, ins', code.instrs);
    var gc := EmitCode(ge, code);
    EmitOneSound(gc, ins', CondBr(code.opd, m + 1, m + 2));
    BelowMono(g.scope, g.next, code.next);
  }

  // A branch, closed with a jump to a block whose entry is met.
  lemma {:induction false} RegionSound(g1: Gen, ss: seq<Stmt>, r: Reach, n: nat, target: nat, ins: seq<set<nat>>)
    returns (ins': seq<set<nat>>)
    requires Ready(g1, r, n, ins) && LowerList(g1, ss).Ok? && target < |ins|
    requires LowerList(g1, ss).value.next <= n
    requires TidyList(Types(g1.scope), ss) && SafeList(Types(g1.scope), r, ss)
    requires ins[target] <= Avail(g1, ins) + Entry(AfterList(r, ss), LowerList(g1, ss).value.scope, n)
    ensures Sound(Close(LowerList(g1, ss).value, target), ins') && ins <= ins'
    decreases ss, 1
  {
    hide Certified, IsTerminated, Defined, LowerList, TidyList, SafeList, AfterList, Entry, Types, Ready;
    ReadyParts(g1, r, n, ins);
    ins' := ListSound(g1, ss, r, n, ins);
    ListForm(g1, ss);
    var g2 := LowerList(g1, ss).value;
    if !g2.Closed() {
      FormClosed(g1, g2, ListReturns(ss));
      EmitOneSound(g2, ins', Br(target));
    }
  }

  lemma ReadyParts(g: Gen, r: Reach, n: nat, ins: seq<set<nat>>)
    requires Ready(g, r, n, ins)
    ensures Sound(g, ins) && !g.Closed() && AllTargets(g.blocks, |g.blocks|)
    ensures ScopeBelow(g.scope, g.next) && g.next <= n && Entry(r, g.scope, n) <= Avail(g, ins)
  {
  }

  lemma FormClosed(g: Gen, g': Gen, returned: bool)
    requires Form(g, g', returned)
    ensures g'.Valid() && (g'.Closed() <==> returned)
  {
  }

  // Moving to an empty block.
  lemma MoveReady(g: Gen, b: nat, r: Reach, n: nat, ins: seq<set<nat>>)
    requires Sound(g, ins) && AllTargets(g.blocks, |g.blocks|) && b < |g.blocks| && g.blocks[b] == []
    requires ScopeBelow(g.scope, g.next) && g.next <= n && Entry(r, g.scope, n) <= ins[b]
    ensures Ready(At(g, b), r, n, ins) && Avail(At(g, b), ins) == ins[b]
  {
  }

  lemma {:induction false} WhileSound(g: Gen, s: Stmt, r: Reach, n: nat, ins: seq<set<nat>>)
    returns (ins': seq<set<nat>>)
    requires s.While? && Ready(g, r, n, ins) && LowerWhile(g, s).Ok? && LowerWhile(g, s).value.next <= n
    requires Tidy(Types(g.scope), s) && SafeStmt(Types(g.scope), r, s)
    ensures ins <= ins' && Ready(LowerWhile(g, s).value, AfterStmt(r, s), n, ins')
    ensures Avail(g, ins) <= Avail(LowerWhile(g, s).value, ins')
    decreases s, 0
  {
    hide Certified, IsTerminated, Defined, OpenTest, LowerList, Close, Entry, Types, Form, Filled, AllTargets,
      TidyList, SafeList, CondLoads, Moves, ScopeBelow;
    var m, d := |g.blocks|, Avail(g, ins);
    WhileFormHolds(g, s);
    var g1 := OpenTest(g, s.test, 2).value;
    var last := Close(LowerList(g1, s.body).value, m);
    OpenTestScope(g, s.test, 2);
    RegionScope(g1, s.body, m);
    MovesNext(g1, last, DeclaredList(s.body));
    OpenTestSound(g, s.test, r, n, ins, [d, d, d]);
    SafeBody(Types(g.scope), r, s);
    ins' := RegionSound(g1, s.body, r, n, m, ins + [d, d, d]);
    EntryMoves(r, DeclaredList(s.body), g1, last, n);
    ReadyParts(g1, r, n, ins + [d, d, d]);
    MovesBelow(g1, last, DeclaredList(s.body));
    FilledKeeps(g1, last);
    assert ins'[m + 2] == d;
    AfterWhile(r, s);
    MoveReady(last, m + 2, AfterStmt(r, s), n, ins');
  }

  lemma MovesNext(g: Gen, g': Gen, declared: set<string>)
    requires Moves(g, g', declared)
    ensures g.next <= g'.next
  {
  }

  lemma SafeBody(types: Context, r: Reach, s: Stmt)
    requires SafeStmt(types, r, s)
    ensures s.While? ==> SafeList(types, r, s.body) && (r.Live? ==> CondLoads(types, s.test) <= r.safe)
    ensures s.If? ==> SafeList(types, r, s.body) && (r.Live? ==> CondLoads(types, s.test) <= r.safe)
    ensures s.If? ==> SafeList(LeakList(types, s.body), Forget(r, DeclaredList(s.body)), s.orelse)
  {
  }

  lemma AfterWhile(r: Reach, s: Stmt)
    requires s.While?
    ensures AfterStmt(r, s) == Forget(r, DeclaredList(s.body))
  {
  }

  lemma AfterIf(r: Reach, s: Stmt)
    requires s.If?
    ensures AfterStmt(r, s) == Join(Forget(AfterList(r, s.body), DeclaredList(s.orelse)),
                                    AfterList(Forget(r, DeclaredList(s.body)), s.orelse))
    ensures s.orelse == [] ==>
      AfterStmt(r, s) == Join(AfterList(r, s.body), Forget(r, DeclaredList(s.body)))
  {
    if s.orelse == [] {
      var b := AfterList(r, s.body);
      assert Forget(b, {}) == b;
    }
  }

  // What is safe behind an if is met at the end of either branch.
  lemma JoinEntry(a: Reach, b: Reach, scope: Scope, n: nat)
    requires ScopeBelow(scope, n)
    ensures a.Live? || b.Dead? ==> Entry(Join(a, b), scope, n) <= Entry(a, scope, n)
    ensures b.Live? || a.Dead? ==> Entry(Join(a, b), scope, n) <= Entry(b, scope, n)
    ensures Entry(Join(a, b), scope, n) <= Below(n)
  {
    EntryBelow(Join(a, b), scope, n);
  }

  lemma {:induction false} BareIfSound(g: Gen, s: Stmt, r: Reach, n: nat, ins: seq<set<nat>>)
    returns (ins': seq<set<nat>>)
    requires s.If? && s.orelse == [] && Ready(g, r, n, ins) && LowerIf(g, s).Ok? && LowerIf(g, s).value.next <= n
    requires Tidy(Types(g.scope), s) && SafeStmt(Types(g.scope), r, s)
    ensures ins <= ins' && Ready(LowerIf(g, s).value, AfterStmt(r, s), n, ins')
    ensures Avail(g, ins) <= Avail(LowerIf(g, s).value, ins')
    decreases s, 0
  {
    hide Certified, IsTerminated, Defined, OpenTest, LowerList, Close, Entry, Types, Form, Filled, AllTargets,
      TidyList, SafeList, CondLoads, Moves, ScopeBelow, AfterList;
    var m, d := |g.blocks|, Avail(g, ins);
    IfFormHolds(g, s);
    var g1 := OpenTest(g, s.test, 2).value;
    var last := Close(LowerList(g1, s.body).value, m + 2);
    OpenTestScope(g, s.test, 2);
    RegionScope(g1, s.body, m + 2);
    MovesNext(g1, last, DeclaredList(s.body));
    OpenTestSound(g, s.test, r, n, ins, [d, d, d]);
    SafeBody(Types(g.scope), r, s);
    ins' := RegionSound(g1, s.body, r, n, m + 2, ins + [d, d, d]);
    EntryMoves(r, DeclaredList(s.body), g1, last, n);
    ReadyParts(g1, r, n, ins + [d, d, d]);
    MovesBelow(g1, last, DeclaredList(s.body));
    BelowMono(last.scope, last.next, n);
    FilledKeeps(g1, last);
    assert ins'[m + 2] == d;
    AfterIf(r, s);
    DeadStays(r, s.body);
    JoinEntry(AfterList(r, s.body), Forget(r, DeclaredList(s.body)), last.scope, n);
    MoveReady(last, m + 2, AfterStmt(r, s), n, ins');
  }

  lemma DeadStays(r: Reach, ss: seq<Stmt>)
    ensures r.Dead? ==> AfterList(r, ss).Dead?
  {
  }

  lemma {:induction false} ElseSound(g: Gen, s: Stmt, r: Reach, n: nat, ins: seq<set<nat>>)
    returns (ins': seq<set<nat>>)
    requires s.If? && s.orelse != [] && Ready(g, r, n, ins) && LowerIf(g, s).Ok? && LowerIf(g, s).value.next <= n
    requires Tidy(Types(g.scope), s) && SafeStmt(Types(g.scope), r, s)
    ensures ins <= ins' && Ready(LowerIf(g, s).value, AfterStmt(r, s), n, ins')
    ensures Avail(g, ins) <= Avail(LowerIf(g, s).value, ins')
    decreases s, 0
  {
    hide Certified, IsTerminated, Defined, OpenTest, LowerList, Close, Entry, Types, Form, Filled, AllTargets,
      TidyList, SafeList, CondLoads, Moves, ScopeBelow, AfterList;
    var m, d := |g.blocks|, Avail(g, ins);
    var rb, ro := AfterList(r, s.body), AfterList(Forget(r, DeclaredList(s.body)), s.orelse);
    IfFormHolds(g, s);
    var g1 := OpenTest(g, s.test, 3).value;
    var g3 := Close(LowerList(g1, s.body).value, m + 3);
    var ge := At(g3, m + 2);
    var last := Close(LowerList(ge, s.orelse).value, m + 3);
    OpenTestScope(g, s.test, 3);
    RegionScope(g1, s.body, m + 3);
    RegionScope(ge, s.orelse, m + 3);
    MovesNext(g1, g3, DeclaredList(s.body));
    MovesNext(ge, last, DeclaredList(s.orelse));
    AfterIf(r, s);
    var merged := d + Entry(AfterStmt(r, s), last.scope, n);
    var ins1 := ins + [d, d, d, merged];
    OpenTestSound(g, s.test, r, n, ins, [d, d, d, merged]);
    SafeBody(Types(g.scope), r, s);
    ReadyParts(g1, r, n, ins1);
    MovesBelow(g1, g3, DeclaredList(s.body));
    MovesBelow(ge, last, DeclaredList(s.orelse));
    BelowMono(last.scope, last.next, n);
    JoinEntry(Forget(rb, DeclaredList(s.orelse)), ro, last.scope, n);
    EntryMoves(rb, DeclaredList(s.orelse), ge, last, n);
    DeadEntry(rb, g3.scope, n);
    DeadEntry(ro, last.scope, n);
    ins' := RegionSound(g1, s.body, r, n, m + 3, ins1);
    EntryMoves(r, DeclaredList(s.body), g1, g3, n);
    FilledKeeps(g1, g3);
    MoveReady(g3, m + 2, Forget(r, DeclaredList(s.body)), n, ins');
    var ins2 := ins';
    ins' := RegionSound(ge, s.orelse, Forget(r, DeclaredList(s.body)), n, m + 3, ins2);
    FilledKeeps(ge, last);
    assert ins'[m + 3] == merged;
    MoveReady(last, m + 3, AfterStmt(r, s), n, ins');
  }

  lemma DeadEntry(r: Reach, scope: Scope, n: nat)
    ensures r.Dead? ==> Entry(r, scope, n) == Below(n)
  {
  }

  lemma {:induction false} StmtSound(g: Gen, s: Stmt, r: Reach, n: nat, ins: seq<set<nat>>)
    returns (ins': seq<set<nat>>)
    requires Ready(g, r, n, ins) && LowerStmt(g, s).Ok? && LowerStmt(g, s).value.next <= n
    requires Tidy(Types(g.scope), s) && SafeStmt(Types(g.scope), r, s)
    ensures var g' := LowerStmt(g, s).value;
      && Sound(g', ins') && ins <= ins' && Avail(g, ins) <= Avail(g', ins')
      && (!s.Return? ==> Entry(AfterStmt(r, s), g'.scope, n) <= Avail(g', ins'))
    decreases s, 1
  {
    hide Certified, IsTerminated, AllTargets, Defined, LowerIf, LowerWhile, Tidy, SafeStmt, AfterStmt, Entry,
      ScopeBelow;
    match s
    case If(_, _, orelse) =>
      if orelse == [] {
        ins' := BareIfSound(g, s, r, n, ins);
      } else {
        ins' := ElseSound(g, s, r, n, ins);
      }
    case While(_, _) =>
      ins' := WhileSound(g, s, r, n, ins);
    case _ =>
      ins' := ins;
      FlatSound(g, s, r, n, ins);
  }

  lemma {:induction false} ListSound(g: Gen, ss: seq<Stmt>, r: Reach, n: nat, ins: seq<set<nat>>)
    returns (ins': seq<set<nat>>)
    requires Ready(g, r, n, ins) && LowerList(g, ss).Ok? && LowerList(g, ss).value.next <= n
    requires TidyList(Types(g.scope), ss) && SafeList(Types(g.scope), r, ss)
    ensures var g' := LowerList(g, ss).value;
      && Sound(g', ins') && ins <= ins' && Avail(g, ins) <= Avail(g', ins')
      && (!ListReturns(ss) ==> Entry(AfterList(r, ss), g'.scope, n) <= Avail(g', ins'))
    decreases ss, 0
  {
    hide Certified, Defined, LowerStmt, Tidy, Entry, ScopeBelow, IsTerminated, AllTargets, SafeStmt, Form, Moves;
    ins' := ins;
    if ss != [] {
      var g1 := LowerStmt(g, ss[0]).value;
      ReadyParts(g, r, n, ins);
      StmtForm(g, ss[0]);
      StmtScope(g, ss[0]);
      ListScope(g1, ss[1..]);
      MovesNext(g1, LowerList(g, ss).value, DeclaredList(ss[1..]));
      SafeHead(Types(g.scope), r, ss);
      ins' := StmtSound(g, ss[0], r, n, ins);
      if ss[0].Return? {
        SilentList(g1, ss[1..]);
      } else {
        FormOpen(g, g1);
        MovesBelow(g, g1, Declared(ss[0]));
        ins' := ListSound(g1, ss[1..], AfterStmt(r, ss[0]), n, ins');
      }
    }
  }

  lemma SafeHead(types: Context, r: Reach, ss: seq<Stmt>)
    requires ss != [] && SafeList(types, r, ss)
    ensures SafeStmt(types, r, ss[0]) && SafeList(Leak(types, ss[0]), AfterStmt(r, ss[0]), ss[1..])
    ensures AfterList(r, ss) == AfterList(AfterStmt(r, ss[0]), ss[1..])
  {
  }

  // ----- functions -----

  lemma {:induction false} SpillSound(g: Gen, params: seq<string>, i: nat, ins: seq<set<nat>>)
    requires Sound(g, ins) && i <= |params| && ScopeBelow(g.scope, g.next)
    requires forall x :: x in g.scope ==> g.scope[x].ptr in Avail(g, ins)
    ensures var g' := SpillParams(g, params, i);
      && Sound(g', ins) && ScopeBelow(g'.scope, g'.next)
      && forall x :: x in g'.scope ==> g'.scope[x].ptr in Avail(g', ins)
    decreases |params| - i
  {
    hide Certified, Defined;
    if i < |params| {
      var d := DeclareSlot(g, params[i], IntTy);
      EmitOneSound(g, ins, Alloca(g.next, IntTy));
      EmitOneSound(d, ins, StoreI(Arg(i), Tmp(g.next)));
      SpillSound(Emit(d, [StoreI(Arg(i), Tmp(g.next))]), params, i + 1, ins);
    }
  }

  lemma EntryReady(params: seq<string>, n: nat)
    requires SpillParams(EMPTY_GEN, params, 0).next <= n
    ensures Ready(SpillParams(EMPTY_GEN, params, 0), Live(ParamContext(params).Keys), n, [{}])
  {
    hide SpillParams;
    SpillForm(EMPTY_GEN, params, 0);
    SpillSound(EMPTY_GEN, params, 0, [{}]);
  }

  lemma SafeCertified(f: Function) returns (ins: seq<set<nat>>)
    requires LowerFunction(f).Ok? && TidyList(ParamContext(f.params), f.body) && SafeFunction(f)
    ensures Certified(LowerFunction(f).value, ins) && |ins| > 0 && ins[0] == {}
  {
    hide LowerList, SpillParams, TidyList, SafeList, Ready;
    var g := SpillParams(EMPTY_GEN, f.params, 0);
    var g1 := LowerList(g, f.body).value;
    SpillTypes(EMPTY_GEN, f.params, 0);
    ListScope(g, f.body);
    EntryReady(f.params, g1.next);
    ins := ListSound(g, f.body, Live(ParamContext(f.params).Keys), g1.next, [{}]);
    assert [{}][0] == ins[0];
    if !g1.Closed() {
      EmitOneSound(g1, ins, if f.returnsInt then Unreachable else RetVoid);
    }
  }

  // On every path from the entry to an instruction of p, the temporaries it
  // uses were defined.
  ghost predicate UsesDefined(p: seq<Block>) {
    forall path, k :: Path(p, path) && 0 <= k < |p[EndOf(path)]| ==> UseDefined(p, path, k)
  }

  predicate UseDefined(p: seq<Block>, path: seq<nat>, k: nat)
    requires Path(p, path) && k < |p[EndOf(path)]|
  {
    var b := p[EndOf(path)];
    Uses(b[k]) <= Defined(DefinedOn(p, path), b[..k])
  }

  lemma SafeDefined(f: Function)
    requires LowerFunction(f).Ok? && TidyList(ParamContext(f.params), f.body) && SafeFunction(f)
    ensures UsesDefined(LowerFunction(f).value)
  {
    hide Certified, Defined, DefinedOn, Uses, SafeFunction, TidyList, LowerFunction, Edge;
    var p := LowerFunction(f).value;
    var ins := SafeCertified(f);
    forall path: seq<nat>, k: nat | Path(p, path) && k < |p[EndOf(path)]|
      ensures UseDefined(p, path, k)
    {
      CertifiedUse(p, ins, path, k);
    }
  }

  // In the code of a well-scoped function, whatever path leads from the entry
  // to an instruction, the temporaries it uses were defined on that path.
  lemma DefinitionsDominateUses(f: Function)
    requires CheckFunction(f)
    ensures LowerFunction(f).Ok? && UsesDefined(LowerFunction(f).value)
  {
    hide TidyList, SafeList, CheckList, UsesDefined;
    var ctx := ParamContext(f.params);
    FunctionShape(f);
    CheckedTidyList(ctx, ctx, f.body, f.returnsInt);
    CheckedSafeList(ctx, ctx, Live(ctx.Keys), f.body, f.returnsInt);
    SafeDefined(f);
  }
}
