// The compiler theorem: a well-scoped function and the blocks emitted for it
// behave alike on every argument vector.

module FunctionMeaning {
  import opened Wrappers
  import opened MachineInt
  import opened PieSource
  import opened BlockIr
  import opened Lowering
  import opened LoweringForm
  import opened LoweringShape
  import opened LoweringMeaning
  import opened StatementMeaning
  import opened NameSafety

  function Words(args: seq<Int64>): seq<Word> {
    seq(|args|, i requires 0 <= i < |args| => ToWord(args[i]))
  }

  const ENTRY := Running(0, 0, map[], [])

  // ----- parameters -----

  // The first i parameters have been spilled.
  ghost predicate Spilled(g: Gen, params: seq<string>, args: seq<Int64>, i: nat, st: State)
    requires i <= |params| == |args|
  {
    && AtEnd(st, g) && !g.Closed() && AllTargets(g.blocks, |g.blocks|)
    && Linked(ParamContext(params[..i]), g.scope, g.next, ParamStore(params[..i], args[..i]), st.tmps, st.mem)
  }

  // One more parameter in the context and in the store.
  lemma ParamStep(params: seq<string>, args: seq<Int64>, i: nat)
    requires i < |params| == |args|
    requires forall j, k :: 0 <= j < k < |params| ==> params[j] != params[k]
    ensures var ctx, s := ParamContext(params[..i]), ParamStore(params[..i], args[..i]);
      && params[i] !in ctx
      && ParamContext(params[..i + 1]) == ctx[params[i] := IntTy]
      && ParamStore(params[..i + 1], args[..i + 1])
         == s[params[i] := NewVariable(IntTy)][params[i] := SetCell(NewVariable(IntTy), 0, Some(args[i]))]
  {
    assert params[..i + 1][..i] == params[..i] && args[..i + 1][..i] == args[..i];
    assert Fresh(1)[0 := Some(args[i])] == [Some(args[i])];
    var s, v := ParamStore(params[..i], args[..i]), Variable(IntTy, [Some(args[i])]);
    assert s[params[i] := NewVariable(IntTy)][params[i] := v] == s[params[i] := v];
  }

  lemma SpillOne(p: seq<Block>, g: Gen, params: seq<string>, args: seq<Int64>, i: nat, st: State)
    returns (st': State)
    requires i < |params| == |args| && Spilled(g, params, args, i, st)
    requires forall j, k :: 0 <= j < k < |params| ==> params[j] != params[k]
    requires Extends(p, Emit(DeclareSlot(g, params[i], IntTy), [StoreI(Arg(i), Tmp(g.next))]).blocks)
    ensures var g1 := Emit(DeclareSlot(g, params[i], IntTy), [StoreI(Arg(i), Tmp(g.next))]);
      Run(p, Words(args), st, 2) == st' && Spilled(g1, params, args, i + 1, st')
  {
    hide Linked, Run, CodeAt, IsTerminated, AllTargets, ParamContext, ParamStore, Extends;
    var ws, d, x := Words(args), DeclareSlot(g, params[i], IntTy), params[i];
    var store := StoreI(Arg(i), Tmp(g.next));
    ParamStep(params, args, i);
    EmittedCodeAt(p, d, [store]);
    var ctx, s := ParamContext(params[..i]), ParamStore(params[..i], args[..i]);
    var mid := DeclareSim(p, ws, ctx, g, x, IntTy, s, st);
    var ctx1, s1 := ctx[x := IntTy], s[x := NewVariable(IntTy)];
    VariableLinked(ctx1, d.scope, d.next, s1, mid.tmps, mid.mem, x);
    LinkedWrite(ctx1, d.scope, d.next, s1, mid.tmps, mid.mem, x, 0, args[i]);
    RunThen(p, ws, st, 1, mid, store);
    st' := StepInstr(store, ws, mid);
    PlainForm(g, [Alloca(g.next, IntTy)], d.scope, d.next);
    PlainForm(d, [store], d.scope, d.next);
  }

  lemma {:induction false} SpillExtends(p: seq<Block>, g: Gen, params: seq<string>, i: nat)
    requires g.Valid() && i <= |params| && Extends(p, SpillParams(g, params, i).blocks)
    ensures Extends(p, g.blocks)
    decreases |params| - i
  {
    if i < |params| {
      var d := DeclareSlot(g, params[i], IntTy);
      SpillExtends(p, Emit(d, [StoreI(Arg(i), Tmp(g.next))]), params, i + 1);
      EmittedCodeAt(p, d, [StoreI(Arg(i), Tmp(g.next))]);
      EmittedCodeAt(p, g, [Alloca(g.next, IntTy)]);
    }
  }

  lemma {:induction false} SpillSim(p: seq<Block>, g: Gen, params: seq<string>, args: seq<Int64>,
                                    i: nat, st: State)
    returns (k: nat, st': State)
    requires i <= |params| == |args| && Spilled(g, params, args, i, st)
    requires forall j, k :: 0 <= j < k < |params| ==> params[j] != params[k]
    requires Extends(p, SpillParams(g, params, i).blocks)
    ensures Run(p, Words(args), st, k) == st'
    ensures Spilled(SpillParams(g, params, i), params, args, |params|, st')
    decreases |params| - i
  {
    if i == |params| {
      k, st' := 0, st;
    } else {
      var g1 := Emit(DeclareSlot(g, params[i], IntTy), [StoreI(Arg(i), Tmp(g.next))]);
      SpillExtends(p, g1, params, i + 1);
      var mid := SpillOne(p, g, params, args, i, st);
      k, st' := SpillSim(p, g1, params, args, i + 1, mid);
      RunAdd(p, Words(args), st, 2, k);
      k := 2 + k;
    }
  }

  // ----- the whole function -----

  // How the machine must stop for an outcome of the source: falling off the
  // end reaches `unreachable` in an int function and `ret void` otherwise.
  function FinalState(f: Function, o: Outcome): State
    requires !o.Timeout?
  {
    match o
    case Next(_) => Halted(if f.returnsInt then HitUnreachable else RetNothing)
    case Returned(v) => Halted(if v.None? then RetNothing else RetValue(ToWord(v.value)))
    case Undef => Undefined
  }

  // The state after k steps of the code compiled for f.
  function After(f: Function, args: seq<Int64>, k: nat): State
    requires LowerFunction(f).Ok?
  {
    Run(LowerFunction(f).value, Words(args), ENTRY, k)
  }

  // For any fuel: the compiled code stops with what the source gives, or, if
  // the fuel runs out after n nested iterations, is still running after at
  // least n steps.
  lemma MeaningPreserved(f: Function, args: seq<Int64>, fuel: nat) returns (k: nat)
    requires CheckFunction(f) && |args| == |f.params|
    ensures LowerFunction(f).Ok?
    ensures var o := Call(f, args, fuel);
      if o.Timeout? then After(f, args, k).Running? && k >= fuel
      else After(f, args, k) == FinalState(f, o)
  {
    hide Linked, Run, CodeAt, IsTerminated, AllTargets, ParamContext, ParamStore, Extends, LowerList,
      ExecList, CheckList, SpillParams, Progress, Covers;
    FunctionShape(f);
    var ctx, p, ws := ParamContext(f.params), LowerFunction(f).value, Words(args);
    var g := SpillParams(EMPTY_GEN, f.params, 0);
    var g1 := BodyShape(f);
    EntrySpilled(f.params, args);
    var k1, st1 := SpillSim(p, EMPTY_GEN, f.params, args, 0, ENTRY);
    assert f.params[..|f.params|] == f.params && args[..|args|] == args;
    var s := ParamStore(f.params, args);
    var k2, st2 := ListSim(p, ws, ctx, g, f.body, f.returnsInt, s, fuel, st1);
    RunAdd(p, ws, ENTRY, k1, k2);
    k := k1 + k2;
    if Call(f, args, fuel).Next? {
      var final := if f.returnsInt then Unreachable else RetVoid;
      NextIsOpen(ctx, g, g1, f.body, s, fuel);
      EmittedCodeAt(p, g1, [final]);
      RunThen(p, ws, ENTRY, k, st2, final);
      k := k + 1;
    }
  }

  // The parts of a compiled function, and that the code contains them.
  lemma BodyShape(f: Function) returns (g1: Gen)
    requires CheckFunction(f) && LowerFunction(f).Ok?
    ensures LowerList(SpillParams(EMPTY_GEN, f.params, 0), f.body) == Ok(g1)
    ensures Progress(ParamContext(f.params), SpillParams(EMPTY_GEN, f.params, 0), g1, ListReturns(f.body))
    ensures Extends(LowerFunction(f).value, g1.blocks)
    ensures Extends(LowerFunction(f).value, SpillParams(EMPTY_GEN, f.params, 0).blocks)
    ensures !g1.Closed() ==>
      LowerFunction(f).value == Emit(g1, [if f.returnsInt then Unreachable else RetVoid]).blocks
  {
    hide Covers, LowerList, CheckList;
    SpillForm(EMPTY_GEN, f.params, 0);
    SpillCovers(EMPTY_GEN, f.params, 0);
    var ctx, g := ParamContext(f.params), SpillParams(EMPTY_GEN, f.params, 0);
    ListShape(ctx, g, f.body, f.returnsInt);
    g1 := LowerList(g, f.body).value;
    FinishExtends(LowerFunction(f).value, f, g1);
    ProgressExtends(ctx, g, g1, ListReturns(f.body));
    ExtendsTrans(LowerFunction(f).value, g1.blocks, g.blocks);
  }

  lemma EntrySpilled(params: seq<string>, args: seq<Int64>)
    requires |params| == |args|
    ensures Spilled(EMPTY_GEN, params, args, 0, ENTRY)
  {
    assert params[..0] == [] && args[..0] == [];
  }

  lemma NextIsOpen(ctx: Context, g: Gen, g1: Gen, ss: seq<Stmt>, s: Store, fuel: nat)
    requires Progress(ctx, g, g1, ListReturns(ss)) && ExecList(ss, s, fuel).Next?
    ensures !g1.Closed()
  {
    if ListReturns(ss) {
      ReturnsNotNext(ss, s, fuel);
    }
  }

  lemma FinishExtends(p: seq<Block>, f: Function, g: Gen)
    requires g.Valid() && LowerList(SpillParams(EMPTY_GEN, f.params, 0), f.body) == Ok(g)
    requires LowerFunction(f) == Ok(p)
    ensures Extends(p, g.blocks)
    ensures !g.Closed() ==> p == Emit(g, [if f.returnsInt then Unreachable else RetVoid]).blocks
  {
  }

  // ----- both directions -----

  ghost predicate CodeReaches(f: Function, args: seq<Int64>, st: State)
    requires LowerFunction(f).Ok?
  {
    exists k: nat :: After(f, args, k) == st
  }

  ghost predicate SourceGives(f: Function, args: seq<Int64>, st: State)
    requires |args| == |f.params|
  {
    exists fuel: nat :: GivesWithin(f, args, fuel, st)
  }

  predicate GivesWithin(f: Function, args: seq<Int64>, fuel: nat, st: State)
    requires |args| == |f.params|
  {
    var o := Call(f, args, fuel);
    !o.Timeout? && FinalState(f, o) == st
  }

  // Two stopped states of one run are the same state, and a stopped run does
  // not run again.
  lemma StoppedOnce(f: Function, args: seq<Int64>, j: nat, k: nat)
    requires LowerFunction(f).Ok? && j <= k && !After(f, args, j).Running?
    ensures After(f, args, k) == After(f, args, j)
  {
    RunAdd(LowerFunction(f).value, Words(args), ENTRY, j, k - j);
    RunStopped(LowerFunction(f).value, Words(args), After(f, args, j), k - j);
  }

  // Every way for the compiled code to stop is a way for the source to stop,
  // and the other way round: same returned value, same fall off the end, same
  // undefined behaviour.
  lemma CodeStopsAsSource(f: Function, args: seq<Int64>, st: State)
    requires CheckFunction(f) && |args| == |f.params| && !st.Running?
    ensures LowerFunction(f).Ok?
    ensures CodeReaches(f, args, st) <==> SourceGives(f, args, st)
  {
    FunctionShape(f);
    if CodeReaches(f, args, st) {
      var k: nat :| After(f, args, k) == st;
      var k' := MeaningPreserved(f, args, k + 1);
      if k <= k' {
        StoppedOnce(f, args, k, k');
      } else {
        StoppedOnce(f, args, k', k);
      }
      assert GivesWithin(f, args, k + 1, st);
    }
    if SourceGives(f, args, st) {
      var fuel: nat :| GivesWithin(f, args, fuel, st);
      var k := MeaningPreserved(f, args, fuel);
      assert After(f, args, k) == st;
    }
  }

  // The code runs forever exactly when the source loops forever.
  lemma CodeDivergesAsSource(f: Function, args: seq<Int64>)
    requires CheckFunction(f) && |args| == |f.params|
    ensures LowerFunction(f).Ok?
    ensures (forall k: nat :: After(f, args, k).Running?)
       <==> (forall fuel: nat :: Call(f, args, fuel).Timeout?)
  {
    FunctionShape(f);
    if fuel: nat :| !Call(f, args, fuel).Timeout? {
      var k := MeaningPreserved(f, args, fuel);
      assert !After(f, args, k).Running?;
    } else {
      forall k: nat
        ensures After(f, args, k).Running?
      {
        var k' := MeaningPreserved(f, args, k);
        if !After(f, args, k).Running? {
          StoppedOnce(f, args, k, k');
        }
      }
    }
  }

  // ----- a name that leaks -----

  const LEAK_TEST := Compare(Eq, Const(1), Const(2))
  const LEAK_DECL := AnnAssign("x", IntTy, None)
  const LEAK := Function([], true, [If(LEAK_TEST, [LEAK_DECL], []), Return(Some(Name("x")))])

  lemma LeakTested() returns (g: Gen)
    ensures OpenTest(EMPTY_GEN, LEAK_TEST, 2) == Ok(g)
    ensures g == Gen([[Br(1)], [Icmp(0, EqP, Imm(1), Imm(2)), CondBr(Tmp(0), 2, 3)], [], []], 2, map[], 1)
  {
    var a, h := AppendBlocks(EMPTY_GEN, 3), Gen([[Br(1)], [], [], []], 0, map[], 0);
    assert a.blocks == [[], [], [], []];
    LeakTerminate(a, [], Br(1), h);
    var code := Code([Icmp(0, EqP, Imm(1), Imm(2))], Tmp(0), 1);
    assert [] + [] + code.instrs == code.instrs;
    assert CondCode(map[], 0, LEAK_TEST) == Ok(code);
    var c := Gen([[Br(1)], code.instrs, [], []], 1, map[], 1);
    assert h.blocks[1] + code.instrs == code.instrs && EmitCode(At(h, 1), code).blocks == c.blocks;
    g := Gen([[Br(1)], [Icmp(0, EqP, Imm(1), Imm(2)), CondBr(Tmp(0), 2, 3)], [], []], 2, map[], 1);
    LeakTerminate(c, code.instrs, CondBr(Tmp(0), 2, 3), At(g, 1));
  }

  // Terminating a block without a terminator.
  lemma LeakTerminate(g: Gen, code: Block, i: Instr, g': Gen)
    requires g.Valid() && g.blocks[g.cur] == code && forall k :: 0 <= k < |code| ==> !code[k].Terminator()
    requires g' == g.(blocks := g'.blocks) && |g'.blocks| == |g.blocks|
    requires forall b :: 0 <= b < |g.blocks| ==> g'.blocks[b] == if b == g.cur then code + [i] else g.blocks[b]
    ensures Terminate(g, i) == Ok(g')
  {
    assert Emit(g, [i]).blocks == g'.blocks;
  }

  lemma LeakBranch() returns (g: Gen)
    ensures LowerStmt(EMPTY_GEN, LEAK.body[0]) == Ok(g) && g.Valid()
    ensures g.cur == 3 && g.blocks[..2] == [[Br(1)], [Icmp(0, EqP, Imm(1), Imm(2)), CondBr(Tmp(0), 2, 3)]]
    ensures |g.blocks| == 4 && g.blocks[3] == [] && g.scope == map["x" := Slot(1, IntTy)] && g.next == 2
  {
    var g1 := LeakTested();
    var d := DeclareSlot(g1, "x", IntTy);
    assert [LEAK_DECL][1..] == [] && LowerList(g1, [LEAK_DECL]) == Ok(d);
    g := At(Close(d, 3), 3);
    assert LowerStmt(EMPTY_GEN, LEAK.body[0]) == Ok(g);
  }

  // The visitor does not raise on a name used behind the branch that declares
  // it, where it is not safe; the code reads through a slot that was never
  // allocated.
  lemma LeakedName()
    ensures !SafeFunction(LEAK)
    ensures LowerFunction(LEAK).Ok? && After(LEAK, [], 3) == Running(3, 0, map[0 := BoolV(false)], [])
    ensures After(LEAK, [], 4) == Invalid
  {
    hide Run, StepInstr, CodeAt;
    var p := LeakCode();
    LeakRun(p);
    assert Words([]) == [];
    LeakUnsafe();
  }

  lemma LeakUnsafe()
    ensures !SafeFunction(LEAK)
  {
    var s, r := LEAK.body[0], LEAK.body[1];
    assert AfterList(Live({}), [LEAK_DECL]) == Live({} + {"x"}) by {
      assert [LEAK_DECL][1..] == [];
    }
    assert DeclaredList([LEAK_DECL]) == {"x"} by {
      assert [LEAK_DECL][1..] == [];
    }
    assert AfterStmt(Live({}), s) == Live({});
    assert LEAK.body[1..] == [r];
    assert LeakList(map[], [LEAK_DECL]) == map["x" := IntTy] by {
      assert [LEAK_DECL][1..] == [];
    }
    assert LeakList(map["x" := IntTy], []) == map["x" := IntTy];
    assert Leak(map[], s) == map["x" := IntTy];
    assert Loads(map["x" := IntTy], Name("x")) == {"x"};
    assert !SafeStmt(map["x" := IntTy], Live({}), r);
    assert [r] != [] && !SafeList(map["x" := IntTy], Live({}), [r]);
    assert !SafeList(map[], Live({}), LEAK.body);
    assert ParamContext([]) == map[] && ParamContext([]).Keys == {};
  }

  lemma LeakCode() returns (p: seq<Block>)
    ensures LowerFunction(LEAK) == Ok(p) && |p| == 4
    ensures p[0] == [Br(1)] && p[1] == [Icmp(0, EqP, Imm(1), Imm(2)), CondBr(Tmp(0), 2, 3)]
    ensures p[3] == [Load(2, Tmp(1)), Ret(Tmp(2))]
  {
    hide LowerStmt;
    var g := LeakBranch();
    var ret := LEAK.body[1];
    assert LEAK.body[1..] == [ret] && [ret][1..] == [];
    LeakReturn(g, ret);
    assert LowerList(g, [ret]) == Ok(LowerStmt(g, ret).value);
    assert LowerList(EMPTY_GEN, LEAK.body) == LowerList(g, [ret]);
    p := LowerFunction(LEAK).value;
    assert p[0] == g.blocks[..2][0] && p[1] == g.blocks[..2][1];
  }

  lemma LeakRun(p: seq<Block>)
    requires |p| == 4 && p[0] == [Br(1)] && p[1] == [Icmp(0, EqP, Imm(1), Imm(2)), CondBr(Tmp(0), 2, 3)]
    requires p[3] == [Load(2, Tmp(1)), Ret(Tmp(2))]
    ensures Run(p, [], ENTRY, 3) == Running(3, 0, map[0 := BoolV(false)], [])
    ensures Run(p, [], ENTRY, 4) == Invalid
  {
    hide Run;
    var s1, s2 := Running(1, 0, map[], []), Running(1, 1, map[0 := BoolV(false)], []);
    RunOne(p, [], ENTRY, Br(1));
    RunThen(p, [], ENTRY, 1, s1, Icmp(0, EqP, Imm(1), Imm(2)));
    RunThen(p, [], ENTRY, 2, s2, CondBr(Tmp(0), 2, 3));
    RunThen(p, [], ENTRY, 3, Running(3, 0, map[0 := BoolV(false)], []), Load(2, Tmp(1)));
  }

  lemma LeakReturn(g: Gen, ret: Stmt)
    requires ret == LEAK.body[1] && g.Valid() && g.blocks[g.cur] == []
    requires g.scope == map["x" := Slot(1, IntTy)] && g.next == 2
    ensures LowerStmt(g, ret).Ok? && LowerStmt(g, ret).value.Valid() && LowerStmt(g, ret).value.Closed()
    ensures LowerStmt(g, ret).value.blocks == g.blocks[g.cur := [Load(2, Tmp(1)), Ret(Tmp(2))]]
  {
    var v := LowerExpr(g, Name("x")).value.0;
    assert v.blocks[v.cur] == [Load(2, Tmp(1))];
    var r := LowerStmt(g, ret).value;
    assert r.blocks[r.cur] == [Load(2, Tmp(1)), Ret(Tmp(2))];
    assert r.blocks[r.cur][1].Terminator();
  }
}
