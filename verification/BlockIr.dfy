// The basic-block language the compiler emits, and the machine that runs it.
// Temporaries hold words, truth values or pointers; executing an alloca hands
// out a fresh object, so an alloca in a loop makes a new one each time.

module BlockIr {
  import opened Wrappers
  import opened MachineInt
  import opened PieSource

  datatype Operand = Imm(w: Word) | Arg(i: nat) | Tmp(t: nat)

  datatype Instr =
    | Alloca(dst: nat, ty: Ty)
    | StoreI(val: Operand, addr: Operand)
    | Load(dst: nat, addr: Operand)
    | Gep(dst: nat, base: Operand, index: Operand)
    | BinI(dst: nat, op: Opcode, l: Operand, r: Operand)
    | Icmp(dst: nat, p: Predicate, l: Operand, r: Operand)
    | Br(target: nat)
    | CondBr(cond: Operand, yes: nat, no: nat)
    | Ret(result: Operand)
    | RetVoid
    | Unreachable
  {
    predicate Terminator() {
      Br? || CondBr? || Ret? || RetVoid? || Unreachable?
    }
  }

  // A block lists its instructions, terminators included, in the order they
  // were appended.
  type Block = seq<Instr>

  predicate IsTerminated(b: Block) {
    exists k :: 0 <= k < |b| && b[k].Terminator()
  }

  // Exactly one terminator, placed last.
  predicate WellTerminated(b: Block) {
    && |b| > 0
    && b[|b| - 1].Terminator()
    && forall k :: 0 <= k < |b| - 1 ==> !b[k].Terminator()
  }

  predicate TargetsBelow(b: Block, n: nat) {
    forall k :: 0 <= k < |b| ==>
      && (b[k].Br? ==> b[k].target < n)
      && (b[k].CondBr? ==> b[k].yes < n && b[k].no < n)
  }

  // ----- machine -----

  datatype Value = WordV(w: Word) | BoolV(b: bool) | PtrV(obj: nat, off: int)

  type Object = seq<Option<Word>>

  // Undefined: undefined behaviour was reached.  Invalid: the code itself is
  // ill-formed at this point (a temporary used before its definition, a type
  // confusion, a missing block, or running off the end of a block).
  datatype State =
    | Running(blk: nat, pc: nat, tmps: map<nat, Value>, mem: seq<Object>)
    | Halted(how: Exit)
    | Undefined
    | Invalid

  datatype Exit = RetValue(w: Word) | RetNothing | HitUnreachable

  function OperandValue(args: seq<Word>, tmps: map<nat, Value>, o: Operand): Option<Value> {
    match o
    case Imm(w) => Some(WordV(w))
    case Arg(i) => if i < |args| then Some(WordV(args[i])) else None
    case Tmp(t) => if t in tmps then Some(tmps[t]) else None
  }

  function Step(p: seq<Block>, args: seq<Word>, st: State): State {
    if !st.Running? then st
    else if st.blk >= |p| || st.pc >= |p[st.blk]| then Invalid
    else StepInstr(p[st.blk][st.pc], args, st)
  }

  function StepInstr(i: Instr, args: seq<Word>, st: State): State
    requires st.Running?
  {
    var Running(blk, pc, tmps, mem) := st;
    match i
    case Alloca(dst, ty) =>
      Running(blk, pc + 1, tmps[dst := PtrV(|mem|, 0)], mem + [seq(Size(ty), k => None)])
    case StoreI(val, addr) =>
      (match (OperandValue(args, tmps, val), OperandValue(args, tmps, addr))
       case (Some(WordV(w)), Some(PtrV(o, k))) =>
         if o < |mem| && 0 <= k < |mem[o]|
         then Running(blk, pc + 1, tmps, mem[o := mem[o][k := Some(w)]])
         else Undefined
       case _ => Invalid)
    case Load(dst, addr) =>
      (match OperandValue(args, tmps, addr)
       case Some(PtrV(o, k)) =>
         if o < |mem| && 0 <= k < |mem[o]| && mem[o][k].Some?
         then Running(blk, pc + 1, tmps[dst := WordV(mem[o][k].value)], mem)
         else Undefined
       case _ => Invalid)
    case Gep(dst, base, index) =>
      (match (OperandValue(args, tmps, base), OperandValue(args, tmps, index))
       case (Some(PtrV(o, k)), Some(WordV(w))) =>
         Running(blk, pc + 1, tmps[dst := PtrV(o, k + ToSigned(w))], mem)
       case _ => Invalid)
    case BinI(dst, op, l, r) =>
      (match (OperandValue(args, tmps, l), OperandValue(args, tmps, r))
       case (Some(WordV(x)), Some(WordV(y))) =>
         var v := OpcodeValue(op, x, y);
         if v.Some? then Running(blk, pc + 1, tmps[dst := WordV(v.value)], mem) else Undefined
       case _ => Invalid)
    case Icmp(dst, p, l, r) =>
      (match (OperandValue(args, tmps, l), OperandValue(args, tmps, r))
       case (Some(WordV(x)), Some(WordV(y))) =>
         Running(blk, pc + 1, tmps[dst := BoolV(PredicateValue(p, x, y))], mem)
       case _ => Invalid)
    case Br(target) => Running(target, 0, tmps, mem)
    case CondBr(cond, yes, no) =>
      (match OperandValue(args, tmps, cond)
       case Some(BoolV(b)) => Running(if b then yes else no, 0, tmps, mem)
       case _ => Invalid)
    case Ret(result) =>
      (match OperandValue(args, tmps, result)
       case Some(WordV(w)) => Halted(RetValue(w))
       case _ => Invalid)
    case RetVoid => Halted(RetNothing)
    case Unreachable => Halted(HitUnreachable)
  }

  function Run(p: seq<Block>, args: seq<Word>, st: State, n: nat): State
    decreases n
  {
    if n == 0 then st else Run(p, args, Step(p, args, st), n - 1)
  }

  lemma {:induction false} RunAdd(p: seq<Block>, args: seq<Word>, st: State, m: nat, n: nat)
    ensures Run(p, args, st, m + n) == Run(p, args, Run(p, args, st, m), n)
    decreases m
  {
    if m > 0 {
      RunAdd(p, args, Step(p, args, st), m - 1, n);
    }
  }

  // A stopped machine stays as it is.
  lemma {:induction false} RunStopped(p: seq<Block>, args: seq<Word>, st: State, n: nat)
    requires !st.Running?
    ensures Run(p, args, st, n) == st
  {
    if n > 0 {
      RunStopped(p, args, st, n - 1);
    }
  }

  // ----- growing code -----

  // Appending blocks, and appending to blocks, is the only way code grows.
  predicate Extends(p: seq<Block>, q: seq<Block>) {
    |q| <= |p| && forall b :: 0 <= b < |q| ==> q[b] <= p[b]
  }

  lemma ExtendsTrans(p: seq<Block>, q: seq<Block>, r: seq<Block>)
    requires Extends(p, q) && Extends(q, r)
    ensures Extends(p, r)
  {
    forall b | 0 <= b < |r|
      ensures r[b] <= p[b]
    {
      assert r[b] <= q[b] && q[b] <= p[b];
    }
  }
}
