// Integers as the two sides of the compiler see them.  A .pie `int` is a
// signed 64-bit value; an LLVM i64 register holds a 64-bit pattern.  The
// module relates the operators of the two sides, and relates the source
// operators to Python's unbounded ones.

module MachineInt {
  import opened Wrappers

  const TWO_63: int := 0x8000_0000_0000_0000
  const TWO_64: int := 0x1_0000_0000_0000_0000

  type Int64 = x: int | -TWO_63 <= x < TWO_63
  type Word = x: int | 0 <= x < TWO_64

  function ToWord(x: Int64): Word {
    if x < 0 then x + TWO_64 else x
  }

  function ToSigned(w: Word): Int64 {
    if w < TWO_63 then w else w - TWO_64
  }

  // The signed 64-bit value congruent to x.
  function Wrap(x: int): Int64 {
    ToSigned(x % TWO_64)
  }

  function Pow2(n: nat): (p: nat)
    ensures p > 0
  {
    if n == 0 then 1 else 2 * Pow2(n - 1)
  }

  // ----- operators of the source language -----

  datatype BinaryOp =
    | Add | Sub | Mult | BitAnd | BitOr | BitXor | LShift | RShift | Mod
    | Div | FloorDiv | Pow | MatMult

  datatype BitOp = AndBits | OrBits | XorBits

  function OneBit(op: BitOp, a: int, b: int): (r: int)
    requires 0 <= a < 2 && 0 <= b < 2
    ensures 0 <= r < 2
  {
    match op
    case AndBits => a * b
    case OrBits => a + b - a * b
    case XorBits => if a == b then 0 else 1
  }

  function Abs(a: int): nat { if a < 0 then -a else a }

  // Python's &, | and ^: the operands are infinite two's complement strings of
  // bits, so the result is unbounded and needs no wrapping.
  function PythonBits(op: BitOp, a: int, b: int): int
    decreases Abs(a) + Abs(b)
  {
    var low := OneBit(op, a % 2, b % 2);
    if (a == 0 || a == -1) && (b == 0 || b == -1) then
      -low
    else
      2 * PythonBits(op, a / 2, b / 2) + low
  }

  // Remainder with the sign of the dividend.
  function TruncatedRem(a: int, b: int): int
    requires b != 0
  {
    if a >= 0 then a % Abs(b) else -((-a) % Abs(b))
  }

  // The value of `a op b`, None where the compiled operation is undefined: a
  // shift by 64 or more, a remainder by zero, INT64_MIN % -1.
  function BinaryValue(op: BinaryOp, a: Int64, b: Int64): Option<Int64> {
    match op
    case Add => Some(Wrap(a + b))
    case Sub => Some(Wrap(a - b))
    case Mult => Some(Wrap(a * b))
    case BitAnd => Some(Wrap(PythonBits(AndBits, a, b)))
    case BitOr => Some(Wrap(PythonBits(OrBits, a, b)))
    case BitXor => Some(Wrap(PythonBits(XorBits, a, b)))
    case LShift => if 0 <= b < 64 then Some(Wrap(a * Pow2(b))) else None
    case RShift => if 0 <= b < 64 then Some(Wrap(ToWord(a) / Pow2(b))) else None
    case Mod =>
      if b == 0 || (a == -TWO_63 && b == -1) then None
      else Some(Wrap(TruncatedRem(a, b)))
    case Div => None
    case FloorDiv => None
    case Pow => None
    case MatMult => None
  }

  datatype UnaryOp = Invert | USub | UAdd | Not

  // `~a` is Python's -a - 1, `-a` wraps at INT64_MIN.
  function UnaryValue(op: UnaryOp, a: Int64): Option<Int64> {
    match op
    case Invert => Some(-1 - a)
    case USub => Some(Wrap(0 - a))
    case UAdd => Some(a)
    case Not => None
  }

  datatype CompareOp = Eq | NotEq | Lt | LtE | Gt | GtE | Is | IsNot | In | NotIn

  function CompareValue(op: CompareOp, a: Int64, b: Int64): Option<bool> {
    match op
    case Eq => Some(a == b)
    case NotEq => Some(a != b)
    case Lt => Some(a < b)
    case LtE => Some(a <= b)
    case Gt => Some(a > b)
    case GtE => Some(a >= b)
    case Is => None
    case IsNot => None
    case In => None
    case NotIn => None
  }

  // ----- operators of the block language -----

  datatype Opcode = AddI | SubI | MulI | AndI | OrI | XorI | ShlI | LshrI | SremI

  datatype Predicate = EqP | NeP | SltP | SleP | SgtP | SgeP

  // Bitwise operation on the low n bits of two patterns.
  function PatternBits(op: BitOp, n: nat, x: nat, y: nat): nat {
    if n == 0 then 0
    else OneBit(op, x % 2, y % 2) + 2 * PatternBits(op, n - 1, x / 2, y / 2)
  }

  lemma {:induction false} PatternBitsBound(op: BitOp, n: nat, x: nat, y: nat)
    ensures PatternBits(op, n, x, y) < Pow2(n)
  {
    if n > 0 {
      PatternBitsBound(op, n - 1, x / 2, y / 2);
    }
  }

  lemma Pow2At64()
    ensures Pow2(63) == TWO_63 && Pow2(64) == TWO_64
  {
    assert Pow2(8) == 256;
    Pow2Sum(8, 8);
    Pow2Sum(16, 16);
    Pow2Sum(32, 16);
    Pow2Sum(48, 8);
    Pow2Sum(56, 7);
    Pow2Sum(56, 8);
    assert Pow2(7) == 128;
  }

  lemma {:induction false} Pow2Sum(m: nat, n: nat)
    ensures Pow2(m + n) == Pow2(m) * Pow2(n)
  {
    if m > 0 {
      Pow2Sum(m - 1, n);
    }
  }

  function OpcodeBits(op: BitOp, x: Word, y: Word): Word {
    Pow2At64();
    PatternBitsBound(op, 64, x, y);
    PatternBits(op, 64, x, y)
  }

  function OpcodeValue(op: Opcode, x: Word, y: Word): Option<Word> {
    match op
    case AddI => Some((x + y) % TWO_64)
    case SubI => Some((x - y) % TWO_64)
    case MulI => Some((x * y) % TWO_64)
    case AndI => Some(OpcodeBits(AndBits, x, y))
    case OrI => Some(OpcodeBits(OrBits, x, y))
    case XorI => Some(OpcodeBits(XorBits, x, y))
    case ShlI => if y < 64 then Some((x * Pow2(y)) % TWO_64) else None
    case LshrI => if y < 64 then Some((x / Pow2(y)) % TWO_64) else None
    case SremI =>
      var a, b := ToSigned(x), ToSigned(y);
      if b == 0 || (a == -TWO_63 && b == -1) then None
      else Some(TruncatedRem(a, b) % TWO_64)
  }

  function PredicateValue(p: Predicate, x: Word, y: Word): bool {
    var a, b := ToSigned(x), ToSigned(y);
    match p
    case EqP => x == y
    case NeP => x != y
    case SltP => a < b
    case SleP => a <= b
    case SgtP => a > b
    case SgeP => a >= b
  }

  // ----- the two sides agree -----

  lemma WordOfWrap(x: int)
    ensures ToWord(Wrap(x)) == x % TWO_64
  {
  }

  lemma SignedOfWord(x: Int64)
    ensures ToSigned(ToWord(x)) == x && ToWord(x) == x % TWO_64
  {
  }

  lemma ModShift(a: int, k: int, m: int)
    requires m > 0
    ensures (a + k * m) % m == a % m
  {
    var q, r := a / m, a % m;
    assert a + k * m == (q + k) * m + r;
    ModUnique(a + k * m, q + k, r, m);
  }

  lemma MulGap(p: int, q: int, m: int)
    requires p > q && m > 0
    ensures p * m >= q * m + m
  {
    assert (p - q - 1) * m >= 0;
    assert (p - q - 1) * m == p * m - q * m - m;
  }

  lemma ModUnique(x: int, q: int, r: int, m: int)
    requires 0 <= r < m && x == q * m + r
    ensures x % m == r && x / m == q
  {
    var q', r' := x / m, x % m;
    assert x == q' * m + r';
    if q > q' {
      MulGap(q, q', m);
    } else if q < q' {
      MulGap(q', q, m);
    }
  }

  lemma ModMul(a: int, b: int)
    ensures ((a % TWO_64) * (b % TWO_64)) % TWO_64 == (a * b) % TWO_64
  {
    var s, x := a / TWO_64, a % TWO_64;
    var t, y := b / TWO_64, b % TWO_64;
    calc {
      a * b;
      (s * TWO_64 + x) * (t * TWO_64 + y);
      x * y + (s * t * TWO_64 + s * y + t * x) * TWO_64;
    }
    ModShift(x * y, s * t * TWO_64 + s * y + t * x, TWO_64);
  }

  lemma ModMulLeft(a: int, p: int)
    ensures ((a % TWO_64) * p) % TWO_64 == (a * p) % TWO_64
  {
    var s, x := a / TWO_64, a % TWO_64;
    calc {
      a * p;
      (s * TWO_64 + x) * p;
      x * p + s * p * TWO_64;
    }
    ModShift(x * p, s * p, TWO_64);
  }

  // Halving commutes with taking the low bits.
  lemma HalfOfMod(a: int, n: nat)
    requires n > 0
    ensures (a % Pow2(n)) % 2 == a % 2
    ensures (a % Pow2(n)) / 2 == (a / 2) % Pow2(n - 1)
  {
    var m := Pow2(n - 1);
    var h, l := a / 2, a % 2;
    var q, r := h / m, h % m;
    assert a == 2 * (q * m + r) + l == q * (2 * m) + (2 * r + l);
    ModUnique(a, q, 2 * r + l, 2 * m);
    assert a % Pow2(n) == 2 * r + l;
  }

  // Python's bitwise operators, cut to n bits, are the pattern operators.
  lemma {:induction false} BitsAgree(op: BitOp, n: nat, a: int, b: int)
    ensures PythonBits(op, a, b) % Pow2(n)
         == PatternBits(op, n, a % Pow2(n), b % Pow2(n))
  {
    if n > 0 {
      HalfOfMod(a, n);
      HalfOfMod(b, n);
      BitsAgree(op, n - 1, a / 2, b / 2);
      var low := OneBit(op, a % 2, b % 2);
      var r := PythonBits(op, a, b);
      assert r == 2 * PythonBits(op, a / 2, b / 2) + low;
      assert r / 2 == PythonBits(op, a / 2, b / 2) && r % 2 == low;
      HalfOfMod(r, n);
    }
  }

  // Two's complement operands of n+1 bits give an (n+1)-bit result: Python's
  // bitwise operators never leave the 64-bit range.
  lemma {:induction false} PythonBitsRange(op: BitOp, n: nat, a: int, b: int)
    requires 0 - Pow2(n) <= a < Pow2(n) && 0 - Pow2(n) <= b < Pow2(n)
    ensures 0 - Pow2(n) <= PythonBits(op, a, b) < Pow2(n)
  {
    if n > 0 && !((a == 0 || a == -1) && (b == 0 || b == -1)) {
      PythonBitsRange(op, n - 1, a / 2, b / 2);
    }
  }

  lemma BitwiseIsExact(op: BitOp, a: Int64, b: Int64)
    ensures -TWO_63 <= PythonBits(op, a, b) < TWO_63
    ensures Wrap(PythonBits(op, a, b)) == PythonBits(op, a, b)
    ensures OpcodeBits(op, ToWord(a), ToWord(b)) == ToWord(Wrap(PythonBits(op, a, b)))
  {
    Pow2At64();
    PythonBitsRange(op, 63, a, b);
    BitsAgree(op, 64, a, b);
    SignedOfWord(a);
    SignedOfWord(b);
  }

  lemma {:induction false} PatternXorOnes(n: nat, x: nat)
    requires x < Pow2(n)
    ensures PatternBits(XorBits, n, x, Pow2(n) - 1) == Pow2(n) - 1 - x
  {
    if n > 0 {
      assert (Pow2(n) - 1) % 2 == 1 && (Pow2(n) - 1) / 2 == Pow2(n - 1) - 1;
      PatternXorOnes(n - 1, x / 2);
    }
  }

  // ----- lowering of operators, and its correctness -----

  // The IR opcode chosen for a source operator, None for an operator that the
  // visitor rejects.
  function LowerBinary(op: BinaryOp): Option<Opcode> {
    match op
    case Add => Some(AddI)
    case Sub => Some(SubI)
    case Mult => Some(MulI)
    case BitAnd => Some(AndI)
    case BitOr => Some(OrI)
    case BitXor => Some(XorI)
    case LShift => Some(ShlI)
    case RShift => Some(LshrI)
    case Mod => Some(SremI)
    case _ => None
  }

  function LowerCompare(op: CompareOp): Option<Predicate> {
    match op
    case Eq => Some(EqP)
    case NotEq => Some(NeP)
    case Lt => Some(SltP)
    case LtE => Some(SleP)
    case Gt => Some(SgtP)
    case GtE => Some(SgeP)
    case _ => None
  }

  predicate SameValue(v: Option<Int64>, w: Option<Word>) {
    match (v, w)
    case (None, None) => true
    case (Some(a), Some(x)) => x == ToWord(a)
    case _ => false
  }

  // Every accepted operator computes, on bit patterns, the value that the
  // source operator has on signed integers, and is undefined exactly when the
  // source operator is.
  lemma BinaryAgrees(op: BinaryOp, code: Opcode, a: Int64, b: Int64)
    requires LowerBinary(op) == Some(code)
    ensures SameValue(BinaryValue(op, a, b), OpcodeValue(code, ToWord(a), ToWord(b)))
  {
    SignedOfWord(a);
    SignedOfWord(b);
    match op
    case Add =>
      AddAgrees(a, b);
    case Sub =>
      SubAgrees(a, b);
    case Mult =>
      WordOfWrap(a * b);
      ModMul(a, b);
    case BitAnd => BitwiseIsExact(AndBits, a, b);
    case BitOr => BitwiseIsExact(OrBits, a, b);
    case BitXor => BitwiseIsExact(XorBits, a, b);
    case LShift =>
      if 0 <= b < 64 {
        WordOfWrap(a * Pow2(b));
        ModMulLeft(a, Pow2(b));
      }
    case RShift =>
      if 0 <= b < 64 {
        WordOfWrap(ToWord(a) / Pow2(b));
      }
    case Mod =>
      if b != 0 && !(a == -TWO_63 && b == -1) {
        WordOfWrap(TruncatedRem(a, b));
      }
    case _ =>
  }

  lemma AddAgrees(a: Int64, b: Int64)
    ensures (ToWord(a) + ToWord(b)) % TWO_64 == ToWord(Wrap(a + b))
  {
  }

  lemma SubAgrees(a: Int64, b: Int64)
    ensures (ToWord(a) - ToWord(b)) % TWO_64 == ToWord(Wrap(a - b))
  {
  }

  // `~x` is lowered to xor with all ones, `-x` to 0 - x.
  lemma InvertAgrees(a: Int64)
    ensures OpcodeValue(XorI, ToWord(a), ToWord(-1)) == Some(ToWord(-1 - a))
  {
    Pow2At64();
    PatternXorOnes(64, ToWord(a));
  }

  lemma CompareAgrees(op: CompareOp, p: Predicate, a: Int64, b: Int64)
    requires LowerCompare(op) == Some(p)
    ensures CompareValue(op, a, b) == Some(PredicateValue(p, ToWord(a), ToWord(b)))
  {
    SignedOfWord(a);
    SignedOfWord(b);
  }

  // ----- where .pie and Python differ -----

  // The value of Python's unbounded +, -, * and <<.
  predicate PythonValue(op: BinaryOp, a: int, b: int, x: int) {
    || (op.Add? && x == a + b) || (op.Sub? && x == a - b) || (op.Mult? && x == a * b)
    || (op.LShift? && b >= 0 && x == a * Pow2(b))
  }

  // These are compiled, to operations with Python's value exactly if it is an
  // int64, and the shift is by less than 64.
  lemma ExactIff(op: BinaryOp, a: Int64, b: Int64, x: int)
    requires PythonValue(op, a, b, x)
    ensures LowerBinary(op).Some?
    ensures OpcodeValue(LowerBinary(op).value, ToWord(a), ToWord(b)) == Some(x % TWO_64)
       <==> (op.LShift? ==> b < 64)
    ensures BinaryValue(op, a, b) == Some(x) <==> -TWO_63 <= x < TWO_63 && (op.LShift? ==> b < 64)
  {
    BinaryAgrees(op, LowerBinary(op).value, a, b);
    WordOfWrap(x);
    WrapExact(x);
  }

  lemma WrapExact(x: int)
    ensures Wrap(x) == x <==> -TWO_63 <= x < TWO_63
  {
  }

  // Python's % takes the sign of the divisor.
  function PythonMod(a: int, b: int): int
    requires b != 0
  {
    if b > 0 then a % b else -((0 - a) % (0 - b))
  }

  // The compiled remainder is Python's exactly when it is defined, and the
  // divisor divides the dividend or the operands have the same sign.
  lemma ModMatchesPythonIff(a: Int64, b: Int64)
    requires b != 0
    ensures BinaryValue(Mod, a, b) == Some(PythonMod(a, b))
       <==> !(a == -TWO_63 && b == -1) && (a % Abs(b) == 0 || (a < 0) == (b < 0))
  {
    TruncatedRange(a, b);
    SignsMatter(a, b);
  }

  lemma TruncatedRange(a: Int64, b: Int64)
    requires b != 0
    ensures -TWO_63 <= TruncatedRem(a, b) < TWO_63 && Wrap(TruncatedRem(a, b)) == TruncatedRem(a, b)
  {
  }

  lemma SignsMatter(a: int, b: int)
    requires b != 0
    ensures TruncatedRem(a, b) == PythonMod(a, b) <==> (a % Abs(b) == 0 || (a < 0) == (b < 0))
  {
    var m := Abs(b);
    var r := a % m;
    var q := a / m;
    assert a == q * m + r;
    if r == 0 {
      ModUnique(0 - a, 0 - q, 0, m);
    } else {
      assert 0 - a == (-1 - q) * m + (m - r);
      ModUnique(0 - a, -1 - q, m - r, m);
    }
  }

  // The compiled right shift is logical, and undefined from 64 on.  It is
  // Python's arithmetic shift (floor division by a power of two) exactly for a
  // defined shift of a non-negative value and for a shift by nothing.
  lemma ShiftMatchesPythonIff(a: Int64, b: Int64)
    requires b >= 0
    ensures BinaryValue(RShift, a, b) == Some(a / Pow2(b)) <==> b < 64 && (a >= 0 || b == 0)
  {
    if b < 64 {
      var p := Pow2(b);
      assert BinaryValue(RShift, a, b) == Some(Wrap(ToWord(a) / p));
      if b == 0 {
        SignedOfWord(a);
        assert p == 1;
      } else {
        LogicalQuotient(a, p, Pow2(b - 1));
      }
    }
  }

  lemma LogicalQuotient(a: Int64, p: int, half: int)
    requires p == 2 * half && half > 0
    ensures Wrap(ToWord(a) / p) == a / p <==> a >= 0
  {
    HalvedBelow(ToWord(a), p);
    WrapSmall(ToWord(a) / p);
    if a < 0 {
      NegativeQuotient(a, p);
    }
  }

  lemma WrapSmall(u: int)
    requires 0 <= u < TWO_63
    ensures Wrap(u) == u
  {
  }

  lemma HalvedBelow(w: Word, p: int)
    requires p >= 2
    ensures 0 <= w / p < TWO_63
  {
    var q, r := w / p, w % p;
    assert w == q * p + r;
    assert q >= 0 by {
      if q < 0 {
        MulGap(0, q, p);
      }
    }
    assert q * p >= q * 2 by {
      assert q * p == q * 2 + q * (p - 2);
      MulNonNegative(q, p - 2);
    }
  }

  lemma MulNonNegative(a: int, b: int)
    requires a >= 0 && b >= 0
    ensures a * b >= 0
  {
  }

  lemma NegativeQuotient(a: int, p: int)
    requires a < 0 < p
    ensures a / p < 0
  {
    var q, r := a / p, a % p;
    assert a == q * p + r;
    if q >= 0 {
      MulNonNegative(q, p);
    }
  }
}
