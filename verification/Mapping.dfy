// The size arithmetic of the runtime's mappings, with a guard page at the end.

module Mapping {
  import opened MachineInt

  // A mapping with a guard page: size | (page - 1), plus one, plus the guard.
  function MapSize(size: nat, page: nat): int {
    PythonBits(OrBits, size, page - 1) + 1 + page
  }

  // Filling up the low bits: the last number of the page that x is on.
  lemma {:induction false} OrLowOnes(x: nat, k: nat) returns (q: nat)
    ensures q * Pow2(k) <= x < q * Pow2(k) + Pow2(k)
    ensures PythonBits(OrBits, x, Pow2(k) - 1) == q * Pow2(k) + Pow2(k) - 1
    decreases k
  {
    if k == 0 {
      OrZero(x);
      q := x;
    } else {
      hide PythonBits;
      var m := Pow2(k - 1);
      q := OrLowOnes(x / 2, k - 1);
      OrOdd(x, m);
      MulTwo(q, m);
      hide *;
      assert x == 2 * (x / 2) + x % 2;
    }
  }

  lemma MulTwo(q: int, m: int)
    ensures q * (2 * m) == 2 * (q * m)
  {
  }

  lemma OrOdd(x: nat, m: nat)
    requires m > 0
    ensures PythonBits(OrBits, x, 2 * m - 1) == 2 * PythonBits(OrBits, x / 2, m - 1) + 1
  {
    assert (2 * m - 1) % 2 == 1 && (2 * m - 1) / 2 == m - 1;
  }

  lemma {:induction false} OrZero(x: nat)
    ensures PythonBits(OrBits, x, 0) == x
  {
    if x > 0 {
      OrZero(x / 2);
    }
  }

  // For any power-of-two page size the guard page starts at a page boundary
  // behind byte number `size`, so that a terminator there is still inside.
  lemma GuardBehindTerminator(size: nat, k: nat)
    ensures var page := Pow2(k); var guard := MapSize(size, page) - page;
      guard % page == 0 && size < guard <= size + page
  {
    hide PythonBits, Pow2;
    var page := Pow2(k);
    var q := OrLowOnes(size, k);
    ModUnique((q + 1) * page, q + 1, 0, page);
    assert (q + 1) * page == q * page + page;
  }

  // The bytes in front of the guard page, for pages of 2^k bytes.
  function Usable(size: nat, k: nat): (n: nat)
    ensures n > size
  {
    GuardBehindTerminator(size, k);
    MapSize(size, Pow2(k)) - Pow2(k)
  }
}
