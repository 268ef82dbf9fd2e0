/**
 Shifts and masks of natural numbers, defined by recursion on the shift amount so that every
 proof about them is linear.
 */
module Arith {

  function Min(a: int, b: int): int {
    if a < b then a else b
  }

  function Max(a: int, b: int): int {
    if a > b then a else b
  }

  /** The left shift v << k. */
  function Shl(v: nat, k: nat): nat
    decreases k
  {
    if k == 0 then v else 2 * Shl(v, k - 1)
  }

  /** The right shift v >> k. */
  function Shr(v: nat, k: nat): nat
    decreases k
  {
    if k == 0 then v else Shr(v / 2, k - 1)
  }

  /** The mask v & ((1 << k) - 1). */
  function Low(v: nat, k: nat): nat
    decreases k
  {
    if k == 0 then 0 else v % 2 + 2 * Low(v / 2, k - 1)
  }

  function Pow2(n: nat): nat {
    Shl(1, n)
  }

  lemma {:induction false} ShlAdd(x: nat, y: nat, k: nat)
    ensures Shl(x + y, k) == Shl(x, k) + Shl(y, k)
  {
    if k == 0 {
    } else {
      ShlAdd(x, y, k - 1);
    }
  }

  lemma {:induction false} ShlGrows(x: nat, k: nat)
    ensures x <= Shl(x, k)
  {
    if k == 0 {
    } else {
      ShlGrows(x, k - 1);
    }
  }

  lemma {:induction false} ShlMono(x: nat, y: nat, k: nat)
    requires x <= y
    ensures Shl(x, k) <= Shl(y, k)
  {
    if k == 0 {
    } else {
      ShlMono(x, y, k - 1);
    }
  }

  lemma {:induction false} ShlCancel(x: nat, y: nat, k: nat)
    requires Shl(x, k) <= Shl(y, k)
    ensures x <= y
  {
    if k == 0 {
    } else {
      ShlCancel(x, y, k - 1);
    }
  }

  lemma {:induction false} ShlShl(x: nat, j: nat, k: nat)
    ensures Shl(Shl(x, j), k) == Shl(x, j + k)
    decreases k
  {
    if k == 0 {
    } else {
      ShlShl(x, j, k - 1);
    }
  }

  lemma {:induction false} ShlZero(k: nat)
    ensures Shl(0, k) == 0
  {
    if k == 0 {
    } else {
      ShlZero(k - 1);
    }
  }

  lemma {:induction false} Pow2Mono(m: nat, n: nat)
    requires m <= n
    ensures 1 <= Pow2(m) <= Pow2(n)
    decreases n
  {
    if m < n {
      Pow2Mono(m, n - 1);
    } else if 0 < m {
      Pow2Mono(m - 1, n - 1);
    }
  }

  lemma {:induction false} ShrLess(v: nat, k: nat, n: nat)
    requires k <= n && v < Pow2(n)
    ensures Shr(v, k) < Pow2(n - k)
    decreases k
  {
    if k == 0 {
    } else {
      ShrLess(v / 2, k - 1, n - 1);
    }
  }

  lemma {:induction false} ShrAtLeast(v: nat, k: nat, q: nat)
    requires v >= Shl(q, k)
    ensures Shr(v, k) >= q
    decreases k
  {
    if k == 0 {
    } else {
      ShrAtLeast(v / 2, k - 1, q);
    }
  }

  lemma {:induction false} ShrShr(v: nat, j: nat, k: nat)
    ensures Shr(Shr(v, j), k) == Shr(v, j + k)
    decreases j
  {
    if j == 0 {
    } else {
      ShrShr(v / 2, j - 1, k);
    }
  }

  lemma {:induction false} LowBound(v: nat, k: nat)
    ensures Low(v, k) < Pow2(k)
    decreases k
  {
    if k == 0 {
    } else {
      LowBound(v / 2, k - 1);
    }
  }

  /** A number is its low bits plus its high bits shifted back. */
  lemma {:induction false} LowShr(v: nat, k: nat)
    ensures v == Low(v, k) + Shl(Shr(v, k), k)
    decreases k
  {
    if k == 0 {
    } else {
      LowShr(v / 2, k - 1);
    }
  }

  /** Low and Shr undo packing two numbers side by side. */
  lemma {:induction false} LowShrPack(x: nat, y: nat, k: nat)
    requires x < Pow2(k)
    ensures Low(x + Shl(y, k), k) == x
    ensures Shr(x + Shl(y, k), k) == y
    decreases k
  {
    if k == 0 {
    } else {
      LowShrPack(x / 2, y, k - 1);
      assert (x + Shl(y, k)) / 2 == x / 2 + Shl(y, k - 1);
      assert (x + Shl(y, k)) % 2 == x % 2;
    }
  }

  lemma LowSmall(v: nat, n: nat)
    requires v < Pow2(n)
    ensures Low(v, n) == v
  {
    ShlZero(n);
    LowShrPack(v, 0, n);
  }

  lemma SmallPowers()
    ensures Pow2(0) == 1 && Pow2(2) == 4 && Pow2(3) == 8 && Pow2(4) == 16 && Pow2(5) == 32 && Pow2(7) == 128
  {
  }

  lemma Pow2Eight()
    ensures Pow2(8) == 256
  {
  }

  lemma Pow2Sixteen()
    ensures Pow2(16) == 65536
  {
    ShlShl(1, 8, 8);
    Pow2Eight();
  }
}
