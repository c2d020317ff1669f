/** Bit operations on machine words, written out over natural numbers.
    The queue and the reference count use masks; the lemmas here say what each mask computes. */
module Bits {
  import opened Arithmetic

  function Pow2(k: nat): (p: nat)
    ensures p > 0
  {
    if k == 0 then 1 else 2 * Pow2(k - 1)
  }

  /** Bitwise `x & y`. */
  function And(x: nat, y: nat): nat {
    if x == 0 || y == 0 then 0
    else 2 * And(x / 2, y / 2) + (if x % 2 == 1 && y % 2 == 1 then 1 else 0)
  }

  /** Bitwise `x | y`. */
  function Or(x: nat, y: nat): nat {
    if x == 0 then y else if y == 0 then x
    else 2 * Or(x / 2, y / 2) + (if x % 2 == 1 || y % 2 == 1 then 1 else 0)
  }

  /** Bitwise complement of `x` in a word of `width` bits. */
  function Not(x: nat, width: nat): nat
    requires x < Pow2(width)
  {
    Pow2(width) - 1 - x
  }

  function WrapAdd(a: nat, b: nat, width: nat): nat {
    (a + b) % Pow2(width)
  }

  function WrapSub(a: nat, b: nat, width: nat): nat
    requires b <= Pow2(width)
  {
    (a + Pow2(width) - b) % Pow2(width)
  }

  /** `(1 << x).next_power_of_two()` as an exponent: the least `k` with `2^k >= x`. */
  function CeilLog2(x: nat): (k: nat)
    ensures x <= Pow2(k)
    ensures k > 0 ==> Pow2(k - 1) < x
    decreases x
  {
    if x <= 1 then 0 else
      var k := 1 + CeilLog2((x + 1) / 2);
      assert k > 1 ==> Pow2(k - 1) == 2 * Pow2(k - 2);
      k
  }

  lemma {:induction false} Pow2Sum(a: nat, b: nat)
    ensures Pow2(a + b) == Pow2(a) * Pow2(b)
  {
    if a == 0 {
    } else {
      Pow2Sum(a - 1, b);
      assert Pow2(a) * Pow2(b) == 2 * (Pow2(a - 1) * Pow2(b));
    }
  }

  lemma {:induction false} Pow2Monotone(a: nat, b: nat)
    requires a < b
    ensures 2 * Pow2(a) <= Pow2(b)
  {
    if a + 1 < b {
      Pow2Monotone(a, b - 1);
    }
  }

  /** `x & (2^k - 1)` is the remainder modulo `2^k`. */
  lemma {:induction false} AndLowMask(x: nat, k: nat)
    ensures And(x, Pow2(k) - 1) == x % Pow2(k)
    decreases k
  {
    if k > 0 && x > 0 {
      AndLowMask(x / 2, k - 1);
      ModDouble(x, Pow2(k - 1));
      assert (Pow2(k) - 1) / 2 == Pow2(k - 1) - 1;
    } else if x == 0 {
      DivModUnique(0, Pow2(k), 0, 0);
    }
  }

  /** `x & !(2^k - 1)` clears the low `k` bits. */
  lemma {:induction false} AndHighMask(x: nat, k: nat, width: nat)
    requires k <= width && x < Pow2(width)
    ensures Pow2(k) <= Pow2(width)
    ensures And(x, Not(Pow2(k) - 1, width)) == x - x % Pow2(k)
    decreases width
  {
    if k < width { Pow2Monotone(k, width); }
    if x == 0 {
      DivModUnique(0, Pow2(k), 0, 0);
    } else if k == width {
      DivModUnique(x, Pow2(k), 0, x);
    } else if k == 0 {
      AndHighMask(x / 2, 0, width - 1);
      assert Not(0, width) / 2 == Not(0, width - 1);
    } else {
      AndHighMask(x / 2, k - 1, width - 1);
      ModDouble(x, Pow2(k - 1));
      assert Not(Pow2(k) - 1, width) / 2 == Not(Pow2(k - 1) - 1, width - 1);
    }
  }
}
