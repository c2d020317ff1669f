/** Facts about multiplication, division and remainders. */
module Arithmetic {

  lemma MulMonotone(a: int, b: int, c: nat)
    requires a <= b
    ensures a * c <= b * c
  {
    assert (b - a) * c >= 0;
  }

  /** Quotient and remainder are the only pair with these two properties. */
  lemma DivModUnique(x: nat, d: nat, q: nat, r: nat)
    requires d > 0 && x == q * d + r && r < d
    ensures x / d == q && x % d == r
  {
    var e := q - x / d;
    assert e * d == x % d - r by {
      assert x == (x / d) * d + x % d;
      assert e * d == q * d - (x / d) * d;
    }
  }

  lemma ModDouble(x: nat, p: nat)
    requires p > 0
    ensures x % (2 * p) == 2 * (x / 2 % p) + x % 2
  {
    var q, r := x / 2 / p, x / 2 % p;
    assert x / 2 == q * p + r;
    assert x == q * (2 * p) + (2 * r + x % 2) by {
      assert q * (2 * p) == 2 * (q * p);
    }
    DivModUnique(x, 2 * p, q, 2 * r + x % 2);
  }

  lemma ModInjective(a: nat, b: nat, m: nat)
    requires m > 0 && a <= b < a + m && a % m == b % m
    ensures a == b
  {
    var q := b / m - a / m;
    assert b - a == q * m by {
      assert (b / m) * m - (a / m) * m == q * m;
    }
  }

  /** A pair (high, low) packed as `high * size + low` stays below `count * size`. */
  lemma PackBound(high: nat, count: nat, low: nat, size: nat)
    requires high < count && low < size
    ensures 0 <= high * size + low < count * size
    ensures high + 1 < count ==> high * size + low + size < count * size
  {
    MulMonotone(high + 1, count, size);
    if high + 1 < count {
      MulMonotone(high + 2, count, size);
    }
  }

  /** The high part of a packed pair steps, wrapping at `count`. */
  lemma ModStep(n: nat, count: nat)
    requires count > 0
    ensures (n + 1) % count == if n % count + 1 < count then n % count + 1 else 0
  {
    var q, high := n / count, n % count;
    if high + 1 < count {
      DivModUnique(n + 1, count, q, high + 1);
    } else {
      assert (q + 1) * count == q * count + count;
      DivModUnique(n + 1, count, q + 1, 0);
    }
  }

  /** Adding `size` to a packed pair steps the high part, which wraps at `count`. */
  lemma PackStep(n: nat, count: nat, low: nat, size: nat)
    requires count > 0 && low < size
    ensures count * size > 0
    ensures (n % count * size + low + size) % (count * size) == (n + 1) % count * size + low
  {
    var high := n % count;
    PackBound(high, count, low, size);
    ModStep(n, count);
    var x, total := high * size + low + size, count * size;
    assert (high + 1) * size == high * size + size;
    if high + 1 < count {
      DivModUnique(x, total, 0, x);
    } else {
      DivModUnique(x, total, 1, low);
    }
  }

  /** Dividing by `size` and then by `count` splits a remainder modulo `count * size`. */
  lemma PackMod(n: nat, count: nat, size: nat)
    requires count > 0 && size > 0
    ensures count * size > 0
    ensures n % (count * size) == n / size % count * size + n % size
  {
    var q, high, low := n / size / count, n / size % count, n % size;
    PackBound(high, count, low, size);
    var r := high * size + low;
    assert n == q * (count * size) + r by {
      assert n / size == q * count + high;
      assert n == (q * count + high) * size + low;
      assert (q * count + high) * size == q * count * size + high * size;
    }
    DivModUnique(n, count * size, q, r);
  }

  /** Moving `d` steps of at most one lap from position `i` of a ring. */
  lemma RingOffset(n: nat, d: nat, size: nat)
    requires 0 < size && d < size
    ensures (n + d) % size == if n % size + d < size then n % size + d else n % size + d - size
  {
    var q, i := n / size, n % size;
    if i + d < size {
      DivModUnique(n + d, size, q, i + d);
    } else {
      assert n + d == (q + 1) * size + (i + d - size);
      DivModUnique(n + d, size, q + 1, i + d - size);
    }
  }

  /** The position of element `n` in a ring of `size` positions. */
  function Index(n: nat, size: nat): (i: nat)
    requires size > 0
    ensures i < size
  {
    n % size
  }

  lemma IndexPeriodic(n: nat, size: nat)
    requires size > 0
    ensures Index(n + size, size) == Index(n, size)
  {
    DivModUnique(n + size, size, n / size + 1, n % size);
  }

  /** Elements less than one lap apart have different positions. */
  lemma IndexDistinct(a: nat, b: nat, size: nat)
    requires size > 0 && a < b + size && b < a + size && Index(a, size) == Index(b, size)
    ensures a == b
  {
    if a <= b { ModInjective(a, b, size); } else { ModInjective(b, a, size); }
  }
}
