/** The words of the array queue: `head`, `tail` and the slot stamps.
    A word packs an index (low bits) and a lap (high bits), and laps wrap with the machine word.
    The proofs count *tickets* instead: ticket `n` is the n-th element ever pushed, and
    `Word(n)` is the machine word the queue stores for it. */
module Stamps {
  import opened Arithmetic
  import opened Bits

  /** A queue of capacity `cap` with `one_lap == 2^lapBits`, on a machine with `wordBits`-bit words. */
  datatype Geometry = Geometry(cap: nat, lapBits: nat, wordBits: nat) {

    /** The capacity is not zero, `one_lap` is `(C + 1).next_power_of_two()`, and it fits a machine word. */
    predicate Valid() {
      cap > 0 && lapBits == CeilLog2(cap + 1) && lapBits < wordBits
    }

    function OneLap(): (l: nat)
      ensures l > 0
    {
      Pow2(lapBits)
    }

    function Modulus(): (m: nat)
      ensures m > 0
    {
      Pow2(wordBits)
    }

    /** The number of laps before the lap field of a word wraps. */
    function Laps(): (l: nat)
      requires lapBits <= wordBits
      ensures l > 0
    {
      Pow2(wordBits - lapBits)
    }

    // ---- the arithmetic of the code ------------------------------------------------

    function IndexOf(word: nat): nat {
      And(word, OneLap() - 1)
    }

    function LapOf(word: nat): nat
      requires Valid()
    {
      Pow2Monotone(lapBits, wordBits);
      And(word, Not(OneLap() - 1, wordBits))
    }

    /** `new_tail` and the `new` head: one index further, or index zero of the next lap. */
    function Advance(word: nat): nat
      requires Valid()
    {
      if IndexOf(word) + 1 < cap then word + 1 else NextLap(LapOf(word))
    }

    /** `word.wrapping_add(self.one_lap)` */
    function NextLap(word: nat): nat {
      WrapAdd(word, OneLap(), wordBits)
    }

    /** `word.wrapping_sub(self.one_lap)` */
    function PrevLap(word: nat): nat
      requires Valid()
    {
      Pow2Monotone(lapBits, wordBits);
      WrapSub(word, OneLap(), wordBits)
    }

    /** The `queue_size!` macro. */
    function QueueSize(head: nat, tail: nat): int {
      var headIndex, tailIndex := IndexOf(head), IndexOf(tail);
      if headIndex < tailIndex then tailIndex - headIndex
      else if headIndex > tailIndex then cap - headIndex + tailIndex
      else if tail == head then 0
      else cap
    }

    // ---- tickets -------------------------------------------------------------------

    function Word(ticket: nat): nat
      requires Valid()
    {
      ticket / cap % Laps() * OneLap() + Index(ticket, cap)
    }

    /** Tickets this far apart share a word. */
    function Period(): (p: nat)
      requires lapBits <= wordBits
    {
      MulMonotone(0, cap, Laps());
      cap * Laps()
    }
  }

  lemma GeometryFacts(g: Geometry)
    requires g.Valid()
    ensures g.cap < g.OneLap()
    ensures g.Laps() >= 2
    ensures g.Modulus() == g.Laps() * g.OneLap()
    ensures g.Period() >= 2 * g.cap
  {
    Pow2Sum(g.wordBits - g.lapBits, g.lapBits);
    MulMonotone(2, g.Laps(), g.cap);
  }

  /** Quotient and remainder of the next ticket. */
  lemma TicketStep(g: Geometry, n: nat)
    requires g.cap > 0
    ensures if n % g.cap + 1 < g.cap
            then (n + 1) / g.cap == n / g.cap && (n + 1) % g.cap == n % g.cap + 1
            else (n + 1) / g.cap == n / g.cap + 1 && (n + 1) % g.cap == 0
  {
    var q, r := n / g.cap, n % g.cap;
    if r + 1 < g.cap {
      DivModUnique(n + 1, g.cap, q, r + 1);
    } else {
      assert n + 1 == (q + 1) * g.cap;
      DivModUnique(n + 1, g.cap, q + 1, 0);
    }
  }

  lemma TicketLap(g: Geometry, n: nat)
    requires g.cap > 0
    ensures (n + g.cap) / g.cap == n / g.cap + 1
    ensures (n + g.cap) % g.cap == n % g.cap
  {
    assert n + g.cap == (n / g.cap + 1) * g.cap + n % g.cap;
    DivModUnique(n + g.cap, g.cap, n / g.cap + 1, n % g.cap);
  }

  /** A word and its successor fit: the unguarded `tail + 1` and `head + 1` never overflow. */
  lemma WordFits(g: Geometry, n: nat)
    requires g.Valid()
    ensures g.Word(n) + 1 < g.Modulus()
  {
    GeometryFacts(g);
    PackBound(n / g.cap % g.Laps(), g.Laps(), n % g.cap + 1, g.OneLap());
  }

  /** The masks split a word into lap and index. */
  lemma WordParts(g: Geometry, n: nat)
    requires g.Valid()
    ensures g.IndexOf(g.Word(n)) == Index(n, g.cap)
    ensures g.LapOf(g.Word(n)) == g.Word(n) - Index(n, g.cap)
  {
    GeometryFacts(g);
    WordFits(g, n);
    AndLowMask(g.Word(n), g.lapBits);
    AndHighMask(g.Word(n), g.lapBits, g.wordBits);
    DivModUnique(g.Word(n), g.OneLap(), n / g.cap % g.Laps(), n % g.cap);
  }

  /** Adding one lap to a lap number, modulo the number of laps, is `wrapping_add(one_lap)`. */
  lemma LapWraps(g: Geometry, lap: nat, low: nat)
    requires g.Valid() && low < g.OneLap()
    ensures WrapAdd(lap % g.Laps() * g.OneLap() + low, g.OneLap(), g.wordBits)
         == (lap + 1) % g.Laps() * g.OneLap() + low
  {
    GeometryFacts(g);
    PackStep(lap, g.Laps(), low, g.OneLap());
  }

  /** The code's next word is the word of the next ticket. */
  lemma WordAdvance(g: Geometry, n: nat)
    requires g.Valid()
    ensures g.Advance(g.Word(n)) == g.Word(n + 1)
  {
    GeometryFacts(g);
    WordParts(g, n);
    TicketStep(g, n);
    if n % g.cap + 1 >= g.cap {
      LapWraps(g, n / g.cap, 0);
    }
  }

  /** One lap further is `cap` tickets further, for a word and for its filled stamp. */
  lemma WordNextLap(g: Geometry, n: nat)
    requires g.Valid()
    ensures g.NextLap(g.Word(n)) == g.Word(n + g.cap)
    ensures g.NextLap(g.Word(n) + 1) == g.Word(n + g.cap) + 1
  {
    GeometryFacts(g);
    TicketLap(g, n);
    LapWraps(g, n / g.cap, n % g.cap);
    LapWraps(g, n / g.cap, n % g.cap + 1);
  }

  lemma WordPrevLap(g: Geometry, n: nat)
    requires g.Valid()
    ensures g.PrevLap(g.Word(n + g.cap)) == g.Word(n)
  {
    WordNextLap(g, n);
    WordFits(g, n);
    WordFits(g, n + g.cap);
    GeometryFacts(g);
    var w, v, m := g.Word(n), g.Word(n + g.cap), g.Modulus();
    assert m == 2 * Pow2(g.wordBits - 1);
    Pow2Monotone(g.lapBits, g.wordBits);
    if w + g.OneLap() < m {
      DivModUnique(w + g.OneLap(), m, 0, w + g.OneLap());
      DivModUnique(v + m - g.OneLap(), m, 1, w);
    } else {
      DivModUnique(w + g.OneLap(), m, 1, w + g.OneLap() - m);
      DivModUnique(v + m - g.OneLap(), m, 0, w);
    }
  }

  lemma PeriodParts(g: Geometry, n: nat)
    requires g.Valid()
    ensures g.Period() > 0
    ensures n % g.Period() == n / g.cap % g.Laps() * g.cap + n % g.cap
  {
    PackMod(n, g.Laps(), g.cap);
  }

  /** Two tickets share a word exactly when they are a whole number of periods apart. */
  lemma WordEqual(g: Geometry, a: nat, b: nat)
    requires g.Valid()
    ensures g.Period() > 0
    ensures g.Word(a) == g.Word(b) <==> a % g.Period() == b % g.Period()
  {
    GeometryFacts(g);
    PeriodParts(g, a);
    PeriodParts(g, b);
    var la, lb := a / g.cap % g.Laps(), b / g.cap % g.Laps();
    if g.Word(a) == g.Word(b) {
      DivModUnique(g.Word(a), g.OneLap(), la, a % g.cap);
      DivModUnique(g.Word(b), g.OneLap(), lb, b % g.cap);
    }
    if a % g.Period() == b % g.Period() {
      DivModUnique(a % g.Period(), g.cap, la, a % g.cap);
      DivModUnique(b % g.Period(), g.cap, lb, b % g.cap);
    }
  }

  /** Within one period, equal words mean equal tickets. */
  lemma WordInjective(g: Geometry, a: nat, b: nat)
    requires g.Valid() && a < b + g.Period() && b < a + g.Period()
    ensures g.Word(a) == g.Word(b) <==> a == b
  {
    if g.Word(a) == g.Word(b) {
      WordEqual(g, a, b);
      if a <= b { ModInjective(a, b, g.Period()); } else { ModInjective(b, a, g.Period()); }
    }
  }

  /** The test of `is_full`: one word lags a lap behind the other. */
  lemma OneLapBehind(g: Geometry, h: nat, t: nat)
    requires g.Valid() && h + g.cap < t + g.Period() && t < h + g.cap + g.Period()
    ensures g.NextLap(g.Word(h)) == g.Word(t) <==> h + g.cap == t
  {
    WordNextLap(g, h);
    WordInjective(g, h + g.cap, t);
  }

  /** A filled stamp of a slot never equals a free stamp of the same slot, whatever the laps. */
  lemma FilledIsNotFree(g: Geometry, a: nat, b: nat)
    requires g.Valid() && Index(a, g.cap) == Index(b, g.cap)
    ensures g.Word(a) + 1 != g.Word(b)
  {
    GeometryFacts(g);
    DivModUnique(g.Word(a) + 1, g.OneLap(), a / g.cap % g.Laps(), a % g.cap + 1);
    DivModUnique(g.Word(b), g.OneLap(), b / g.cap % g.Laps(), b % g.cap);
  }

  /** The `queue_size!` macro counts the tickets between two words at most one lap apart. */
  lemma QueueSizeExact(g: Geometry, h: nat, t: nat)
    requires g.Valid() && h <= t <= h + g.cap
    ensures g.QueueSize(g.Word(h), g.Word(t)) == t - h
  {
    GeometryFacts(g);
    WordParts(g, h);
    WordParts(g, t);
    WordInjective(g, h, t);
    if t == h + g.cap {
      TicketLap(g, h);
    } else {
      RingOffset(h, t - h, g.cap);
    }
  }

  /** `len` among concurrent steps: the tail words of two loads agree, and the head was loaded in between. */
  lemma LenWords(g: Geometry, tailBefore: nat, h: nat, t: nat, tailAfter: nat)
    requires g.Valid() && tailBefore <= t <= tailAfter < tailBefore + g.Period() && h <= t <= h + g.cap
    requires g.Word(tailAfter) == g.Word(tailBefore)
    ensures g.QueueSize(g.Word(h), g.Word(tailBefore)) == t - h
  {
    WordInjective(g, tailBefore, tailAfter);
    QueueSizeExact(g, h, t);
  }
}
