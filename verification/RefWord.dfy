/** The word of `RefCount`: twice the number of standard references, plus the block bit. */
module RefWord {
  import opened Arithmetic
  import opened Bits

  const REF_BLOCKED: nat := 1
  const REF_ALLOWED: nat := 0
  const REF_COUNT_MASK: nat := 0xFFFF_FFFE
  const REF_INCR: nat := 2
  const STATE_MASK: nat := 1
  const WORD_BITS: nat := 32
  const WORD_SIZE: nat := 0x1_0000_0000

  /** The count with the block bit cleared: the expected word of every acquisition. */
  function Masked(word: nat): nat {
    word - word % 2
  }

  /** `standard_ref_count!` */
  function StandardCount(word: nat): nat {
    word / 2
  }

  /** `block_state!` */
  function BlockState(word: nat): nat {
    word % 2
  }

  predicate IsBlocked(word: nat) {
    BlockState(word) == 1
  }

  /** `ref_count`: standard and exclusive references together. */
  function RefTotal(word: nat): nat {
    StandardCount(word) + BlockState(word)
  }

  /** `cur + REF_INCR`, on a `u32`. */
  function NextRef(cur: nat): nat {
    if cur + REF_INCR < WORD_SIZE then cur + REF_INCR else cur + REF_INCR - WORD_SIZE
  }

  /** The masked count with the block bit set. */
  function NextBlocked(cur: nat): nat {
    cur + REF_BLOCKED
  }

  /** `fetch_sub(REF_INCR)`, on a `u32`. */
  function Dropped(word: nat): nat {
    if word >= REF_INCR then word - REF_INCR else word + WORD_SIZE - REF_INCR
  }

  lemma WordSize()
    ensures Pow2(WORD_BITS) == WORD_SIZE
  {
    assert Pow2(8) == 0x100;
    Pow2Sum(8, 8);
    Pow2Sum(16, 16);
  }

  /** The functions above are the bit operations of the macros, on every `u32`. */
  lemma MasksAreBitOps(word: nat)
    requires word < WORD_SIZE
    ensures And(word, REF_COUNT_MASK) == Masked(word)
    ensures And(word, STATE_MASK) == BlockState(word)
    ensures Or(Masked(word), REF_BLOCKED) == NextBlocked(Masked(word))
    ensures word == 2 * StandardCount(word) + BlockState(word)
  {
    WordSize();
    assert Pow2(1) == 2;
    AndHighMask(word, 1, WORD_BITS);
    AndLowMask(word, 1);
    assert Not(Pow2(1) - 1, WORD_BITS) == REF_COUNT_MASK;
    OrLowBit(Masked(word));
  }

  /** The additions and subtractions wrap as on a `u32`. */
  lemma SumsWrap(word: nat)
    requires word < WORD_SIZE
    ensures WrapAdd(word, REF_INCR, WORD_BITS) == NextRef(word)
    ensures REF_INCR <= Pow2(WORD_BITS) && WrapSub(word, REF_INCR, WORD_BITS) == Dropped(word)
  {
    WordSize();
    WrapsOnce(word);
  }

  lemma WrapsOnce(word: nat)
    requires word < WORD_SIZE
    ensures (word + REF_INCR) % WORD_SIZE == NextRef(word)
    ensures (word + WORD_SIZE - REF_INCR) % WORD_SIZE == Dropped(word)
  {
    var up, down := word + REF_INCR, word + WORD_SIZE - REF_INCR;
    DivModUnique(up, WORD_SIZE, if up < WORD_SIZE then 0 else 1, NextRef(word));
    DivModUnique(down, WORD_SIZE, if down < WORD_SIZE then 0 else 1, Dropped(word));
  }

  lemma OrLowBit(x: nat)
    requires x % 2 == 0
    ensures Or(x, 1) == x + 1
  {
    if x > 0 {
      assert Or(x, 1) == 2 * Or(x / 2, 0) + 1;
    }
  }
}
